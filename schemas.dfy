/**
 * Request validation (src/be/schemas/__init__.py): the field constraints of
 * `UserRegisterRequest`, its password-strength validator, and the `ChartSubscribe`
 * interval bounds. A rejected request gets status 422 with the list of field errors.
 */
module Schemas {
  import opened Wrappers
  import opened Config
  import Primitives

  /** The kinds of field error pydantic reports. */
  datatype Violation =
    | TooShort(minLength: nat)
    | TooLong(maxLength: nat)
    | PatternMismatch(pattern: string)
    | NotAnEmail
    | Below(ge: int)
    | Above(le: int)
    | ValueError(message: string)

  datatype FieldError = FieldError(field: string, violation: Violation)

  datatype UserRegisterRequest = UserRegisterRequest(
    username: string,
    email: string,
    password: string,
    fullName: Option<string>)

  // ---------------------------------------------------------------- username

  const USERNAME_PATTERN := "^[a-zA-Z0-9_]+$"

  predicate UsernameChar(c: char)
  {
    ('a' <= c <= 'z') || ('A' <= c <= 'Z') || ('0' <= c <= '9') || c == '_'
  }

  /** `username`: min_length, then max_length, then the pattern, the first failure reported. */
  function UsernameViolation(u: string): (v: Option<Violation>)
    ensures v.None? <==>
      USERNAME_MIN_LENGTH <= |u| <= USERNAME_MAX_LENGTH && forall i :: 0 <= i < |u| ==> UsernameChar(u[i])
    ensures v == Some(TooShort(USERNAME_MIN_LENGTH)) <==> |u| < USERNAME_MIN_LENGTH
  {
    if |u| < USERNAME_MIN_LENGTH then Some(TooShort(USERNAME_MIN_LENGTH))
    else if |u| > USERNAME_MAX_LENGTH then Some(TooLong(USERNAME_MAX_LENGTH))
    else if exists i :: 0 <= i < |u| && !UsernameChar(u[i]) then Some(PatternMismatch(USERNAME_PATTERN))
    else None
  }

  // ---------------------------------------------------------------- password

  /** The four character classes of the strength rule, in the order they are checked. */
  datatype CharClass = Lowercase | Uppercase | Digit | Special

  const STRENGTH_ORDER: seq<CharClass> := [Lowercase, Uppercase, Digit, Special]

  predicate InClass(c: char, k: CharClass)
  {
    match k
    case Lowercase => 'a' <= c <= 'z'
    case Uppercase => 'A' <= c <= 'Z'
    case Digit => '0' <= c <= '9'
    case Special => c in "@$!%*?&"
  }

  /** `re.search(class, v)` succeeds. */
  predicate Present(v: string, k: CharClass)
  {
    exists i :: 0 <= i < |v| && InClass(v[i], k)
  }

  function MissingMessage(k: CharClass): string
  {
    match k
    case Lowercase => "Password must contain at least one lowercase letter"
    case Uppercase => "Password must contain at least one uppercase letter"
    case Digit => "Password must contain at least one number"
    case Special => "Password must contain at least one special character (@$!%*?&)"
  }

  /** The classes of `order` that `v` lacks, keeping their order. */
  function Missing(v: string, order: seq<CharClass>): (m: seq<CharClass>)
    ensures forall k :: k in m <==> k in order && !Present(v, k)
  {
    if order == [] then []
    else (if Present(v, order[0]) then [] else [order[0]]) + Missing(v, order[1..])
  }

  /** `validate_password_strength`: four checks in a fixed order, each raising ValueError. */
  function ValidatePasswordStrength(v: string): (r: Result<string, string>)
    ensures r.Success? ==> r.value == v
  {
    if !Present(v, Lowercase) then Failure(MissingMessage(Lowercase))
    else if !Present(v, Uppercase) then Failure(MissingMessage(Uppercase))
    else if !Present(v, Digit) then Failure(MissingMessage(Digit))
    else if !Present(v, Special) then Failure(MissingMessage(Special))
    else Success(v)
  }

  /** The validator accepts exactly the passwords that have a character of every class. */
  lemma StrengthAcceptsAllClasses(v: string)
    ensures ValidatePasswordStrength(v).Success? <==> forall k: CharClass :: Present(v, k)
  {
    if ValidatePasswordStrength(v).Success? {
      forall k: CharClass ensures Present(v, k) {
        match k
        case Lowercase =>
        case Uppercase =>
        case Digit =>
        case Special =>
      }
    }
  }

  /** A rejected password is reported for the first missing class in the fixed order. */
  lemma StrengthReportsFirstMissing(v: string)
    ensures ValidatePasswordStrength(v).Failure? <==> Missing(v, STRENGTH_ORDER) != []
    ensures ValidatePasswordStrength(v).Failure? ==>
      ValidatePasswordStrength(v).error == MissingMessage(Missing(v, STRENGTH_ORDER)[0])
  {
    var o := STRENGTH_ORDER;
    assert o[1..] == [Uppercase, Digit, Special];
    assert o[1..][1..] == [Digit, Special];
    assert o[1..][1..][1..] == [Special];
    var m4 := Missing(v, [Special]);
    var none: seq<CharClass> := [];
    assert [Special][1..] == none;
    assert Missing(v, none) == [];
    assert m4 == (if Present(v, Special) then [] else [Special]) + Missing(v, none);
    var m3 := Missing(v, [Digit, Special]);
    assert m3 == (if Present(v, Digit) then [] else [Digit]) + m4;
    var m2 := Missing(v, [Uppercase, Digit, Special]);
    assert m2 == (if Present(v, Uppercase) then [] else [Uppercase]) + m3;
    assert Missing(v, o) == (if Present(v, Lowercase) then [] else [Lowercase]) + m2;
  }

  /** `password`: min_length, then max_length; the strength validator runs only on a length-valid value. */
  function PasswordViolation(p: string): (v: Option<Violation>)
    ensures v.None? <==>
      PASSWORD_MIN_LENGTH <= |p| <= PASSWORD_MAX_LENGTH && ValidatePasswordStrength(p).Success?
  {
    if |p| < PASSWORD_MIN_LENGTH then Some(TooShort(PASSWORD_MIN_LENGTH))
    else if |p| > PASSWORD_MAX_LENGTH then Some(TooLong(PASSWORD_MAX_LENGTH))
    else match ValidatePasswordStrength(p)
      case Failure(m) => Some(ValueError(m))
      case Success(_) => None
  }

  // ---------------------------------------------------------------- full name and the request

  const FULL_NAME_MAX_LENGTH: nat := 100

  function FullNameViolation(n: Option<string>): (v: Option<Violation>)
    ensures v.None? <==> n.None? || |n.value| <= FULL_NAME_MAX_LENGTH
  {
    if n.Some? && |n.value| > FULL_NAME_MAX_LENGTH then Some(TooLong(FULL_NAME_MAX_LENGTH)) else None
  }

  function ErrorFor(field: string, v: Option<Violation>): (r: seq<FieldError>)
    ensures |r| <= 1 && forall e :: e in r ==> e.field == field
  {
    if v.Some? then [FieldError(field, v.value)] else []
  }

  /** Every field is checked; errors are listed in declaration order, at most one per field. */
  function RegisterErrors(lib: Primitives.Lib, req: UserRegisterRequest): seq<FieldError>
  {
    ErrorFor("username", UsernameViolation(req.username))
    + ErrorFor("email", if lib.normalizeEmail(req.email).Some? then None else Some(NotAnEmail))
    + ErrorFor("password", PasswordViolation(req.password))
    + ErrorFor("full_name", FullNameViolation(req.fullName))
  }

  /**
   * Parsing a `UserRegisterRequest`: when every field is valid, the request with its email
   * replaced by the address `EmailStr` normalized it to; otherwise the errors.
   */
  function ValidateRegisterRequest(lib: Primitives.Lib, req: UserRegisterRequest)
    : (r: Result<UserRegisterRequest, seq<FieldError>>)
    ensures r.Success? ==>
      && lib.normalizeEmail(req.email).Some?
      && r.value == req.(email := lib.normalizeEmail(req.email).value)
    ensures r.Failure? ==> r.error != [] && |r.error| <= 4
    ensures r.Success? <==>
      && USERNAME_MIN_LENGTH <= |req.username| <= USERNAME_MAX_LENGTH
      && (forall i :: 0 <= i < |req.username| ==> UsernameChar(req.username[i]))
      && lib.normalizeEmail(req.email).Some?
      && PASSWORD_MIN_LENGTH <= |req.password| <= PASSWORD_MAX_LENGTH
      && (forall k: CharClass :: Present(req.password, k))
      && (req.fullName.None? || |req.fullName.value| <= FULL_NAME_MAX_LENGTH)
  {
    StrengthAcceptsAllClasses(req.password);
    var errors := RegisterErrors(lib, req);
    if errors == [] then Success(req.(email := lib.normalizeEmail(req.email).value)) else Failure(errors)
  }

  /** Errors name the fields in declaration order and never the same field twice. */
  lemma RegisterErrorsOrdered(lib: Primitives.Lib, req: UserRegisterRequest)
    ensures forall i, j :: 0 <= i < j < |RegisterErrors(lib, req)| ==>
      FieldRank(RegisterErrors(lib, req)[i].field) < FieldRank(RegisterErrors(lib, req)[j].field)
  {
    var e1 := ErrorFor("username", UsernameViolation(req.username));
    var e2 := ErrorFor("email", if lib.normalizeEmail(req.email).Some? then None else Some(NotAnEmail));
    var e3 := ErrorFor("password", PasswordViolation(req.password));
    var e4 := ErrorFor("full_name", FullNameViolation(req.fullName));
    assert FieldRank("username") == 0 && FieldRank("email") == 1;
    assert FieldRank("password") == 2 && FieldRank("full_name") == 3;
    RanksIncreaseConcat(e1, e2);
    RanksIncreaseConcat(e1 + e2, e3);
    RanksIncreaseConcat(e1 + e2 + e3, e4);
    assert RegisterErrors(lib, req) == e1 + e2 + e3 + e4;
  }

  predicate RanksIncrease(errs: seq<FieldError>)
  {
    forall i, j :: 0 <= i < j < |errs| ==> FieldRank(errs[i].field) < FieldRank(errs[j].field)
  }

  /** Two increasing runs, the first wholly below the second, make an increasing run. */
  lemma RanksIncreaseConcat(a: seq<FieldError>, b: seq<FieldError>)
    requires RanksIncrease(a) && RanksIncrease(b)
    requires forall x, y :: x in a && y in b ==> FieldRank(x.field) < FieldRank(y.field)
    ensures RanksIncrease(a + b)
  {
    var c := a + b;
    forall i, j | 0 <= i < j < |c| ensures FieldRank(c[i].field) < FieldRank(c[j].field) {
      if j < |a| {
        assert c[i] == a[i] && c[j] == a[j];
      } else if i >= |a| {
        assert c[i] == b[i - |a|] && c[j] == b[j - |a|];
      } else {
        assert c[i] in a && c[j] in b;
      }
    }
  }

  function FieldRank(field: string): nat
  {
    if field == "username" then 0
    else if field == "email" then 1
    else if field == "password" then 2
    else 3
  }

  // ---------------------------------------------------------------- ChartSubscribe

  const DEFAULT_INTERVAL_MS: int := 2000
  const MIN_INTERVAL_MS: int := 500
  const MAX_INTERVAL_MS: int := 60000

  /** The `interval_ms` field as it arrives: left out, sent as null, or an integer. */
  datatype IntervalField = Omitted | Null | Given(ms: int)

  /** `interval_ms: Optional[int] = Field(default=2000, ge=500, le=60000)`. */
  function ChartSubscribeInterval(f: IntervalField): (r: Result<Option<int>, Violation>)
    ensures f.Omitted? ==> r == Success(Some(DEFAULT_INTERVAL_MS))
    ensures f.Null? ==> r == Success(None)
    ensures f.Given? ==> (r.Success? <==> MIN_INTERVAL_MS <= f.ms <= MAX_INTERVAL_MS)
    ensures f.Given? && r.Success? ==> r.value == Some(f.ms)
    ensures r.Success? && r.value.Some? ==> MIN_INTERVAL_MS <= r.value.value <= MAX_INTERVAL_MS
  {
    match f
    case Omitted => Success(Some(DEFAULT_INTERVAL_MS))
    case Null => Success(None)
    case Given(ms) =>
      if ms < MIN_INTERVAL_MS then Failure(Below(MIN_INTERVAL_MS))
      else if ms > MAX_INTERVAL_MS then Failure(Above(MAX_INTERVAL_MS))
      else Success(Some(ms))
  }
}
