/** Rows of the three tables (src/be/models). Times are whole seconds since the epoch, UTC. */
module Models {
  import opened Wrappers

  datatype User = User(
    id: nat,
    username: string,
    email: string,
    passwordHash: string,
    fullName: Option<string>,
    createdAt: int,
    isActive: bool)

  datatype RefreshToken = RefreshToken(
    id: nat,
    userId: nat,
    tokenHash: string,
    expiresAt: int,
    createdAt: int,
    isRevoked: bool)

  /** `profit` is a float in the source; the model only carries it. */
  datatype Profit = Profit(
    id: nat,
    company: string,
    year: int,
    month: int,
    profit: real)

  /** The declared column constraint `month: Field(ge=1, le=12)`. */
  predicate ValidMonth(p: Profit)
  {
    1 <= p.month <= 12
  }
}
