/**
 * The chat WebSocket (src/be/routers/chat.py): authenticating the `token` query
 * parameter, reading each inbound frame, echoing the user's message, and the
 * word-by-word "typing" stream of the assistant's reply.
 */
module Chat {
  import opened Wrappers
  import opened Models
  import opened Primitives
  import opened Tables
  import opened Security
  import opened PyStr

  // ---------------------------------------------------------------- authentication

  /**
   * `authenticate_websocket_and_get_user`: any failure, including a `sub` that `int()`
   * rejects, yields None, never an error.
   */
  function AuthenticateWebsocket(lib: Lib, users: seq<User>, token: Option<string>): (r: Option<User>)
    ensures r.Some? ==> r.value in users && r.value.isActive
    ensures token.None? || token == Some("") ==> r.None?
  {
    if token.None? || token.value == "" then None
    else match VerifyToken(lib, token.value, "access")
      case None => None
      case Some(payload) =>
        if payload.sub.None? || payload.sub.value == "" then None
        else match lib.intOf(payload.sub.value)
          case None => None
          case Some(id) =>
            var k := if id >= 0 then UserIndexById(users, id) else None;
            if k.None? || !users[k.value].isActive then None else Some(users[k.value])
  }

  /**
   * The WebSocket accepts exactly the users the HTTP dependency accepts, except that an
   * empty `sub` is turned away (the HTTP path hands it to `int()`).
   */
  lemma WebsocketAgreesWithHttp(lib: Lib, users: seq<User>, token: string, u: User)
    requires token != ""
    ensures AuthenticateWebsocket(lib, users, Some(token)) == Some(u) <==>
      && GetCurrentActiveUser(lib, users, token) == Success(u)
      && lib.decode(token).value.sub != Some("")
  {
  }

  // ---------------------------------------------------------------- inbound frames

  /** What `json.loads` can return; None stands for a `JSONDecodeError`. */
  datatype Json = JNull | JBool(b: bool) | JNumber | JString(s: string) | JArray(items: seq<Json>) | JObject(members: map<string, Json>)

  /** How the receive loop reacts to one frame: an error reply, a chat turn, or an exception that ends the loop. */
  datatype Reaction = Reply(error: string) | Turn(text: string) | Abort

  /**
   * The checks on one received frame. `"message" in data` is a key test on an object,
   * a substring test on a string and an element test on an array; it raises on the other
   * JSON values, as do indexing a string or array with "message" and `.strip()` on a
   * non-string, and the exception ends the connection.
   */
  function ReadMessage(data: Option<Json>): (r: Reaction)
    ensures r.Turn? ==> r.text != "" && !IsSpace(r.text[0]) && !IsSpace(r.text[|r.text| - 1])
    ensures r == Reply("Message cannot be empty") <==>
      data.Some? && data.value.JObject? && "message" in data.value.members
      && data.value.members["message"].JString?
      && forall i :: 0 <= i < |data.value.members["message"].s| ==> IsSpace(data.value.members["message"].s[i])
    ensures r == Reply("Invalid JSON message") <==> data.None?
    ensures r == Reply("Message field is required") <==>
      || (data.Some? && data.value.JObject? && "message" !in data.value.members)
      || (data.Some? && data.value.JString? && !Contains(data.value.s, "message"))
      || (data.Some? && data.value.JArray? && JString("message") !in data.value.items)
  {
    match data
    case None => Reply("Invalid JSON message")
    case Some(JObject(members)) =>
      if "message" !in members then Reply("Message field is required")
      else if !members["message"].JString? then Abort
      else
        var text := Strip(members["message"].s);
        StripEmptyIffBlank(members["message"].s);
        StripTrimsBothEnds(members["message"].s);
        if text == "" then Reply("Message cannot be empty") else Turn(text)
    case Some(JString(s)) => if !Contains(s, "message") then Reply("Message field is required") else Abort
    case Some(JArray(items)) => if JString("message") !in items then Reply("Message field is required") else Abort
    case Some(_) => Abort
  }

  /** An object whose `message` is a string with some non-whitespace is a chat turn on its stripped text. */
  lemma ReadMessageTurn(members: map<string, Json>)
    requires "message" in members && members["message"].JString?
    requires exists i :: 0 <= i < |members["message"].s| && !IsSpace(members["message"].s[i])
    ensures ReadMessage(Some(JObject(members))) == Turn(Strip(members["message"].s))
  {
    StripEmptyIffBlank(members["message"].s);
  }

  // ---------------------------------------------------------------- outbound frames

  datatype ChatMessageOut = ChatMessageOut(message: string, sender: string, isComplete: bool)

  datatype Outbound = ErrorReply(error: string) | Message(out: ChatMessageOut)

  /** `user.full_name or user.username`. */
  function DisplayName(user: User): (name: string)
    ensures user.fullName.Some? && user.fullName.value != "" ==> name == user.fullName.value
    ensures !(user.fullName.Some? && user.fullName.value != "") ==> name == user.username
  {
    if user.fullName.Some? && user.fullName.value != "" then user.fullName.value else user.username
  }

  /** `generate_lorem_response`; the lorem text is the random part, passed in. */
  function AiResponse(displayName: string, userMessage: string, lorem: string): string
  {
    "Excellent question " + displayName + ", " + userMessage + ", " + lorem
  }

  /** Frame `k` of the typing stream: the first `k + 1` words, a trailing space on all but the last. */
  function Frame(words: seq<string>, k: nat): ChatMessageOut
    requires k < |words|
  {
    ChatMessageOut(Join(words[..k + 1]) + (if k < |words| - 1 then " " else ""), "assistant", k == |words| - 1)
  }

  function TypingFrames(words: seq<string>): (r: seq<ChatMessageOut>)
    ensures |r| == |words|
    ensures forall k :: 0 <= k < |words| ==> r[k] == Frame(words, k)
  {
    seq(|words|, k requires 0 <= k < |words| => Frame(words, k))
  }

  /** Each frame extends the previous one by exactly the next word. */
  lemma FramesGrow(words: seq<string>, k: nat)
    requires k + 1 < |words|
    ensures Frame(words, k + 1).message ==
      Frame(words, k).message + words[k + 1] + (if k + 1 < |words| - 1 then " " else "")
    ensures Frame(words, k).message <= Frame(words, k + 1).message
  {
    assert words[..k + 2][..k + 1] == words[..k + 1];
  }

  /** Frame `k` of a split reply shows exactly its first `k + 1` words; only the last frame is complete. */
  lemma FrameShowsPrefix(s: string, k: nat)
    requires k < |Split(s)|
    ensures Split(Frame(Split(s), k).message) == Split(s)[..k + 1]
    ensures Frame(Split(s), k).isComplete <==> k == |Split(s)| - 1
  {
    var words := Split(s);
    SplitYieldsWords(s);
    SplitJoin(words[..k + 1]);
    SplitAppendSpace(Join(words[..k + 1]), if k < |words| - 1 then " " else "");
  }

  /** The last frame is the whole reply with its whitespace runs collapsed to single spaces. */
  lemma LastFrameIsWholeReply(s: string)
    requires Split(s) != []
    ensures var last := Frame(Split(s), |Split(s)| - 1);
      && last.isComplete
      && last.message == Join(Split(s))
      && Collapsed(last.message)
      && Split(last.message) == Split(s)
  {
    var words := Split(s);
    assert words[..|words|] == words;
    SplitYieldsWords(s);
    JoinIsCollapsed(words);
    SplitJoinSplit(s);
  }

  /** The generated reply is never blank, so the stream always has a last, complete frame. */
  lemma AiResponseStreams(displayName: string, userMessage: string, lorem: string)
    ensures Split(AiResponse(displayName, userMessage, lorem)) != []
  {
    var s := AiResponse(displayName, userMessage, lorem);
    assert s[0] == 'E' && !IsSpace(s[0]);
  }

  /** `send_typing_response`: accumulates the message word by word and sends one frame per word. */
  method SendTypingResponse(fullResponse: string) returns (frames: seq<ChatMessageOut>)
    ensures frames == TypingFrames(Split(fullResponse))
  {
    var words := Split(fullResponse);
    var current := "";
    frames := [];
    var i := 0;
    while i < |words|
      invariant 0 <= i <= |words|
      invariant |frames| == i
      invariant forall k :: 0 <= k < i ==> frames[k] == Frame(words, k)
      invariant i == 0 ==> current == ""
      invariant 0 < i ==> current == frames[i - 1].message
    {
      if i > 0 {
        assert words[..i + 1][..i] == words[..i];
      }
      current := current + words[i];
      if i < |words| - 1 {
        current := current + " ";
      }
      frames := frames + [ChatMessageOut(current, "assistant", i == |words| - 1)];
      i := i + 1;
    }
  }

  function AsMessages(frames: seq<ChatMessageOut>): (r: seq<Outbound>)
    ensures |r| == |frames|
    ensures forall k :: 0 <= k < |frames| ==> r[k] == Message(frames[k])
  {
    seq(|frames|, k requires 0 <= k < |frames| => Message(frames[k]))
  }

  /**
   * Everything sent for the frames `inbox[i..]`, stopping at the first frame that raises.
   * `lorem(n)` is the random text generated for the `n`-th frame.
   */
  function Replies(user: User, inbox: seq<Option<Json>>, lorem: nat -> string, i: nat): seq<Outbound>
    requires i <= |inbox|
    decreases |inbox| - i
  {
    if i == |inbox| then []
    else match ReadMessage(inbox[i])
      case Abort => []
      case Reply(e) => [ErrorReply(e)] + Replies(user, inbox, lorem, i + 1)
      case Turn(text) =>
        [Message(ChatMessageOut(text, "user", true))]
        + AsMessages(TypingFrames(Split(AiResponse(DisplayName(user), text, lorem(i)))))
        + Replies(user, inbox, lorem, i + 1)
  }

  /** What one inbound frame contributes: Replies of `i` is its own output followed by Replies of `i + 1`. */
  lemma RepliesStep(user: User, inbox: seq<Option<Json>>, lorem: nat -> string, i: nat)
    requires i < |inbox|
    ensures ReadMessage(inbox[i]).Abort? ==> Replies(user, inbox, lorem, i) == []
    ensures ReadMessage(inbox[i]).Reply? ==>
      Replies(user, inbox, lorem, i) == [ErrorReply(ReadMessage(inbox[i]).error)] + Replies(user, inbox, lorem, i + 1)
    ensures ReadMessage(inbox[i]).Turn? ==>
      var text := ReadMessage(inbox[i]).text;
      Replies(user, inbox, lorem, i) ==
        ([Message(ChatMessageOut(text, "user", true))]
         + AsMessages(TypingFrames(Split(AiResponse(DisplayName(user), text, lorem(i))))))
        + Replies(user, inbox, lorem, i + 1)
  {
  }

  /** A chat turn's stream ends with a complete assistant frame holding the collapsed reply. */
  lemma TurnEndsComplete(user: User, text: string, lorem: string)
    ensures var frames := TypingFrames(Split(AiResponse(DisplayName(user), text, lorem)));
      && frames != []
      && frames[|frames| - 1].isComplete
      && frames[|frames| - 1].sender == "assistant"
      && frames[|frames| - 1].message == Join(Split(AiResponse(DisplayName(user), text, lorem)))
  {
    var s := AiResponse(DisplayName(user), text, lorem);
    AiResponseStreams(DisplayName(user), text, lorem);
    LastFrameIsWholeReply(s);
  }

  // ---------------------------------------------------------------- the endpoint

  /** Close code `WS_1008_POLICY_VIOLATION`. */
  const POLICY_VIOLATION: int := 1008

  /**
   * The receive loop of `websocket_chat_endpoint` for an authenticated user: each frame of
   * `inbox` gets its reply, and the first frame that raises ends the loop.
   */
  method ReceiveLoop(u: User, inbox: seq<Option<Json>>, lorem: nat -> string) returns (sent: seq<Outbound>)
    ensures sent == Replies(u, inbox, lorem, 0)
  {
    sent := [];
    var i := 0;
    var running := true;
    while running && i < |inbox|
      invariant 0 <= i <= |inbox|
      invariant running ==> sent + Replies(u, inbox, lorem, i) == Replies(u, inbox, lorem, 0)
      invariant !running ==> sent == Replies(u, inbox, lorem, 0)
      decreases |inbox| - i, running
    {
      var reaction := ReadMessage(inbox[i]);
      RepliesStep(u, inbox, lorem, i);
      match reaction {
        case Abort =>
          running := false;
        case Reply(e) =>
          var out := [ErrorReply(e)];
          assert sent + out + Replies(u, inbox, lorem, i + 1) == sent + Replies(u, inbox, lorem, i);
          sent := sent + out;
          i := i + 1;
        case Turn(text) =>
          var frames := SendTypingResponse(AiResponse(DisplayName(u), text, lorem(i)));
          var out := [Message(ChatMessageOut(text, "user", true))] + AsMessages(frames);
          assert sent + out + Replies(u, inbox, lorem, i + 1) == sent + Replies(u, inbox, lorem, i);
          sent := sent + out;
          i := i + 1;
      }
    }
  }

  /** The module-level `chat_connections` set; connections are identified by number. */
  class ChatServer {
    var connections: set<nat>

    constructor ()
      ensures connections == {}
    {
      connections := {};
    }

    /**
     * `websocket_chat_endpoint` for one connection that receives `inbox` and then
     * disconnects: an unauthenticated connection is closed with 1008 and never
     * registered; otherwise it is registered while the loop runs and discarded at the end.
     */
    method ChatEndpoint(lib: Lib, users: seq<User>, conn: nat, token: Option<string>,
                        inbox: seq<Option<Json>>, lorem: nat -> string)
      returns (sent: seq<Outbound>, closeCode: Option<int>)
      modifies this
      ensures AuthenticateWebsocket(lib, users, token).None? ==>
        sent == [] && closeCode == Some(POLICY_VIOLATION) && connections == old(connections)
      ensures AuthenticateWebsocket(lib, users, token).Some? ==>
        && sent == Replies(AuthenticateWebsocket(lib, users, token).value, inbox, lorem, 0)
        && closeCode == None
        && connections == old(connections) - {conn}
    {
      var user := AuthenticateWebsocket(lib, users, token);
      if user.None? {
        return [], Some(POLICY_VIOLATION);
      }
      var u := user.value;
      connections := connections + {conn};
      sent := ReceiveLoop(u, inbox, lorem);
      connections := connections - {conn};
      closeCode := None;
    }
  }
}
