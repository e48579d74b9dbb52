/** The login dialogue of one client and one server as a two-party step system over
    two byte channels (client.c handle_authen_event, encryption.c
    handle_authentication, sendMessage.c UserAuthen, clientHandle.c
    handle_authen_event).  A step moves any number of bytes that the kernel could
    move, so a run is one fragmentation of one interleaving.  An interrupted call is
    retried and so is no step; the client's receives are taken not to be interrupted
    (SocketIO.ClientRecvN says what happens if they are).  A server that closes leaves the
    client to compare the uninitialised `train` of its reply and to go on from there. */
module LoginProtocol {
  import opened CTypes
  import opened SocketIO
  import opened Frames
  import opened Authen

  type Hash = t: Text | |t| < HASH_SIZE witness []

  /** What the two programs are run with: `crypt` (None when it fails) and the
      server's password table. */
  datatype Env = Env(crypt: Text -> Option<Hash>, shadow: map<Text, Text>)

  // ---------- keyboard input ----------

  /** The field that `fgets` into `size` bytes and the cut at the newline leave. */
  function Typed(input: Bytes, size: nat): (t: Text)
    requires size > 0
    ensures |t| < size
  {
    var line := CStr(input[..FGetsCount(input, size - 1)]);
    line[..Find(line, '\n')]
  }

  function AfterTyped(input: Bytes, size: nat): Bytes
    requires size > 0
  {
    input[FGetsCount(input, size - 1)..]
  }

  /** A typed line that fits the buffer is the field, and the next line is read next; a
      longer one is cut, and its remainder is what the next field reads. */
  lemma TypedLine(t: Text, rest: Bytes, size: nat)
    requires size > 0 && '\n' !in t
    ensures Typed(t + "\n" + rest, size) == if |t| < size then t else t[..size - 1]
    ensures AfterTyped(t + "\n" + rest, size)
         == if |t| < size - 1 then rest else t[size - 1..] + "\n" + rest
  {
    var input := t + "\n" + rest;
    FGetsOfLine(t, rest, size - 1);
    if |t| < size - 1 {
      assert input[..|t| + 1] == t + "\n";
      LineText(t, "\n");
    } else {
      assert input[..size - 1] == t[..size - 1] + [];
      LineText(t[..size - 1], []);
    }
  }

  lemma LineText(t: Text, end: Bytes)
    requires '\n' !in t && (end == [] || end == "\n")
    ensures var line := CStr(t + end); line[..Find(line, '\n')] == t
  {
    assert '\0' !in t + end;
    CStrOfText(t + end);
    var n := Find(t + end, '\n');
    assert forall i | 0 <= i < |t| :: t[i] in t && (t + end)[i] == t[i];
  }

  // ---------- states ----------

  datatype Client =
    | Prompting
    | SendingUser(rest: Bytes)
    | SendingHash(rest: Bytes)
    | ReadingLength(got: Bytes)
    | ReadingBody(len: Bytes, got: Bytes)
    | Connected
    | ClientClosed
    | ClientGarbled     // a length beyond its buffer: memory is overwritten

  datatype Server =
    | UserLength(got: Bytes)
    | UserBody(len: Bytes, got: Bytes)
    | HashLength(user: Text, got: Bytes)
    | HashBody(user: Text, len: Bytes, got: Bytes)
    | Judging(c: Credentials)
    | Accepted(c: Credentials)
    | ServerClosed

  /** `creds` is the client's latest pair; `attempts` and `judged` are the pairs sent
      and the pairs checked so far. */
  datatype State = State(client: Client, creds: Credentials, input: Bytes, isConnected: bool,
                         server: Server, path: Text,
                         toServer: Bytes, toClient: Bytes,
                         attempts: seq<Credentials>, judged: seq<Credentials>)

  function Start(input: Bytes, path: Text): State {
    State(Prompting, Credentials([], []), input, false, UserLength([]), path, [], [], [], [])
  }

  datatype Step =
    | Prompt | ClientSend(k: nat) | ClientRecv(k: nat) | ClientAdvance
    | ServerRecv(k: nat) | ServerAdvance | Judge
    | SendFails | ClientEof(junk: Bytes)

  function Length(len: Bytes): int { if |len| == 4 then DecodeInt(len) else 0 }

  const RESPONSE_SIZE: nat := 64

  predicate IsTrain(junk: Bytes) { |junk| == 4 + DATA_SIZE }

  /** The reply that the client reads when `stream` is all that comes and `junk` is what
      the uninitialised `train` held; None for a length beyond the response buffer. */
  function ReplyOf(stream: Bytes, junk: Bytes): Option<Text>
    requires IsTrain(junk)
  {
    var n := DecodeInt(Overlaid(junk[..4], stream));
    if 0 <= n < RESPONSE_SIZE then Some(CStr(Overlaid(junk[4..4 + n], Rest(stream, 4)))) else None
  }

  /** How many bytes a receive loop still wants. */
  function ClientWants(c: Client): int {
    match c
    case ReadingLength(got) => 4 - |got|
    case ReadingBody(len, got) => Length(len) - |got|
    case _ => 0
  }

  function ServerWants(s: Server): int {
    match s
    case UserLength(got) => 4 - |got|
    case UserBody(len, got) => Length(len) - |got|
    case HashLength(_, got) => 4 - |got|
    case HashBody(_, len, got) => Length(len) - |got|
    case _ => 0
  }

  predicate ClientReading(c: Client) { c.ReadingLength? || c.ReadingBody? }

  predicate ServerReading(s: Server) { s.UserLength? || s.UserBody? || s.HashLength? || s.HashBody? }

  predicate Enabled(s: State, step: Step) {
    match step
    case Prompt => s.client.Prompting?
    case ClientSend(k) => (s.client.SendingUser? || s.client.SendingHash?) && 1 <= k <= |s.client.rest|
    case ClientRecv(k) => ClientReading(s.client) && 1 <= k <= ClientWants(s.client) && k <= |s.toClient|
    case ClientAdvance => ClientReading(s.client) && ClientWants(s.client) <= 0
    case ServerRecv(k) =>
      !s.client.ClientClosed? && ServerReading(s.server) && 1 <= k <= ServerWants(s.server) && k <= |s.toServer|
    case ServerAdvance => ServerReading(s.server) && ServerWants(s.server) <= 0
    case Judge => s.server.Judging?
    case SendFails => (s.client.SendingUser? || s.client.SendingHash?) && s.server.ServerClosed?
    case ClientEof(junk) =>
      ClientReading(s.client) && ClientWants(s.client) > 0 && s.toClient == [] && s.server.ServerClosed? && IsTrain(junk)
  }

  /** client.c lines 93-122 and handlePassword: read both fields, hash, start sending. */
  function DoPrompt(env: Env, s: State): State
    requires s.client.Prompting?
  {
    if s.input == [] then s.(client := ClientClosed)
    else
      var user, input1 := Typed(s.input, USER_SIZE), AfterTyped(s.input, USER_SIZE);
      if input1 == [] then s.(client := ClientClosed, input := [])
      else
        var password, input2 := Typed(input1, HASH_SIZE), AfterTyped(input1, HASH_SIZE);
        match env.crypt(password)
        case None => s.(input := input2)
        case Some(hash) =>
          s.(client := SendingUser(Frame(user)), creds := Credentials(user, hash), input := input2,
             attempts := s.attempts + [Credentials(user, hash)])
  }

  /** The client compares the reply and either is connected or asks again. */
  function DoDecide(s: State): State
    requires s.client.ReadingBody?
  {
    if CStr(s.client.got) == OK_MESSAGE then s.(client := Connected, isConnected := true)
    else s.(client := Prompting)
  }

  /** The client's receives meet the end of the stream. */
  function DoEof(s: State, junk: Bytes): State
    requires IsTrain(junk)
  {
    match ReplyOf(ReplyRead(s.client), junk)
    case None => s.(client := ClientGarbled)
    case Some(text) =>
      if text == OK_MESSAGE then s.(client := Connected, isConnected := true) else s.(client := Prompting)
  }

  /** UserAuthen from the check on, and what handle_authen_event does with its result. */
  function DoJudge(env: Env, s: State): State
    requires s.server.Judging?
  {
    var c := s.server.c;
    var s1 := s.(judged := s.judged + [c]);
    if AuthenticateUser(env.shadow, c) != AUTH_RESULT_OK then
      s1.(server := UserLength([]), toClient := s.toClient + Frame(FAIL_MESSAGE))
    else if !HasRoom(s.path, c.user) then
      s1.(server := ServerClosed)
    else
      s1.(server := Accepted(c), path := Join(s.path, c.user), toClient := s.toClient + Frame(OK_MESSAGE))
  }

  function Takes(s: Server, data: Bytes): Server
    requires ServerReading(s)
  {
    s.(got := s.got + data)
  }

  /** UserAuthen from one receive to the next, when the buffer is full. */
  function Next(s: Server): Server
    requires ServerReading(s)
  {
    match s
    case UserLength(got) => UserBody(got, [])
    case UserBody(_, got) => HashLength(CStr(got), [])
    case HashLength(user, got) => HashBody(user, got, [])
    case HashBody(user, _, got) => Judging(Credentials(user, CStr(got)))
  }

  function Apply(env: Env, s: State, step: Step): State
    requires Enabled(s, step)
  {
    match step
    case Prompt => DoPrompt(env, s)
    case ClientSend(k) =>
      var moved, rest := s.client.rest[..k], s.client.rest[k..];
      var next := if rest != [] then (if s.client.SendingUser? then SendingUser(rest) else SendingHash(rest))
                  else if s.client.SendingUser? then SendingHash(EncodeFrame(s.creds.hash))
                  else ReadingLength([]);
      s.(client := next, toServer := if s.server.ServerClosed? then s.toServer else s.toServer + moved)
    case ClientRecv(k) =>
      s.(client := s.client.(got := s.client.got + s.toClient[..k]), toClient := s.toClient[k..])
    case ClientAdvance =>
      if s.client.ReadingLength? then s.(client := ReadingBody(s.client.got, [])) else DoDecide(s)
    case ServerRecv(k) =>
      s.(server := Takes(s.server, s.toServer[..k]), toServer := s.toServer[k..])
    case ServerAdvance => s.(server := Next(s.server))
    case Judge => DoJudge(env, s)
    case SendFails => s.(client := Prompting)
    case ClientEof(junk) => DoEof(s, junk)
  }

  predicate IsRun(env: Env, s: State, steps: seq<Step>)
    decreases |steps|
  {
    steps == [] || (Enabled(s, steps[0]) && IsRun(env, Apply(env, s, steps[0]), steps[1..]))
  }

  function After(env: Env, s: State, steps: seq<Step>): State
    requires IsRun(env, s, steps)
    decreases |steps|
  {
    if steps == [] then s else After(env, Apply(env, s, steps[0]), steps[1..])
  }

  // ---------- the invariant ----------

  function Unsent(s: State): Bytes
    requires Fits(s.creds)
  {
    match s.client
    case SendingUser(rest) => rest + Frame(s.creds.hash)
    case SendingHash(rest) => rest
    case _ => []
  }

  /** What the server has taken from the channel in this round. */
  function Consumed(s: Server): Bytes {
    match s
    case UserLength(got) => got
    case UserBody(len, got) => len + got
    case HashLength(user, got) => EncodeFrame(user) + got
    case HashBody(user, len, got) => EncodeFrame(user) + len + got
    case Judging(c) => EncodeFrame(c.user) + EncodeFrame(c.hash)
    case _ => []
  }

  function EncodeFrame(t: Text): Bytes { if |t| <= DATA_SIZE then Frame(t) else [] }

  /** The server's position agrees with the pair under way. */
  predicate Follows(s: Server, c: Credentials)
    requires Fits(c)
  {
    match s
    case UserLength(got) => |got| <= 4
    case UserBody(len, got) => len == EncodeInt(|c.user|) && |got| <= |c.user|
    case HashLength(user, got) => user == c.user && |got| <= 4
    case HashBody(user, len, got) => user == c.user && len == EncodeInt(|c.hash|) && |got| <= |c.hash|
    case Judging(j) => j == c
    case _ => false
  }

  /** A request is on its way: consumed, in the channel and unsent make up the pair. */
  predicate InFlight(s: State) {
    && Fits(s.creds) && Follows(s.server, s.creds)
    && s.toClient == []
    && Consumed(s.server) + s.toServer + Unsent(s) == Encode(s.creds)
    && s.attempts == s.judged + [s.creds]
  }

  function ReplyRead(c: Client): Bytes {
    match c
    case ReadingLength(got) => got
    case ReadingBody(len, got) => len + got
    case _ => []
  }

  /** A reply is on its way, and the server has gone on. */
  predicate Replied(s: State, message: Text)
    requires |message| <= DATA_SIZE
  {
    && ClientReading(s.client)
    && (s.client.ReadingLength? ==> |s.client.got| <= 4)
    && (s.client.ReadingBody? ==> s.client.len == EncodeInt(|message|) && |s.client.got| <= |message|)
    && s.toServer == []
    && ReplyRead(s.client) + s.toClient == Frame(message)
    && s.attempts == s.judged
  }

  predicate Good(env: Env, c: Credentials) { AuthenticateUser(env.shadow, c) == AUTH_RESULT_OK }

  predicate AllRejected(env: Env, judged: seq<Credentials>) {
    forall i | 0 <= i < |judged| :: !Good(env, judged[i])
  }

  /** The pair checked last was accepted, and no pair before it. */
  predicate LastAccepted(env: Env, judged: seq<Credentials>, creds: Credentials) {
    && judged != [] && judged[|judged| - 1] == creds && Good(env, creds)
    && AllRejected(env, judged[..|judged| - 1])
  }

  /** The server has closed on a right pair for want of room; what the client still
      sends is lost. */
  predicate Closed(env: Env, s: State) {
    && s.server.ServerClosed? && s.toServer == [] && s.toClient == []
    && s.judged != [] && LastAccepted(env, s.judged, s.judged[|s.judged| - 1])
    && !HasRoom(s.path, s.judged[|s.judged| - 1].user)
    && s.judged <= s.attempts && Fits(s.creds)
    && (s.attempts == s.judged ==> s.creds == s.judged[|s.judged| - 1])
    && (match s.client
        case SendingUser(rest) => rest != [] && s.attempts != s.judged
        case SendingHash(rest) => rest != [] && s.attempts != s.judged
        case ReadingLength(got) => got == []
        case ReadingBody(_, _) => false
        case _ => true)
  }

  /** The server is still there. */
  predicate Open(env: Env, s: State) {
    match s.client
    case Prompting =>
      && s.toServer == [] && s.toClient == [] && s.server == UserLength([])
      && s.attempts == s.judged && AllRejected(env, s.judged)
    case SendingUser(rest) => InFlight(s) && rest != [] && AllRejected(env, s.judged)
    case SendingHash(rest) => InFlight(s) && rest != [] && AllRejected(env, s.judged)
    case Connected =>
      && s.toServer == [] && s.toClient == [] && s.server == Accepted(s.creds)
      && s.attempts == s.judged && LastAccepted(env, s.judged, s.creds)
    case ClientClosed =>
      && s.toServer == [] && s.toClient == [] && s.server == UserLength([])
      && s.attempts == s.judged && AllRejected(env, s.judged)
    case ClientGarbled => false
    case _ =>
      || (InFlight(s) && s.client == ReadingLength([]) && AllRejected(env, s.judged))
      || (Replied(s, FAIL_MESSAGE) && s.server == UserLength([]) && AllRejected(env, s.judged))
      || (Replied(s, OK_MESSAGE) && s.server == Accepted(s.creds) && LastAccepted(env, s.judged, s.creds))
  }

  predicate Inv(env: Env, s: State) {
    && s.isConnected == s.client.Connected?
    && if s.server.ServerClosed? then Closed(env, s) else Open(env, s)
  }

  // ---------- every step keeps the invariant ----------

  lemma PromptStep(env: Env, s: State)
    requires Inv(env, s) && !s.server.ServerClosed? && Enabled(s, Prompt)
    ensures Inv(env, Apply(env, s, Prompt))
  {
    var s' := Apply(env, s, Prompt);
    if s'.client.SendingUser? {
      assert Consumed(s'.server) + s'.toServer + Unsent(s') == Encode(s'.creds);
    }
  }

  lemma Reassociate(a: Bytes, b: Bytes, m: Bytes, u: Bytes)
    ensures a + b + (m + u) == a + (b + m) + u
  {
  }

  lemma UnsentShrinks(env: Env, s: State, k: nat)
    requires Fits(s.creds) && Enabled(s, ClientSend(k))
    ensures Unsent(s) == s.client.rest[..k] + Unsent(Apply(env, s, ClientSend(k)))
  {
    SplitAt(s.client.rest, k, EncodeFrame(s.creds.hash));
  }

  lemma SplitAt(rest: Bytes, k: nat, after: Bytes)
    requires k <= |rest|
    ensures rest == rest[..k] + rest[k..] && rest + after == rest[..k] + (rest[k..] + after)
    ensures rest[k..] == [] ==> rest[..k] == rest && rest[k..] + after == after && rest[..k] + [] == rest
  {
  }

  lemma SendKeepsInFlight(env: Env, s: State, k: nat)
    requires InFlight(s) && !s.server.ServerClosed? && Enabled(s, ClientSend(k))
    ensures InFlight(Apply(env, s, ClientSend(k)))
  {
    UnsentShrinks(env, s, k);
    Reassociate(Consumed(s.server), s.toServer, s.client.rest[..k], Unsent(Apply(env, s, ClientSend(k))));
  }

  lemma ClientSendStep(env: Env, s: State, k: nat)
    requires Inv(env, s) && !s.server.ServerClosed? && Enabled(s, ClientSend(k))
    ensures Inv(env, Apply(env, s, ClientSend(k)))
  {
    SendKeepsInFlight(env, s, k);
  }

  lemma RecvKeepsReplied(env: Env, s: State, k: nat, message: Text)
    requires |message| <= DATA_SIZE && Replied(s, message) && Enabled(s, ClientRecv(k))
    ensures Replied(Apply(env, s, ClientRecv(k)), message)
  {
    hide EncodeInt, DecodeInt;
    var s' := Apply(env, s, ClientRecv(k));
    assert s.toClient == s.toClient[..k] + s.toClient[k..];
    assert ReplyRead(s'.client) == ReplyRead(s.client) + s.toClient[..k];
    assert ReplyRead(s'.client) + s'.toClient == ReplyRead(s.client) + s.toClient;
    IntRoundTrip(|message|, EncodeInt(|message|));
  }

  lemma ClientRecvStep(env: Env, s: State, k: nat)
    requires Inv(env, s) && !s.server.ServerClosed? && Enabled(s, ClientRecv(k))
    ensures Inv(env, Apply(env, s, ClientRecv(k)))
  {
    hide Replied, Follows, AllRejected, LastAccepted, Consumed, Unsent;
    RecvKeepsReplied(env, s, k, if s.server.Accepted? then OK_MESSAGE else FAIL_MESSAGE);
  }

  /** A reply whose buffer is full is exactly the length, or the whole message. */
  lemma ReplyLengthDone(env: Env, s: State, message: Text)
    requires |message| <= DATA_SIZE && Replied(s, message) && s.client.ReadingLength?
    requires Enabled(s, ClientAdvance)
    ensures Replied(Apply(env, s, ClientAdvance), message)
  {
    assert Frame(message) + [] == Frame(message);
    LengthDone(s.client.got, s.toClient, message, []);
    assert s.client.got + [] == s.client.got;
  }

  lemma ReplyBodyDone(s: State, message: Text)
    requires |message| <= DATA_SIZE && Replied(s, message) && s.client.ReadingBody?
    requires Enabled(s, ClientAdvance)
    ensures CStr(s.client.got) == message && s.toClient == []
  {
    assert Frame(message) + [] == Frame(message);
    BodyDone(s.client.len, s.client.got, s.toClient, message, []);
  }

  lemma ClientAdvanceStep(env: Env, s: State)
    requires Inv(env, s) && !s.server.ServerClosed? && Enabled(s, ClientAdvance)
    ensures Inv(env, Apply(env, s, ClientAdvance))
  {
    var message := if s.server.Accepted? then OK_MESSAGE else FAIL_MESSAGE;
    if s.client.ReadingLength? {
      ReplyLengthDone(env, s, message);
    } else {
      ReplyBodyDone(s, message);
    }
  }

  lemma ServerRecvStep(env: Env, s: State, k: nat)
    requires Inv(env, s) && !s.server.ServerClosed? && Enabled(s, ServerRecv(k))
    ensures Inv(env, Apply(env, s, ServerRecv(k)))
  {
    RecvKeepsInFlight(env, s, k);
  }

  lemma TakesFollows(s: Server, c: Credentials, data: Bytes)
    requires Fits(c) && Follows(s, c) && ServerReading(s) && |data| <= ServerWants(s)
    ensures Follows(Takes(s, data), c) && Consumed(Takes(s, data)) == Consumed(s) + data
  {
    hide EncodeInt, DecodeInt, Frame, EncodeFrame;
    IntRoundTrip(|c.user|, EncodeInt(|c.user|));
    IntRoundTrip(|c.hash|, EncodeInt(|c.hash|));
    match s
    case UserLength(_) =>
    case UserBody(len, got) => Associative(len, got, data);
    case HashLength(user, got) => Associative(EncodeFrame(user), got, data);
    case HashBody(user, len, got) => Associative(EncodeFrame(user) + len, got, data);
  }

  lemma RecvKeepsInFlight(env: Env, s: State, k: nat)
    requires InFlight(s) && Enabled(s, ServerRecv(k))
    ensures InFlight(Apply(env, s, ServerRecv(k)))
  {
    var s' := Apply(env, s, ServerRecv(k));
    TakesFollows(s.server, s.creds, s.toServer[..k]);
    assert s.toServer == s.toServer[..k] + s.toServer[k..];
    assert Consumed(s'.server) + s'.toServer == Consumed(s.server) + s.toServer;
  }

  lemma StripFront(a: Bytes, x: Bytes, tail: Bytes, y: Bytes)
    requires (a + x) + tail == a + y
    ensures x + tail == y
  {
    assert (a + y)[|a|..] == y;
    assert ((a + x) + tail)[|a|..] == x + tail;
  }

  /** A full length buffer holds the length under way; a full body buffer, the field. */
  lemma LengthDone(got: Bytes, tail: Bytes, field: Text, after: Bytes)
    requires |field| <= DATA_SIZE && |got| == 4
    requires got + tail == Frame(field) + after
    ensures got == EncodeInt(|field|)
  {
    assert got == (got + tail)[..4] == (Frame(field) + after)[..4] == EncodeInt(|field|);
  }

  lemma BodyDone(len: Bytes, got: Bytes, tail: Bytes, field: Text, after: Bytes)
    requires |field| <= DATA_SIZE && len == EncodeInt(|field|)
    requires |got| <= |field| && Length(len) - |got| <= 0
    requires (len + got) + tail == Frame(field) + after
    ensures got == field && CStr(got) == field
  {
    IntRoundTrip(|field|, len);
    assert got == ((len + got) + tail)[4..4 + |got|];
    assert field == (Frame(field) + after)[4..4 + |field|];
    CStrOfText(field);
  }

  /** So the next receive starts where the next field does. */
  lemma NextFollows(s: Server, c: Credentials, tail: Bytes)
    requires Fits(c) && Follows(s, c) && ServerReading(s) && ServerWants(s) <= 0
    requires Consumed(s) + tail == Encode(c)
    ensures Follows(Next(s), c) && Consumed(Next(s)) == Consumed(s)
  {
    hide EncodeInt, DecodeInt, CStr;
    var user, hash := Frame(c.user), Frame(c.hash);
    match s
    case UserLength(got) =>
      LengthDone(got, tail, c.user, hash);
    case UserBody(len, got) =>
      BodyDone(len, got, tail, c.user, hash);
      assert user + [] == user;
    case HashLength(_, got) =>
      StripFront(user, got, tail, hash);
      assert hash + [] == hash;
      LengthDone(got, tail, c.hash, []);
    case HashBody(_, len, got) =>
      assert Consumed(s) == user + (len + got);
      StripFront(user, len + got, tail, hash);
      assert hash + [] == hash;
      BodyDone(len, got, tail, c.hash, []);
  }

  lemma AdvanceKeepsInFlight(env: Env, s: State)
    requires InFlight(s) && Enabled(s, ServerAdvance)
    ensures InFlight(Apply(env, s, ServerAdvance))
  {
    assert Consumed(s.server) + (s.toServer + Unsent(s)) == Encode(s.creds);
    NextFollows(s.server, s.creds, s.toServer + Unsent(s));
  }

  lemma ServerAdvanceStep(env: Env, s: State)
    requires Inv(env, s) && !s.server.ServerClosed? && Enabled(s, ServerAdvance)
    ensures Inv(env, Apply(env, s, ServerAdvance))
  {
    AdvanceKeepsInFlight(env, s);
  }

  /** The server judges the pair just sent, with nothing left on the way. */
  lemma JudgingIsAlone(env: Env, s: State)
    requires Inv(env, s) && s.server.Judging?
    ensures InFlight(s) && s.toServer == [] && s.client == ReadingLength([])
    ensures s.server.c == s.creds && Fits(s.creds) && AllRejected(env, s.judged) && !s.isConnected
    ensures s.attempts == s.judged + [s.creds] && s.attempts[..|s.attempts| - 1] == s.judged
  {
    hide AllRejected, LastAccepted, Typed;
    assert Consumed(s.server) == Encode(s.creds);
  }

  lemma JudgeStep(env: Env, s: State)
    requires Inv(env, s) && !s.server.ServerClosed? && Enabled(s, Judge)
    ensures Inv(env, Apply(env, s, Judge))
  {
    JudgingIsAlone(env, s);
    hide HasRoom, Join, Frame, Fits, InFlight, Follows;
    if !Good(env, s.creds) {
      assert Replied(Apply(env, s, Judge), FAIL_MESSAGE);
    } else {
      assert LastAccepted(env, s.attempts, s.creds);
      assert HasRoom(s.path, s.creds.user) ==> Replied(Apply(env, s, Judge), OK_MESSAGE);
    }
  }

  /** Once the server has closed, the client only moves between its own states. */
  lemma ClosedStep(env: Env, s: State, step: Step)
    requires Inv(env, s) && s.server.ServerClosed? && Enabled(s, step)
    ensures Inv(env, Apply(env, s, step))
    ensures var s' := Apply(env, s, step);
            s'.server == s.server && s'.judged == s.judged && s'.path == s.path && s.attempts <= s'.attempts
  {
    hide LastAccepted, HasRoom, ReplyOf, EncodeInt, Typed, FGetsCount;
    if step.ClientSend? {
      assert s.client.rest[step.k..] == [] ==> EncodeFrame(s.creds.hash) != [];
    }
  }

  lemma StepKeepsInv(env: Env, s: State, step: Step)
    requires Inv(env, s) && Enabled(s, step)
    ensures Inv(env, Apply(env, s, step))
  {
    if s.server.ServerClosed? {
      ClosedStep(env, s, step);
      return;
    }
    match step
    case Prompt => PromptStep(env, s);
    case ClientSend(k) => ClientSendStep(env, s, k);
    case ClientRecv(k) => ClientRecvStep(env, s, k);
    case ClientAdvance => ClientAdvanceStep(env, s);
    case ServerRecv(k) => ServerRecvStep(env, s, k);
    case ServerAdvance => ServerAdvanceStep(env, s);
    case Judge => JudgeStep(env, s);
    case _ =>
  }

  lemma {:induction false} RunKeepsInv(env: Env, s: State, steps: seq<Step>)
    requires Inv(env, s) && IsRun(env, s, steps)
    ensures Inv(env, After(env, s, steps))
    decreases |steps|
  {
    if steps != [] {
      StepKeepsInv(env, s, steps[0]);
      RunKeepsInv(env, Apply(env, s, steps[0]), steps[1..]);
    }
  }

  // ---------- what holds in every reachable state ----------

  lemma Reachable(env: Env, input: Bytes, path: Text, steps: seq<Step>)
    requires IsRun(env, Start(input, path), steps)
    ensures Inv(env, After(env, Start(input, path), steps))
  {
    RunKeepsInv(env, Start(input, path), steps);
  }

  /** Blocked in a receive on an empty channel, whose other end is still open. */
  predicate ClientBlocked(s: State) {
    ClientReading(s.client) && ClientWants(s.client) > 0 && s.toClient == [] && !s.server.ServerClosed?
  }

  predicate ServerBlocked(s: State) { ServerReading(s.server) && ServerWants(s.server) > 0 && s.toServer == [] }

  /** The client's loop is over. */
  predicate Ended(s: State) { s.client.Connected? || s.client.ClientClosed? || s.client.ClientGarbled? }

  /** Lockstep, at byte level, for every input, every number of failed rounds and every
      fragmentation: whenever the client starts a round both channels are empty, and the
      server, unless it has closed, is at the start of its own; the pairs the server has
      checked are, in order, the pairs the client has sent (but for the one under way, or
      those sent after the close); and the two are never both blocked. */
  lemma Lockstep(env: Env, input: Bytes, path: Text, steps: seq<Step>)
    requires IsRun(env, Start(input, path), steps)
    ensures var s := After(env, Start(input, path), steps);
            && (s.client.Prompting? ==> s.toServer == [] && s.toClient == [])
            && (s.client.Prompting? && !s.server.ServerClosed? ==>
                 s.server == UserLength([]) && s.attempts == s.judged)
            && s.judged <= s.attempts
            && (!s.server.ServerClosed? ==> s.attempts == s.judged || s.attempts == s.judged + [s.creds])
            && !(ClientBlocked(s) && ServerBlocked(s))
  {
    hide LastAccepted, AllRejected, Follows, Consumed, Unsent, IsRun, Apply, Enabled;
    Reachable(env, input, path, steps);
    var s := After(env, Start(input, path), steps);
    if ClientBlocked(s) && ServerBlocked(s) {
      NeverBothBlocked(env, s);
    }
  }

  /** While a reply is under way the client has something to read. */
  lemma ReplyFeedsClient(s: State, message: Text)
    requires |message| <= DATA_SIZE && Replied(s, message)
    ensures !ClientBlocked(s)
  {
    IntRoundTrip(|message|, EncodeInt(|message|));
    if s.toClient == [] {
      assert ReplyRead(s.client) == Frame(message);
    }
  }

  /** A server that waits with its channel empty while the client has sent everything
      would have consumed a whole pair, which no receiving position has. */
  lemma RequestFeedsServer(s: State)
    requires InFlight(s) && Unsent(s) == []
    ensures !ServerBlocked(s)
  {
    IntRoundTrip(|s.creds.user|, EncodeInt(|s.creds.user|));
    IntRoundTrip(|s.creds.hash|, EncodeInt(|s.creds.hash|));
    assert |Consumed(s.server)| + |s.toServer| == |Encode(s.creds)|;
  }

  lemma NeverBothBlocked(env: Env, s: State)
    requires Inv(env, s) && ClientReading(s.client) && !s.server.ServerClosed?
    ensures !(ClientBlocked(s) && !s.server.Judging? && (ServerBlocked(s) || !ServerReading(s.server)))
  {
    if s.server.Accepted? {
      ReplyFeedsClient(s, OK_MESSAGE);
    } else if InFlight(s) {
      RequestFeedsServer(s);
    } else {
      ReplyFeedsClient(s, FAIL_MESSAGE);
    }
  }

  // ---------- what being connected means ----------

  lemma AllButLast(env: Env, judged: seq<Credentials>, creds: Credentials)
    requires LastAccepted(env, judged, creds)
    ensures judged != [] && judged[|judged| - 1] == creds && Good(env, creds)
    ensures creds.user in env.shadow && creds.hash == env.shadow[creds.user]
    ensures forall i :: 0 <= i < |judged| - 1 ==> !Good(env, judged[i])
  {
    assert forall i :: 0 <= i < |judged| - 1 ==> judged[..|judged| - 1][i] == judged[i];
  }

  /** Connected means that the pair checked last was right, whose hash is the stored one,
      and every earlier pair wrong.  It is the pair typed last, and the server is past its
      OK for it, unless the server closed on it for want of room. */
  lemma ConnectedMeansAccepted(env: Env, input: Bytes, path: Text, steps: seq<Step>)
    requires IsRun(env, Start(input, path), steps)
    ensures var s := After(env, Start(input, path), steps);
            s.isConnected ==>
              && s.judged != [] && s.toServer == [] && s.toClient == []
              && (forall i :: 0 <= i < |s.judged| - 1 ==> !Good(env, s.judged[i]))
              && (var c := s.judged[|s.judged| - 1];
                  && c.user in env.shadow && c.hash == env.shadow[c.user]
                  && (s.attempts == s.judged ==> s.creds == c)
                  && (if s.server.ServerClosed? then !HasRoom(s.path, c.user)
                      else s.server == Accepted(c) && s.attempts == s.judged))
  {
    hide LastAccepted, Replied, InFlight, IsRun, Enabled, Apply;
    Reachable(env, input, path, steps);
    var s := After(env, Start(input, path), steps);
    if s.isConnected {
      if s.server.ServerClosed? {
        AllButLast(env, s.judged, s.judged[|s.judged| - 1]);
      } else {
        AllButLast(env, s.judged, s.creds);
      }
    }
  }

  /** The uninitialised `train` reads as the server's OK. */
  predicate ReadsAsOk(step: Step) { step.ClientEof? && IsTrain(step.junk) && ReplyOf([], step.junk) == Some(OK_MESSAGE) }

  /** A step connects the client of a closed server exactly when it is such a read. */
  lemma ConnectingStep(env: Env, s: State, step: Step)
    requires Inv(env, s) && Enabled(s, step) && !s.client.Connected?
    ensures var s' := Apply(env, s, step); s'.client.Connected? && s'.server.ServerClosed? <==> ReadsAsOk(step)
  {
    hide LastAccepted, HasRoom, ReplyOf, Replied, InFlight, AuthenticateUser, Typed, FGetsCount;
    if step.ClientEof? {
      assert ReplyRead(s.client) == [];
    } else if step.Judge? {
      JudgingIsAlone(env, s);
    }
  }

  /** So that is the only way in which a client is ever connected without the server's OK. */
  lemma {:induction false} ConnectedWithoutOk(env: Env, s: State, steps: seq<Step>)
    requires Inv(env, s) && IsRun(env, s, steps) && !s.client.Connected?
    ensures var e := After(env, s, steps);
            e.isConnected && e.server.ServerClosed? <==> exists i :: 0 <= i < |steps| && ReadsAsOk(steps[i])
    decreases |steps|
  {
    hide Inv, Enabled, Apply, ReadsAsOk;
    if steps == [] {
      ConnectedIsConnected(env, s);
    } else {
      FirstStepOfRun(env, s, steps);
      var s' := Apply(env, s, steps[0]);
      StepKeepsInv(env, s, steps[0]);
      ConnectingStep(env, s, steps[0]);
      assert forall i :: 1 <= i < |steps| ==> steps[i] == steps[1..][i - 1];
      if s'.client.Connected? {
        ConnectedStays(env, s', steps[1..]);
      } else {
        ConnectedWithoutOk(env, s', steps[1..]);
      }
    }
  }

  lemma ConnectedIsConnected(env: Env, s: State)
    requires Inv(env, s)
    ensures s.isConnected == s.client.Connected?
  {
  }

  /** Nothing happens after the client is connected. */
  lemma ConnectedStays(env: Env, s: State, steps: seq<Step>)
    requires Inv(env, s) && IsRun(env, s, steps) && s.client.Connected?
    ensures steps == [] && s.isConnected
  {
  }

  // ---------- the dialogue always comes to an end ----------

  function ServerStage(s: Server): nat {
    match s
    case UserLength(_) => 5
    case UserBody(_, _) => 4
    case HashLength(_, _) => 3
    case HashBody(_, _, _) => 2
    case Judging(_) => 1
    case _ => 0
  }

  /** What is left to do in the current round; bytes still to be sent count twice. */
  function Work(s: State): nat {
    match s.client
    case Prompting => 1
    case SendingUser(rest) =>
      2 * (|rest| + |EncodeFrame(s.creds.hash)|) + |s.toServer| + ServerStage(s.server) + 30
    case SendingHash(rest) => 2 * |rest| + |s.toServer| + ServerStage(s.server) + 30
    case ReadingLength(_) =>
      if s.attempts == s.judged then |s.toClient| + 3 else |s.toServer| + ServerStage(s.server) + 30
    case ReadingBody(_, _) => |s.toClient| + 2
    case _ => 0
  }

  function Measure(s: State): nat { 500 * |s.input| + Work(s) }

  lemma PromptMakesProgress(env: Env, s: State)
    requires Inv(env, s) && Enabled(s, Prompt)
    ensures Measure(Apply(env, s, Prompt)) < Measure(s)
  {
    hide LastAccepted, AllRejected, Replied, HasRoom, Typed, FGetsCount, EncodeInt;
    var s' := Apply(env, s, Prompt);
    assert |s'.input| < |s.input| || s'.client.ClientClosed?;
    assert s'.toServer == [];
  }

  lemma JudgeMakesProgress(env: Env, s: State)
    requires Inv(env, s) && Enabled(s, Judge)
    ensures Measure(Apply(env, s, Judge)) < Measure(s)
  {
    JudgingIsAlone(env, s);
    assert |Frame(OK_MESSAGE)| == 18 && |Frame(FAIL_MESSAGE)| == 13;
  }

  predicate OfClient(step: Step) {
    step.ClientSend? || step.ClientRecv? || step.ClientAdvance? || step.SendFails? || step.ClientEof?
  }

  lemma ClientMakesProgress(env: Env, s: State, step: Step)
    requires Inv(env, s) && Enabled(s, step) && OfClient(step)
    ensures Measure(Apply(env, s, step)) < Measure(s)
  {
    hide LastAccepted, AllRejected, HasRoom, ReplyOf, Follows, Consumed, Unsent;
  }

  lemma ServerMakesProgress(env: Env, s: State, step: Step)
    requires Inv(env, s) && Enabled(s, step) && (step.ServerRecv? || step.ServerAdvance?)
    ensures Measure(Apply(env, s, step)) < Measure(s)
  {
    hide LastAccepted, AllRejected, HasRoom, ReplyOf, Follows, Consumed, Unsent;
    assert s.attempts != s.judged;
  }

  lemma StepMakesProgress(env: Env, s: State, step: Step)
    requires Inv(env, s) && Enabled(s, step)
    ensures Measure(Apply(env, s, step)) < Measure(s)
  {
    hide Inv, Enabled, Apply, Measure;
    match step
    case Prompt => PromptMakesProgress(env, s);
    case Judge => JudgeMakesProgress(env, s);
    case ServerRecv(_) => ServerMakesProgress(env, s, step);
    case ServerAdvance => ServerMakesProgress(env, s, step);
    case _ => ClientMakesProgress(env, s, step);
  }

  /** A client that is not done can go on, or waits for a server that can. */
  lemma NotStuck(env: Env, s: State)
    requires Inv(env, s) && !Ended(s)
    ensures exists step :: Enabled(s, step)
  {
    hide LastAccepted, AllRejected, Replied, InFlight, HasRoom, DecodeInt;
    if s.client.Prompting? {
      assert Enabled(s, Prompt);
    } else if s.client.SendingUser? || s.client.SendingHash? {
      assert Enabled(s, ClientSend(1));
    } else if ClientWants(s.client) <= 0 {
      assert Enabled(s, ClientAdvance);
    } else if s.toClient != [] {
      assert Enabled(s, ClientRecv(1));
    } else if s.server.ServerClosed? {
      assert Enabled(s, ClientEof(Zeros(4 + DATA_SIZE)));
    } else {
      NeverBothBlocked(env, s);
      if s.server.Judging? {
        assert Enabled(s, Judge);
      } else if ServerWants(s.server) <= 0 {
        assert Enabled(s, ServerAdvance);
      } else {
        assert Enabled(s, ServerRecv(1));
      }
    }
  }

  lemma {:induction false} RunIsBounded(env: Env, s: State, steps: seq<Step>)
    requires Inv(env, s) && IsRun(env, s, steps)
    ensures |steps| + Measure(After(env, s, steps)) <= Measure(s)
    decreases |steps|
  {
    hide Inv, Enabled, Apply, Measure;
    if steps != [] {
      FirstStepOfRun(env, s, steps);
      StepMakesProgress(env, s, steps[0]);
      StepKeepsInv(env, s, steps[0]);
      RunIsBounded(env, Apply(env, s, steps[0]), steps[1..]);
    }
  }

  /** Every login dialogue ends, for every keyboard input and every fragmentation: no run
      has more than 500 steps per byte typed (plus one), and a run that cannot go on has
      the client connected, out of input, or reading a length beyond its buffer, which
      takes a closed server.  While the server is there a client out of input has had every
      pair turned down; and a server closes only on a right pair for want of room. */
  lemma LoginEnds(env: Env, input: Bytes, path: Text, steps: seq<Step>)
    requires IsRun(env, Start(input, path), steps)
    ensures |steps| <= 500 * |input| + 1
    ensures var s := After(env, Start(input, path), steps);
            && ((forall step :: !Enabled(s, step)) ==> Ended(s))
            && (s.client.ClientGarbled? ==> s.server.ServerClosed?)
            && (s.client.ClientClosed? && !s.server.ServerClosed? ==>
                 s.attempts == s.judged && AllRejected(env, s.judged))
            && (s.server.ServerClosed? ==>
                 s.judged != [] && Good(env, s.judged[|s.judged| - 1]) && !HasRoom(s.path, s.judged[|s.judged| - 1].user))
  {
    hide Enabled, Apply, IsRun, Replied, InFlight, AllRejected;
    Reachable(env, input, path, steps);
    StartMeasure(env, input, path);
    RunIsBounded(env, Start(input, path), steps);
    var s := After(env, Start(input, path), steps);
    if !Ended(s) {
      NotStuck(env, s);
    }
  }

  lemma StartMeasure(env: Env, input: Bytes, path: Text)
    ensures Inv(env, Start(input, path))
    ensures Measure(Start(input, path)) == 500 * |input| + 1
  {
  }

  // ---------- the outcome does not depend on the interleaving ----------

  /** What a login dialogue comes to. */
  datatype Result = Result(attempts: seq<Credentials>, path: Bytes, connected: bool, closedByServer: bool)

  /** The dialogue with no network in between: prompt, check, and prompt again. */
  function Dialogue(env: Env, input: Bytes, path: Bytes, attempts: seq<Credentials>): Result
    decreases |input|
  {
    if input == [] || AfterTyped(input, USER_SIZE) == [] then Result(attempts, path, false, false)
    else
      var user, input1 := Typed(input, USER_SIZE), AfterTyped(input, USER_SIZE);
      var password, input2 := Typed(input1, HASH_SIZE), AfterTyped(input1, HASH_SIZE);
      match env.crypt(password)
      case None => Dialogue(env, input2, path, attempts)
      case Some(hash) =>
        var c := Credentials(user, hash);
        if !Good(env, c) then Dialogue(env, input2, path, attempts + [c])
        else if HasRoom(path, user) then Result(attempts + [c], Join(path, user), true, false)
        else Result(attempts + [c], path, false, true)
  }

  /** What is still to come once the pair `c` has been sent. */
  function OnceJudged(env: Env, c: Credentials, input: Bytes, path: Bytes, attempts: seq<Credentials>): Result {
    if !Good(env, c) then Dialogue(env, input, path, attempts)
    else if HasRoom(path, c.user) then Result(attempts, Join(path, c.user), true, false)
    else Result(attempts, path, false, true)
  }

  /** The result that a state is bound for. */
  function Future(env: Env, s: State): Result {
    if s.server.ServerClosed? then Result(s.judged, s.path, false, true)
    else match s.client
      case Prompting => Dialogue(env, s.input, s.path, s.attempts)
      case ClientClosed => Result(s.attempts, s.path, false, false)
      case Connected => Result(s.attempts, s.path, true, false)
      case _ =>
        if s.attempts != s.judged then OnceJudged(env, s.creds, s.input, s.path, s.attempts)
        else if s.server.Accepted? then Result(s.attempts, s.path, true, false)
        else Dialogue(env, s.input, s.path, s.attempts)
  }

  lemma PromptKeepsFuture(env: Env, s: State)
    requires Inv(env, s) && Enabled(s, Prompt)
    ensures Future(env, Apply(env, s, Prompt)) == Future(env, s)
  {
    hide Typed, FGetsCount, Good, AllRejected, Join, HasRoom, LastAccepted;
  }

  lemma JudgeKeepsFuture(env: Env, s: State)
    requires Inv(env, s) && Enabled(s, Judge)
    ensures Future(env, Apply(env, s, Judge)) == Future(env, s)
  {
    JudgingIsAlone(env, s);
    hide Dialogue, Inv, InFlight, Fits, AllRejected, HasRoom, Join, Frame;
  }

  lemma StepKeepsFuture(env: Env, s: State, step: Step)
    requires Inv(env, s) && Enabled(s, step)
    ensures Future(env, Apply(env, s, step)) == Future(env, s)
  {
    hide Dialogue, Follows, AllRejected, LastAccepted, Consumed, Unsent, Join, ReplyOf, OnceJudged, DoJudge;
    if step.Prompt? {
      PromptKeepsFuture(env, s);
    } else if step.Judge? {
      JudgeKeepsFuture(env, s);
    } else if s.server.ServerClosed? {
      ClosedStep(env, s, step);
    } else {
      StepKeepsInv(env, s, step);
    }
  }

  lemma {:induction false} RunKeepsFuture(env: Env, s: State, steps: seq<Step>)
    requires Inv(env, s) && IsRun(env, s, steps)
    ensures Future(env, After(env, s, steps)) == Future(env, s)
    decreases |steps|
  {
    hide Future, Inv, Enabled, Apply;
    if steps != [] {
      FirstStepOfRun(env, s, steps);
      StepKeepsFuture(env, s, steps[0]);
      StepKeepsInv(env, s, steps[0]);
      RunKeepsFuture(env, Apply(env, s, steps[0]), steps[1..]);
    }
  }

  lemma FirstStepOfRun(env: Env, s: State, steps: seq<Step>)
    requires IsRun(env, s, steps) && steps != []
    ensures Enabled(s, steps[0]) && IsRun(env, Apply(env, s, steps[0]), steps[1..])
  {
  }

  /** Every interleaving and every fragmentation comes to the same result: the pairs
      checked, the path, whether the server closed and, if it did not, the pairs sent and
      whether the client is connected are those of the dialogue with no network in between. */
  lemma LoginDetermined(env: Env, input: Bytes, path: Text, steps: seq<Step>)
    requires IsRun(env, Start(input, path), steps) && Ended(After(env, Start(input, path), steps))
    ensures var s := After(env, Start(input, path), steps); var d := Dialogue(env, input, path, []);
            && d.closedByServer == s.server.ServerClosed? && d.attempts == s.judged && d.path == s.path
            && (!d.closedByServer ==> d == Result(s.attempts, s.path, s.isConnected, false))
  {
    hide Dialogue, IsRun, Apply, Enabled, LastAccepted, Replied, InFlight;
    Reachable(env, input, path, steps);
    RunKeepsFuture(env, Start(input, path), steps);
  }

  // ---------- the outcome by the keyboard and the password table alone ----------

  /** The pairs typed: a name of up to 63 bytes and the hash of a password of up to 127; a
      password that crypt refuses is passed over with its name. */
  function TypedPairs(crypt: Text -> Option<Hash>, input: Bytes): (cs: seq<Credentials>)
    ensures forall c | c in cs :: Fits(c)
    decreases |input|
  {
    if input == [] || AfterTyped(input, 64) == [] then []
    else
      var user, input1 := Typed(input, 64), AfterTyped(input, 64);
      var password, input2 := Typed(input1, 128), AfterTyped(input1, 128);
      match crypt(password)
      case None => TypedPairs(crypt, input2)
      case Some(hash) => [Credentials(user, hash)] + TypedPairs(crypt, input2)
  }

  /** The first pair that the table holds, or the number of pairs if it holds none. */
  function FirstRight(shadow: map<Text, Text>, cs: seq<Credentials>): (k: nat)
    ensures k <= |cs|
    ensures forall i :: 0 <= i < k ==> !(cs[i].user in shadow && cs[i].hash == shadow[cs[i].user])
    ensures k < |cs| ==> cs[k].user in shadow && cs[k].hash == shadow[cs[k].user]
  {
    if cs == [] || (cs[0].user in shadow && cs[0].hash == shadow[cs[0].user]) then 0
    else 1 + FirstRight(shadow, cs[1..])
  }

  /** A dialogue over these pairs goes on up to the first that the table holds.  With room
      for its name the client is connected and the path ends in the name; without, the server
      closes; and if there is no such pair every pair is turned down. */
  predicate DecidedByTable(shadow: map<Text, Text>, cs: seq<Credentials>, path: Bytes, attempts: seq<Credentials>, d: Result) {
    var k := FirstRight(shadow, cs);
    && d.attempts == attempts + (if k < |cs| then cs[..k + 1] else cs)
    && (d.connected <==> k < |cs| && |path| + 1 + |cs[k].user| < 1024)
    && (d.closedByServer <==> k < |cs| && |path| + 1 + |cs[k].user| >= 1024)
    && d.path == (if !d.connected then path
                  else if path != [] && path[|path| - 1] == '/' then path + cs[k].user
                  else path + "/" + cs[k].user)
  }

  lemma PassedOver(shadow: map<Text, Text>, c: Credentials, cs: seq<Credentials>, path: Bytes,
                   attempts: seq<Credentials>, d: Result)
    requires !(c.user in shadow && c.hash == shadow[c.user])
    requires DecidedByTable(shadow, cs, path, attempts + [c], d)
    ensures DecidedByTable(shadow, [c] + cs, path, attempts, d)
  {
    var all := [c] + cs;
    var k := FirstRight(shadow, cs);
    assert all[0] == c && all[1..] == cs;
    assert FirstRight(shadow, all) == k + 1;
    if k < |cs| {
      assert all[..k + 2] == [c] + cs[..k + 1];
      AppendOne(attempts, c, cs[..k + 1]);
    } else {
      AppendOne(attempts, c, cs);
    }
  }

  lemma AppendOne(a: seq<Credentials>, c: Credentials, b: seq<Credentials>)
    ensures a + [c] + b == a + ([c] + b)
  {
  }

  lemma DecidedAtOnce(shadow: map<Text, Text>, c: Credentials, cs: seq<Credentials>, path: Bytes,
                      attempts: seq<Credentials>, d: Result)
    requires c.user in shadow && c.hash == shadow[c.user]
    requires d == if HasRoom(path, c.user) then Result(attempts + [c], Join(path, c.user), true, false)
                  else Result(attempts + [c], path, false, true)
    ensures DecidedByTable(shadow, [c] + cs, path, attempts, d)
  {
    var all := [c] + cs;
    assert all[0] == c && all[..1] == [c];
  }

  lemma NothingDecided(shadow: map<Text, Text>, path: Bytes, attempts: seq<Credentials>)
    ensures DecidedByTable(shadow, [], path, attempts, Result(attempts, path, false, false))
  {
  }

  /** The dialogue is that of the pairs typed. */
  lemma {:induction false} DialogueByTable(env: Env, input: Bytes, path: Bytes, attempts: seq<Credentials>)
    ensures DecidedByTable(env.shadow, TypedPairs(env.crypt, input), path, attempts, Dialogue(env, input, path, attempts))
    decreases |input|
  {
    hide Typed, FGetsCount, DecidedByTable, Join, HasRoom;
    NothingDecided(env.shadow, path, attempts);
    if input != [] && AfterTyped(input, 64) != [] {
      var user, input1 := Typed(input, 64), AfterTyped(input, 64);
      var password, input2 := Typed(input1, 128), AfterTyped(input1, 128);
      match env.crypt(password)
      case None => DialogueByTable(env, input2, path, attempts);
      case Some(hash) =>
        var c := Credentials(user, hash);
        if !Good(env, c) {
          DialogueByTable(env, input2, path, attempts + [c]);
          PassedOver(env.shadow, c, TypedPairs(env.crypt, input2), path, attempts, Dialogue(env, input2, path, attempts + [c]));
        } else {
          DecidedAtOnce(env.shadow, c, TypedPairs(env.crypt, input2), path, attempts, Dialogue(env, input, path, attempts));
        }
    }
  }

  /** So, in every interleaving and every fragmentation that has come to its end, the pairs
      judged are those typed up to the first that the table holds; the client is connected
      by it if its name has room, and with no such pair nobody is let in. */
  lemma LoginByTable(env: Env, input: Bytes, path: Text, steps: seq<Step>)
    requires IsRun(env, Start(input, path), steps) && Ended(After(env, Start(input, path), steps))
    ensures var s := After(env, Start(input, path), steps);
            var cs := TypedPairs(env.crypt, input);
            var k := FirstRight(env.shadow, cs);
            && s.judged == (if k < |cs| then cs[..k + 1] else cs)
            && (k == |cs| ==> !s.isConnected && !s.server.ServerClosed? && s.path == path)
            && (k < |cs| && |path| + 1 + |cs[k].user| < 1024 ==>
                 && s.isConnected && s.server == Accepted(cs[k])
                 && s.path == (if path != [] && path[|path| - 1] == '/' then path + cs[k].user
                               else path + "/" + cs[k].user))
            && (k < |cs| && |path| + 1 + |cs[k].user| >= 1024 ==> s.server.ServerClosed? && s.path == path)
  {
    hide IsRun, After, Dialogue, TypedPairs, FirstRight, Ended, Enabled, Apply;
    LoginDetermined(env, input, path, steps);
    ConnectedMeansAccepted(env, input, path, steps);
    DialogueByTable(env, input, path, []);
    var cs := TypedPairs(env.crypt, input);
    assert [] + cs == cs;
  }

  /** Lines typed at the keyboard, a name and a password in turn. */
  function Keyed(lines: seq<(Text, Text)>): Bytes {
    if lines == [] then [] else lines[0].0 + "\n" + lines[0].1 + "\n" + Keyed(lines[1..])
  }

  function Hashed(crypt: Text -> Option<Hash>, lines: seq<(Text, Text)>): seq<Credentials> {
    if lines == [] then []
    else match crypt(lines[0].1)
      case None => Hashed(crypt, lines[1..])
      case Some(hash) => [Credentials(lines[0].0, hash)] + Hashed(crypt, lines[1..])
  }

  /** Lines of at most 62 and 126 bytes are the pairs, whole and in order. */
  lemma {:induction false} LinesArePairs(crypt: Text -> Option<Hash>, lines: seq<(Text, Text)>)
    requires forall l | l in lines :: |l.0| <= 62 && '\n' !in l.0 && |l.1| <= 126 && '\n' !in l.1
    ensures TypedPairs(crypt, Keyed(lines)) == Hashed(crypt, lines)
  {
    hide Typed, AfterTyped;
    if lines != [] {
      var user, password, rest := lines[0].0, lines[0].1, Keyed(lines[1..]);
      assert lines[0] in lines;
      TypedLine(user, password + "\n" + rest, 64);
      TypedLine(password, rest, 128);
      assert Keyed(lines) == user + "\n" + (password + "\n" + rest);
      LinesArePairs(crypt, lines[1..]);
    }
  }

  // ---------- exactly which inputs can connect without the server's OK ----------

  /** A `train` left over from a reply that said OK. */
  lemma OkLeftOver() returns (junk: Bytes)
    ensures IsTrain(junk) && ReplyOf([], junk) == Some(OK_MESSAGE)
  {
    junk := EncodeInt(14) + OK_MESSAGE + Zeros(DATA_SIZE - 14);
    IntRoundTrip(14, EncodeInt(14));
    assert junk[..4] == EncodeInt(14) && junk[4..18] == OK_MESSAGE;
    assert Overlaid(junk[..4], []) == junk[..4] && Overlaid(junk[4..18], []) == OK_MESSAGE;
    CStrOfText(OK_MESSAGE);
  }

  /** From any state bound for a close there is a run to a client connected without OK. */
  lemma CanConnect(env: Env, s: State) returns (steps: seq<Step>)
    requires Inv(env, s) && Future(env, s).closedByServer && !s.client.Connected?
    requires s.server.ServerClosed? ==> s.client == ReadingLength([])
    ensures IsRun(env, s, steps) && After(env, s, steps).isConnected && After(env, s, steps).server.ServerClosed?
    decreases Measure(s)
  {
    hide Inv, Future, Measure, Enabled, Apply;
    if s.server.ServerClosed? {
      var junk := OkLeftOver();
      steps := [ClientEof(junk)];
      EofConnects(env, s, junk);
      assert steps[1..] == [];
    } else {
      BoundForCloseGoesOn(env, s);
      NotStuck(env, s);
      var step :| Enabled(s, step);
      StepMakesProgress(env, s, step);
      StepKeepsInv(env, s, step);
      StepKeepsFuture(env, s, step);
      OnlyJudgeCloses(env, s, step);
      var rest := CanConnect(env, Apply(env, s, step));
      steps := [step] + rest;
      assert steps[1..] == rest;
    }
  }

  lemma EofConnects(env: Env, s: State, junk: Bytes)
    requires Inv(env, s) && s.server.ServerClosed? && s.client == ReadingLength([])
    requires IsTrain(junk) && ReplyOf([], junk) == Some(OK_MESSAGE)
    ensures Enabled(s, ClientEof(junk))
    ensures var e := Apply(env, s, ClientEof(junk)); e.isConnected && e.server.ServerClosed?
  {
    hide ReplyOf, LastAccepted, HasRoom;
  }

  lemma BoundForCloseGoesOn(env: Env, s: State)
    requires Inv(env, s) && Future(env, s).closedByServer && !s.server.ServerClosed?
    ensures !Ended(s)
  {
    hide Dialogue, LastAccepted, Replied, InFlight;
  }

  lemma OnlyJudgeCloses(env: Env, s: State, step: Step)
    requires Inv(env, s) && Enabled(s, step) && !s.server.ServerClosed? && !Ended(s)
    requires Future(env, s).closedByServer
    ensures var e := Apply(env, s, step); e.server.ServerClosed? ==> e.client == ReadingLength([])
    ensures !Apply(env, s, step).client.Connected?
  {
    hide Dialogue, LastAccepted, AllRejected, Join, Consumed, Unsent, Follows;
    StepKeepsFuture(env, s, step);
    StepKeepsInv(env, s, step);
    if step.Judge? { JudgingIsAlone(env, s); }
  }

  /** A client can be connected without the server's OK for exactly those inputs whose
      dialogue ends with the server closing for want of room. */
  lemma ConnectsWithoutOkExactlyWhen(env: Env, input: Bytes, path: Text)
    ensures Dialogue(env, input, path, []).closedByServer
       <==> exists steps :: IsRun(env, Start(input, path), steps)
                            && After(env, Start(input, path), steps).isConnected
                            && After(env, Start(input, path), steps).server.ServerClosed?
  {
    hide Dialogue, IsRun, After, Apply, Enabled;
    var s := Start(input, path);
    if Dialogue(env, input, path, []).closedByServer {
      var steps := CanConnect(env, s);
    }
    forall steps | IsRun(env, s, steps) && After(env, s, steps).isConnected
                   && After(env, s, steps).server.ServerClosed?
      ensures Dialogue(env, input, path, []).closedByServer
    {
      RunKeepsFuture(env, s, steps);
    }
  }
}
