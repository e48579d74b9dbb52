/** The client's side of a login: handlePassword and handle_authentication
    (client/encryption.c) and the loop of handle_authen_event (client/client.c). */
module ClientLogin {
  import opened CTypes
  import opened SocketIO
  import opened Frames
  import opened Authen
  import opened LoginProtocol

  /** The global `g_clientState`. */
  class ClientState {
    var isConnected: bool

    constructor ()
      ensures !isConnected
    {
      isConnected := false;
    }
  }

  predicate OnlyChunks(script: seq<IoEvent>) { forall e | e in script :: e.Chunk? }

  /** A receive whose result is ignored. */
  method ReadAll(sock: Socket, buf: array<Byte>, n: nat) returns (undefined: bool)
    requires n <= buf.Length
    modifies sock`incoming, sock`recvScript, buf
    ensures OnlyChunks(old(sock.recvScript)) ==>
              && OnlyChunks(sock.recvScript) && !undefined
              && buf[..n] == Overlaid(old(buf[..n]), old(sock.incoming)) && sock.incoming == Rest(old(sock.incoming), n)
  {
    hide AssembleAll;
    ghost var script, stream, orig := sock.recvScript, sock.incoming, buf[..];
    var r;
    r, undefined := ClientRecvN(sock, buf, n);
    if OnlyChunks(script) {
      assert forall e | e in sock.recvScript :: e in script;
      DeliversWithoutFailures(script, stream, orig, n);
      FilledIsOverlaid(orig, stream, n);
    }
  }

  lemma FilledIsOverlaid(orig: Bytes, stream: Bytes, n: nat)
    requires n <= |orig|
    ensures Filled(orig, stream, Min(n, |stream|))[..n] == Overlaid(orig[..n], stream)
    ensures stream[Min(n, |stream|)..] == Rest(stream, n)
  {
  }

  /** handlePassword: 0 for success. */
  method HandlePassword(sock: Socket, crypt: Text -> Option<Hash>, username: Text, password: Text)
    returns (r: int, ghost sent: nat)
    requires |username| < USER_SIZE
    modifies sock`outgoing, sock`sendScript
    ensures crypt(password) == None ==>
              r == -1 && sock.outgoing == old(sock.outgoing) && sock.sendScript == old(sock.sendScript)
    ensures crypt(password).Some? ==>
              var request := Encode(Credentials(username, crypt(password).value));
              && sent <= |request| && sock.outgoing == old(sock.outgoing) + request[..sent]
              && r == (if sent == |request| then 0 else -1)
              && (Failed !in old(sock.sendScript) ==> r == 0)
    ensures Failed !in old(sock.sendScript) ==> Failed !in sock.sendScript
  {
    sent := 0;
    match crypt(password)
    case None => r := -1;
    case Some(hash) => r, sent := SendPassword(sock, username, hash);
  }

  /** What the client leaves of the stream when it has read one reply. */
  function AfterReply(stream: Bytes, junk: Bytes): Bytes
    requires IsTrain(junk)
  {
    var n := DecodeInt(Overlaid(junk[..4], stream));
    Rest(Rest(stream, 4), if 0 <= n < RESPONSE_SIZE then n else 0)
  }

  /** The reply.  The results of the receives are ignored, so what does not arrive is read
      from the uninitialised `train` (`junk`), and a length beyond the response buffer is
      where the model stops (`undefined`). */
  method ReceiveReply(sock: Socket, junk: Bytes) returns (response: Text, undefined: bool)
    requires IsTrain(junk)
    modifies sock`incoming, sock`recvScript
    ensures OnlyChunks(old(sock.recvScript)) ==>
              && OnlyChunks(sock.recvScript)
              && ReplyOf(old(sock.incoming), junk) == (if undefined then None else Some(response))
              && sock.incoming == AfterReply(old(sock.incoming), junk)
  {
    hide OnlyChunks, DecodeInt, Overlaid, Rest, CStr;
    response, undefined := [], true;
    ghost var stream, clean := sock.incoming, OnlyChunks(sock.recvScript);
    var length_ := new Byte[4](i requires 0 <= i < 4 => junk[i]);
    var data_ := new Byte[DATA_SIZE](i requires 0 <= i < DATA_SIZE => junk[4 + i]);
    assert length_[..4] == junk[..4] && data_[..] == junk[4..];
    var stop := ReadAll(sock, length_, 4);
    var len := DecodeInt(length_[..]);
    assert length_[..] == length_[..4];
    if stop || len < 0 || len >= RESPONSE_SIZE {
      if clean { NothingMore(stream); }
      return;
    }
    assert data_[..len] == junk[4..4 + len];
    stop := ReadAll(sock, data_, len);
    if stop {
      return;
    }
    var auth_response := new Byte[RESPONSE_SIZE](_ => '\0');
    CopyIn(auth_response, 0, data_[..len]);
    auth_response[len] := '\0';
    CStrUpTo(auth_response[..], len);
    assert auth_response[..][..len] == data_[..len];
    response, undefined := CStr(auth_response[..]), false;
  }

  lemma NothingMore(stream: Bytes)
    ensures Rest(Rest(stream, 4), 0) == Rest(stream, 4)
  {
  }

  /** handle_authentication */
  method HandleAuthentication(g: ClientState, sock: Socket, crypt: Text -> Option<Hash>,
                              username: Text, password: Text, junk: Bytes)
    returns (r: int, undefined: bool, ghost sent: nat)
    requires |username| < USER_SIZE && IsTrain(junk)
    modifies g, sock
    ensures (r == 0 || r == -1) && (r == 0 ==> !undefined)
    ensures g.isConnected == (old(g.isConnected) || r == 0)
    ensures Failed !in old(sock.sendScript) ==> Failed !in sock.sendScript
    ensures OnlyChunks(old(sock.recvScript)) ==> OnlyChunks(sock.recvScript)
    ensures crypt(password) == None ==>
              r == -1 && !undefined && sock.outgoing == old(sock.outgoing) && sock.incoming == old(sock.incoming)
    ensures crypt(password).Some? ==>
              var request := Encode(Credentials(username, crypt(password).value));
              && sent <= |request| && sock.outgoing == old(sock.outgoing) + request[..sent]
              && (Failed !in old(sock.sendScript) ==> sent == |request|)
              && (sent < |request| ==> r == -1 && !undefined && sock.incoming == old(sock.incoming))
              && (sent == |request| && OnlyChunks(old(sock.recvScript)) ==>
                   && (undefined <==> ReplyOf(old(sock.incoming), junk) == None)
                   && (r == 0 <==> ReplyOf(old(sock.incoming), junk) == Some(OK_MESSAGE))
                   && sock.incoming == AfterReply(old(sock.incoming), junk))
  {
    hide OnlyChunks, ReplyOf, AfterReply;
    undefined := false;
    var sendRet, n := HandlePassword(sock, crypt, username, password);
    sent := n;
    if sendRet != 0 {
      return -1, false, sent;
    }
    var response: Text;
    response, undefined := ReceiveReply(sock, junk);
    if !undefined && response == OK_MESSAGE {
      g.isConnected := true;
      return 0, false, sent;
    }
    return -1, undefined, sent;
  }

  // ---------- the retry loop ----------

  /** What a login on a given stream of replies comes to. */
  datatype Replay = Replay(attempts: seq<Credentials>, connected: bool, undefined: bool, left: Bytes)

  function Replayed(crypt: Text -> Option<Hash>, input: Bytes, stream: Bytes, junk: Bytes,
                    attempts: seq<Credentials>): Replay
    requires IsTrain(junk)
    decreases |input|
  {
    if input == [] || AfterTyped(input, USER_SIZE) == [] then Replay(attempts, false, false, stream)
    else
      var user, input1 := Typed(input, USER_SIZE), AfterTyped(input, USER_SIZE);
      var password, input2 := Typed(input1, HASH_SIZE), AfterTyped(input1, HASH_SIZE);
      match crypt(password)
      case None => Replayed(crypt, input2, stream, junk, attempts)
      case Some(hash) =>
        var sent, left := attempts + [Credentials(user, hash)], AfterReply(stream, junk);
        match ReplyOf(stream, junk)
        case None => Replay(sent, false, true, left)
        case Some(text) =>
          if text == OK_MESSAGE then Replay(sent, true, false, left)
          else Replayed(crypt, input2, left, junk, sent)
  }

  predicate AllFit(cs: seq<Credentials>) { forall c | c in cs :: Fits(c) }

  lemma {:induction false} EncodeAllMore(cs: seq<Credentials>, c: Credentials)
    requires Fits(c) && AllFit(cs)
    ensures EncodeAll(cs + [c]) == EncodeAll(cs) + Encode(c)
  {
    if cs == [] {
      assert [c][1..] == [] && [] + [c] == [c];
      assert EncodeAll([c]) == Encode(c) + [];
    } else {
      assert (cs + [c])[1..] == cs[1..] + [c];
      EncodeAllMore(cs[1..], c);
      assert EncodeAll(cs + [c]) == Encode(cs[0]) + (EncodeAll(cs[1..]) + Encode(c));
    }
  }

  lemma NothingEncoded()
    ensures EncodeAll([]) == []
  {
  }

  lemma {:induction false} ReplayFits(crypt: Text -> Option<Hash>, input: Bytes, stream: Bytes, junk: Bytes,
                                      attempts: seq<Credentials>)
    requires IsTrain(junk) && AllFit(attempts)
    ensures AllFit(Replayed(crypt, input, stream, junk, attempts).attempts)
    ensures attempts <= Replayed(crypt, input, stream, junk, attempts).attempts
    decreases |input|
  {
    hide Typed, FGetsCount, ReplyOf, AfterReply;
    if input != [] && AfterTyped(input, USER_SIZE) != [] {
      var user, input1 := Typed(input, USER_SIZE), AfterTyped(input, USER_SIZE);
      var password, input2 := Typed(input1, HASH_SIZE), AfterTyped(input1, HASH_SIZE);
      match crypt(password)
      case None => ReplayFits(crypt, input2, stream, junk, attempts);
      case Some(hash) =>
        if ReplyOf(stream, junk).Some? && ReplyOf(stream, junk).value != OK_MESSAGE {
          ReplayFits(crypt, input2, AfterReply(stream, junk), junk, attempts + [Credentials(user, hash)]);
        }
    }
  }

  /** handle_authen_event with the keyboard as a byte sequence.  When no call fails, what it
      sends, whether it is connected and what it leaves unread follow from the keyboard and
      the replies; ReplayIsDialogue says what that is for the replies of a server. */
  method HandleAuthenEvent(g: ClientState, sock: Socket, crypt: Text -> Option<Hash>, input: Bytes, junk: Bytes)
    returns (r: int, undefined: bool)
    requires IsTrain(junk)
    modifies g, sock
    ensures (r == 0 || r == -1) && (r == 0 <==> g.isConnected)
    ensures old(g.isConnected) ==> sock.outgoing == old(sock.outgoing) && sock.incoming == old(sock.incoming)
    ensures var d := Replayed(crypt, input, old(sock.incoming), junk, []);
            !old(g.isConnected) && OnlyChunks(old(sock.recvScript)) && Failed !in old(sock.sendScript) ==>
              && undefined == d.undefined && g.isConnected == d.connected && sock.incoming == d.left
              && AllFit(d.attempts) && sock.outgoing == old(sock.outgoing) + EncodeAll(d.attempts)
  {
    hide Typed, FGetsCount, OnlyChunks, ReplyOf, AfterReply, Encode, EncodeAll;
    ghost var clean := !g.isConnected && OnlyChunks(sock.recvScript) && Failed !in sock.sendScript;
    ghost var d := Replayed(crypt, input, sock.incoming, junk, []);
    ReplayFits(crypt, input, sock.incoming, junk, []);
    ghost var attempts: seq<Credentials> := [];
    NothingEncoded();
    var rest := input;
    undefined := false;
    while !g.isConnected
      invariant !undefined && (old(g.isConnected) ==> g.isConnected && unchanged(sock))
      invariant AllFit(attempts)
      invariant clean ==> OnlyChunks(sock.recvScript) && Failed !in sock.sendScript
      invariant clean ==> sock.outgoing == old(sock.outgoing) + EncodeAll(attempts)
      invariant clean ==> d == if g.isConnected then Replay(attempts, true, false, sock.incoming)
                               else Replayed(crypt, rest, sock.incoming, junk, attempts)
      decreases !g.isConnected, |rest|
    {
      if rest == [] {
        return -1, false;
      }
      var username := Typed(rest, USER_SIZE);
      rest := AfterTyped(rest, USER_SIZE);
      if rest == [] {
        return -1, false;
      }
      var password := Typed(rest, HASH_SIZE);
      rest := AfterTyped(rest, HASH_SIZE);
      var ret, stop, sent := HandleAuthentication(g, sock, crypt, username, password, junk);
      if crypt(password).Some? {
        ghost var c := Credentials(username, crypt(password).value);
        EncodeAllMore(attempts, c);
        attempts := attempts + [c];
      }
      if stop {
        return -1, true;
      }
    }
    r := 0;
  }

  // ---------- against a server ----------

  function Answer(env: Env, c: Credentials): (m: Text)
    ensures |m| < RESPONSE_SIZE && (m == OK_MESSAGE <==> Good(env, c))
  {
    if Good(env, c) then OK_MESSAGE else FAIL_MESSAGE
  }

  /** A server's answers to these pairs, then whatever it sends later. */
  function Answers(env: Env, cs: seq<Credentials>, later: Bytes): Bytes {
    if cs == [] then later else Frame(Answer(env, cs[0])) + Answers(env, cs[1..], later)
  }

  /** A reply of up to 63 bytes is read whole, with nothing behind it; the response buffer
      does not take a longer one. */
  lemma ReplyIsRead(text: Text, tail: Bytes, junk: Bytes)
    requires |text| <= 1024 && IsTrain(junk)
    ensures |text| <= 63 ==> ReplyOf(Frame(text) + tail, junk) == Some(text) && AfterReply(Frame(text) + tail, junk) == tail
    ensures |text| >= 64 ==> ReplyOf(Frame(text) + tail, junk) == None
  {
    hide EncodeInt, DecodeInt, CStr;
    var stream := EncodeInt(|text|) + text + tail;
    IntRoundTrip(|text|, EncodeInt(|text|));
    assert Overlaid(junk[..4], stream) == EncodeInt(|text|);
    assert Rest(stream, 4) == text + tail;
    if |text| <= 63 {
      assert Overlaid(junk[4..4 + |text|], text + tail) == text;
      CStrOfText(text);
    }
  }

  lemma FirstAnswer(env: Env, cs: seq<Credentials>, later: Bytes, junk: Bytes)
    requires cs != [] && IsTrain(junk)
    ensures ReplyOf(Answers(env, cs, later), junk) == Some(Answer(env, cs[0]))
    ensures AfterReply(Answers(env, cs, later), junk) == Answers(env, cs[1..], later)
  {
    hide ReplyOf, AfterReply, Frame;
    ReplyIsRead(Answer(env, cs[0]), Answers(env, cs[1..], later), junk);
  }

  /** The pairs that a dialogue has answered: all, but for the last when the server closes. */
  function Answered(d: Result): nat {
    if d.closedByServer && d.attempts != [] then |d.attempts| - 1 else |d.attempts|
  }

  /** The pairs sent so far are the first of those that the dialogue comes to; if the
      server closes, it has not answered the last. */
  lemma {:induction false} DialogueExtends(env: Env, input: Bytes, path: Bytes, attempts: seq<Credentials>)
    requires AllFit(attempts)
    ensures var d := Dialogue(env, input, path, attempts);
            attempts <= d.attempts && AllFit(d.attempts) && |attempts| <= Answered(d)
    decreases |input|
  {
    hide Typed, FGetsCount, Good, HasRoom, Join;
    if input != [] && AfterTyped(input, USER_SIZE) != [] {
      var user, input1 := Typed(input, USER_SIZE), AfterTyped(input, USER_SIZE);
      var password, input2 := Typed(input1, HASH_SIZE), AfterTyped(input1, HASH_SIZE);
      match env.crypt(password)
      case None => DialogueExtends(env, input2, path, attempts);
      case Some(hash) =>
        var c := Credentials(user, hash);
        if !Good(env, c) {
          DialogueExtends(env, input2, path, attempts + [c]);
        }
    }
  }

  /** What a client that meets the end of the stream from now on comes to: the very next
      pair decides, as every reply is what the uninitialised `train` holds. */
  predicate EndsByJunk(before: seq<Credentials>, r: Replay, junk: Bytes)
    requires IsTrain(junk)
  {
    && before <= r.attempts && r.left == []
    && (r.undefined <==> ReplyOf([], junk) == None)
    && (r.connected <==> ReplyOf([], junk) == Some(OK_MESSAGE))
    && (r.undefined || r.connected ==> r.attempts == before)
  }

  lemma {:induction false} FailingJunkFails(crypt: Text -> Option<Hash>, input: Bytes, junk: Bytes, attempts: seq<Credentials>)
    requires IsTrain(junk) && ReplyOf([], junk).Some? && ReplyOf([], junk).value != OK_MESSAGE
    ensures var r := Replayed(crypt, input, [], junk, attempts);
            !r.connected && !r.undefined && r.left == [] && attempts <= r.attempts
    decreases |input|
  {
    hide Typed, FGetsCount, ReplyOf;
    if input != [] && AfterTyped(input, USER_SIZE) != [] {
      var user, input1 := Typed(input, USER_SIZE), AfterTyped(input, USER_SIZE);
      var password, input2 := Typed(input1, HASH_SIZE), AfterTyped(input1, HASH_SIZE);
      assert AfterReply([], junk) == [];
      match crypt(password)
      case None => FailingJunkFails(crypt, input2, junk, attempts);
      case Some(hash) => FailingJunkFails(crypt, input2, junk, attempts + [Credentials(user, hash)]);
    }
  }

  /** The replies still to come in a dialogue of which `attempts` have been sent. */
  function RepliesFrom(env: Env, d: Result, sent: nat, later: Bytes): Bytes
    requires sent <= Answered(d)
  {
    Answers(env, d.attempts[sent..Answered(d)], if d.closedByServer then [] else later)
  }

  /** On the replies of a server the client's loop carries out the dialogue that has no
      network: the same pairs, the same outcome, nothing else read.  When the server closes
      without a reply, the uninitialised `train` decides: that and nothing else can then
      connect the client. */
  lemma {:induction false} ReplayIsDialogue(env: Env, input: Bytes, path: Bytes, attempts: seq<Credentials>,
                                            later: Bytes, junk: Bytes)
    requires IsTrain(junk) && AllFit(attempts)
    requires |attempts| <= Answered(Dialogue(env, input, path, attempts))
    ensures var d := Dialogue(env, input, path, attempts);
            var r := Replayed(env.crypt, input, RepliesFrom(env, d, |attempts|, later), junk, attempts);
            && (!d.closedByServer ==> r == Replay(d.attempts, d.connected, false, later))
            && (d.closedByServer ==> EndsByJunk(d.attempts, r, junk))
    decreases |input|
  {
    hide Typed, FGetsCount, Good, HasRoom, Join, ReplyOf, AfterReply;
    var d := Dialogue(env, input, path, attempts);
    if input != [] && AfterTyped(input, USER_SIZE) != [] {
      var user, input1 := Typed(input, USER_SIZE), AfterTyped(input, USER_SIZE);
      var password, input2 := Typed(input1, HASH_SIZE), AfterTyped(input1, HASH_SIZE);
      match env.crypt(password)
      case None => ReplayIsDialogue(env, input2, path, attempts, later, junk);
      case Some(hash) =>
        var c := Credentials(user, hash);
        if !Good(env, c) {
          DialogueExtends(env, input2, path, attempts + [c]);
          NextReply(env, d, attempts, c, later, junk);
          ReplayIsDialogue(env, input2, path, attempts + [c], later, junk);
        } else if !d.closedByServer {
          NextReply(env, d, attempts, c, later, junk);
        } else {
          LastReply(env, input2, d, attempts, c, junk);
        }
    } else {
      assert d.attempts[|attempts|..|attempts|] == [];
    }
  }

  lemma NextReply(env: Env, d: Result, attempts: seq<Credentials>, c: Credentials, later: Bytes, junk: Bytes)
    requires IsTrain(junk) && attempts + [c] <= d.attempts && |attempts + [c]| <= Answered(d)
    ensures ReplyOf(RepliesFrom(env, d, |attempts|, later), junk) == Some(Answer(env, c))
    ensures AfterReply(RepliesFrom(env, d, |attempts|, later), junk) == RepliesFrom(env, d, |attempts + [c]|, later)
    ensures Answer(env, c) == OK_MESSAGE <==> Good(env, c)
    ensures d.attempts == attempts + [c] && !d.closedByServer ==> RepliesFrom(env, d, |attempts + [c]|, later) == later
  {
    hide ReplyOf, AfterReply, Answer;
    var left := d.attempts[|attempts|..Answered(d)];
    assert left[0] == (attempts + [c])[|attempts|] == c;
    assert left[1..] == d.attempts[|attempts + [c]|..Answered(d)];
    FirstAnswer(env, left, if d.closedByServer then [] else later, junk);
  }

  lemma LastReply(env: Env, input: Bytes, d: Result, attempts: seq<Credentials>, c: Credentials, junk: Bytes)
    requires IsTrain(junk) && d.attempts == attempts + [c] && d.closedByServer
    ensures RepliesFrom(env, d, |attempts|, []) == [] && AfterReply([], junk) == []
    ensures ReplyOf([], junk).Some? && ReplyOf([], junk).value != OK_MESSAGE ==>
              EndsByJunk(d.attempts, Replayed(env.crypt, input, [], junk, d.attempts), junk)
  {
    assert d.attempts[|attempts|..|attempts|] == [];
    if ReplyOf([], junk).Some? && ReplyOf([], junk).value != OK_MESSAGE {
      FailingJunkFails(env.crypt, input, junk, d.attempts);
    }
  }
}
