/** The two halves of a login put together: the server's login loop, fed with the pairs of
    a dialogue, sends the answers and leaves the path that the client's loop, fed with
    those answers, makes of the same dialogue. */
module LoginHalves {
  import opened CTypes
  import opened SocketIO
  import opened Frames
  import opened Authen
  import opened LoginProtocol
  import opened ClientLogin
  import opened LoginSession

  lemma {:induction false} AnswersMore(env: Env, cs: seq<Credentials>, c: Credentials)
    ensures Answers(env, cs + [c], []) == Answers(env, cs, []) + Frame(Answer(env, c))
  {
    hide Answer, Frame;
    if cs == [] {
      assert [] + [c] == [c] && [c][1..] == [];
    } else {
      assert (cs + [c])[1..] == cs[1..] + [c];
      AnswersMore(env, cs[1..], c);
    }
  }

  /** The pairs of one dialogue: only the last can be right. */
  predicate OfOneDialogue(env: Env, cs: seq<Credentials>) {
    AllFit(cs) && forall i :: 0 <= i < |cs| - 1 ==> !Good(env, cs[i])
  }

  /** How many of them get an answer: a right pair whose name does not fit gets none. */
  function AnsweredPairs(env: Env, path: Bytes, cs: seq<Credentials>): (n: nat)
    ensures n <= |cs|
  {
    if cs != [] && Good(env, cs[|cs| - 1]) && !HasRoom(path, cs[|cs| - 1].user) then |cs| - 1 else |cs|
  }

  lemma {:induction false} RejectedReplies(env: Env, path: Bytes, cs: seq<Credentials>)
    requires AllRejected(env, cs)
    ensures RepliesTo(env.shadow, path, cs) == Answers(env, cs, [])
  {
    if cs != [] {
      var init, last := cs[..|cs| - 1], cs[|cs| - 1];
      assert forall i | 0 <= i < |init| :: init[i] == cs[i];
      RejectedReplies(env, path, init);
      assert cs == init + [last] && !Good(env, last);
      AnswersMore(env, init, last);
      RepliesMore(env.shadow, path, init, last);
    }
  }

  /** The server's replies to the pairs of a dialogue are the answers the client awaits. */
  lemma RepliesAreAnswers(env: Env, path: Bytes, cs: seq<Credentials>)
    requires OfOneDialogue(env, cs)
    ensures RepliesTo(env.shadow, path, cs) == Answers(env, cs[..AnsweredPairs(env, path, cs)], [])
  {
    if cs == [] {
      assert cs[..0] == [];
    } else {
      var init, last := cs[..|cs| - 1], cs[|cs| - 1];
      assert cs == init + [last] && cs[..|cs|] == cs;
      RejectedReplies(env, path, init);
      AnswersMore(env, init, last);
      RepliesMore(env.shadow, path, init, last);
    }
  }

  /** The loop has judged pairs of a dialogue in order.  If it is over, or out of rounds, it
      has judged them all, and how it ended follows from the last. */
  lemma LoopEnds(env: Env, path: Bytes, cs: seq<Credentials>, end: LoginEnd, results: seq<int>, taken: seq<Credentials>)
    requires OfOneDialogue(env, cs) && EndsAs(end, results, |cs|) && |results| <= |cs|
    requires LoginRan(env.shadow, path, [], taken, results) && taken == cs[..|taken|]
    ensures end.Garbled? ==> |taken| < |cs|
    ensures !end.Garbled? ==>
              |taken| == |cs|
              && end == if cs == [] || !Good(env, cs[|cs| - 1]) then Asking
                        else if HasRoom(path, cs[|cs| - 1].user) then LoggedIn else Dropped
  {
    hide HasRoom, AuthenticateUser, ResultOf, ReplyTo, Fits;
    if results != [] {
      var last := |results| - 1;
      assert results[last] == ResultOf(env.shadow, path, cs[last], LostAt([], last));
      LastResult(env, path, cs[last]);
    }
  }

  /** What the loop has read of a client's stream are the first pairs on it. */
  lemma LoopTakesAll(env: Env, path: Bytes, cs: seq<Credentials>, later: Bytes,
                     end: LoginEnd, results: seq<int>, taken: seq<Credentials>, mid: Bytes)
    requires OfOneDialogue(env, cs) && |results| <= |cs| && EndsAs(end, results, |cs|)
    requires LoginRan(env.shadow, path, [], taken, results)
    requires Reads(EncodeAll(cs) + later, taken, mid)
    ensures end.Garbled? ==> Readable(mid)
    ensures !end.Garbled? ==> taken == cs && mid == later
    ensures !end.Garbled? ==>
              end == if cs == [] || !Good(env, cs[|cs| - 1]) then Asking
                     else if HasRoom(path, cs[|cs| - 1].user) then LoggedIn else Dropped
  {
    hide Reads, Encode, EncodeAll, Readable, HasRoom, Good, EndsAs, ResultOf, LostAt;
    assert cs[0..] == cs;
    ReadsWhatWasSent(cs, 0, later, taken, mid);
    assert cs[0..0 + |taken|] == cs[..|taken|];
    LoopEnds(env, path, cs, end, results, taken);
    if end.Garbled? {
      PairInFront(cs, |taken|, later);
    } else {
      assert cs[..|cs|] == cs;
      NothingLeft(cs, later);
    }
  }

  lemma LastResult(env: Env, path: Bytes, c: Credentials)
    ensures var r := ResultOf(env.shadow, path, c, false);
            && (!Good(env, c) <==> Retryable(r))
            && (r == AUTH_RESULT_OK <==> Good(env, c) && HasRoom(path, c.user))
            && (r == AUTH_RESULT_IO_ERROR <==> Good(env, c) && !HasRoom(path, c.user))
  {
  }

  lemma NothingLeft(cs: seq<Credentials>, later: Bytes)
    ensures EncodeAll(cs[|cs|..]) + later == later
  {
    assert cs[|cs|..] == [];
  }

  /** The server's handle_authen_event on the pairs of one dialogue, allowed as many rounds
      as there are pairs: it answers them in order, ends as the last one demands, and the
      path is the fold of the accepted names. */
  method ServeDialogue(server: Authen.Server, sock: Socket, env: Env, cs: seq<Credentials>, ghost later: Bytes)
    returns (end: LoginEnd)
    requires server.Valid() && server.shadow == env.shadow && OfOneDialogue(env, cs)
    requires Failed !in sock.recvScript && sock.sendScript == []
    requires sock.incoming == EncodeAll(cs) + later
    modifies sock, server.clientPath
    ensures server.Valid() && sock.incoming == later
    ensures sock.outgoing
         == old(sock.outgoing) + Answers(env, cs[..AnsweredPairs(env, old(server.Path()), cs)], [])
    ensures server.Path() == Logins(old(server.Path()), AcceptedUsers(env.shadow, cs))
    ensures end == if cs == [] || !Good(env, cs[|cs| - 1]) then Asking
                   else if HasRoom(old(server.Path()), cs[|cs| - 1].user) then LoggedIn else Dropped
  {
    hide EncodeAll, Logins, AcceptedUsers, RepliesTo, Answers, LoginRan, Reads, Readable, Good, HasRoom,
         AnsweredPairs, EndsAs, LostAt;
    ghost var path := server.Path();
    ghost var taken;
    var results;
    end, results, taken := LoginSession.HandleAuthenEvent(server, sock, |cs|);
    if end.Garbled? {
      ghost var mid :| Reads(EncodeAll(cs) + later, taken, mid) && !Readable(mid);
      LoopTakesAll(env, path, cs, later, end, results, taken, mid);
    } else {
      LoopTakesAll(env, path, cs, later, end, results, taken, sock.incoming);
      RepliesAreAnswers(env, path, cs);
    }
  }

  lemma {:induction false} NobodyRight(env: Env, cs: seq<Credentials>)
    requires AllRejected(env, cs)
    ensures AcceptedUsers(env.shadow, cs) == []
  {
    if cs != [] {
      NobodyRight(env, cs[..|cs| - 1]);
      assert !Good(env, cs[|cs| - 1]);
    }
  }

  lemma AcceptedNobody(shadow: map<Text, Text>)
    ensures AcceptedUsers(shadow, []) == []
  {
  }

  /** A dialogue is one for the server's loop, and its path is the fold of the accepted
      names, even when the server closes for want of room. */
  lemma {:induction false} DialogueIsServed(env: Env, input: Bytes, path: Bytes, attempts: seq<Credentials>)
    requires AllRejected(env, attempts) && AllFit(attempts)
    ensures var d := Dialogue(env, input, path, attempts);
            && d.path == Logins(path, AcceptedUsers(env.shadow, d.attempts))
            && OfOneDialogue(env, d.attempts) && AnsweredPairs(env, path, d.attempts) == Answered(d)
    decreases |input|
  {
    hide Typed, FGetsCount, AuthenticateUser, Join, HasRoom, AcceptedUsers, Logins;
    NobodyRight(env, attempts);
    NobodyAccepted(env.shadow, path);
    AcceptedNobody(env.shadow);
    if input != [] && AfterTyped(input, USER_SIZE) != [] {
      var user, input1 := Typed(input, USER_SIZE), AfterTyped(input, USER_SIZE);
      var password, input2 := Typed(input1, HASH_SIZE), AfterTyped(input1, HASH_SIZE);
      match env.crypt(password)
      case None => DialogueIsServed(env, input2, path, attempts);
      case Some(hash) =>
        var c := Credentials(user, hash);
        PathAfterOneMore(env.shadow, path, attempts, c);
        if !Good(env, c) {
          DialogueIsServed(env, input2, path, attempts + [c]);
        }
    }
  }

  /** The two programs and the dialogue agree: fed with the pairs the client sends, the
      server sends the answers that make the client send those pairs; the client ends up
      connected exactly when the dialogue is, or, when the server closes for want of room,
      as its uninitialised `train` has it; and the global path is the dialogue's.  By the
      keyboard and the table alone: a client that types a pair of the table, none before
      it, is connected if its name has room; one that types none is not. */
  method LogIn(g: ClientState, client: Socket, server: Authen.Server, peer: Socket,
               env: Env, input: Bytes, path: Bytes, junk: Bytes, later: Bytes)
    returns (r: int, undefined: bool)
    requires server.Valid() && server.Path() == path && server.shadow == env.shadow && client != peer
    requires IsTrain(junk) && !g.isConnected
    requires OnlyChunks(client.recvScript) && Failed !in client.sendScript && client.outgoing == []
    requires Failed !in peer.recvScript && peer.sendScript == [] && peer.outgoing == []
    modifies g, client, peer, server.clientPath
    ensures r == 0 <==> g.isConnected
    ensures var cs := TypedPairs(env.crypt, input);
            var k := FirstRight(env.shadow, cs);
            && (k == |cs| ==>
                 && !undefined && !g.isConnected && server.Path() == path
                 && client.outgoing == EncodeAll(cs))
            && (k < |cs| && |path| + 1 + |cs[k].user| < 1024 ==>
                 && !undefined && g.isConnected && client.outgoing == EncodeAll(cs[..k + 1])
                 && server.Path() == (if path != [] && path[|path| - 1] == '/' then path + cs[k].user
                                      else path + "/" + cs[k].user))
            && (k < |cs| && |path| + 1 + |cs[k].user| >= 1024 ==> server.Path() == path)
    ensures var d := Dialogue(env, input, path, []);
            && AllFit(d.attempts) && peer.incoming == later && client.incoming == []
            && peer.outgoing == Answers(env, d.attempts[..Answered(d)], [])
            && server.Valid() && server.Path() == d.path
            && EncodeAll(d.attempts) <= client.outgoing
            && (!d.closedByServer ==>
                 !undefined && g.isConnected == d.connected && client.outgoing == EncodeAll(d.attempts))
            && (d.closedByServer ==>
                 && (undefined <==> ReplyOf([], junk) == None)
                 && (g.isConnected <==> ReplyOf([], junk) == Some(OK_MESSAGE)))
  {
    hide Dialogue, Replayed, OfOneDialogue, AnsweredPairs, Logins, AcceptedUsers, Answers, EncodeAll, OnlyChunks, ReplyOf,
         TypedPairs, FirstRight, DecidedByTable;
    DialogueByTable(env, input, path, []);
    var d := Dialogue(env, input, path, []);
    TableSays(env.shadow, TypedPairs(env.crypt, input), path, d);
    DialogueIsServed(env, input, path, []);
    DialogueExtends(env, input, path, []);
    peer.incoming := EncodeAll(d.attempts) + later;
    var end := ServeDialogue(server, peer, env, d.attempts, later);
    assert [] + peer.outgoing == peer.outgoing;
    client.incoming := peer.outgoing;
    AllReplies(env, d);
    ReplayIsDialogue(env, input, path, [], [], junk);
    ghost var replay := Replayed(env.crypt, input, client.incoming, junk, []);
    ReplayFits(env.crypt, input, client.incoming, junk, []);
    assert client.incoming == RepliesFrom(env, d, 0, []);
    PrefixEncodes(d.attempts, replay.attempts);
    r, undefined := ClientLogin.HandleAuthenEvent(g, client, env.crypt, input, junk);
  }

  lemma TableSays(shadow: map<Text, Text>, cs: seq<Credentials>, path: Bytes, d: Result)
    requires DecidedByTable(shadow, cs, path, [], d)
    ensures var k := FirstRight(shadow, cs);
            && (k == |cs| ==> !d.closedByServer && !d.connected && d.path == path && d.attempts == cs)
            && (k < |cs| && |path| + 1 + |cs[k].user| < 1024 ==>
                 && !d.closedByServer && d.connected && d.attempts == cs[..k + 1]
                 && d.path == (if path != [] && path[|path| - 1] == '/' then path + cs[k].user
                               else path + "/" + cs[k].user))
            && (k < |cs| && |path| + 1 + |cs[k].user| >= 1024 ==> d.closedByServer && d.path == path)
  {
    hide FirstRight;
    assert [] + cs == cs;
  }

  lemma AllReplies(env: Env, d: Result)
    ensures RepliesFrom(env, d, 0, []) == Answers(env, d.attempts[..Answered(d)], [])
  {
  }

  lemma {:induction false} PrefixEncodes(a: seq<Credentials>, b: seq<Credentials>)
    requires a <= b && AllFit(b)
    ensures AllFit(a) && EncodeAll(a) <= EncodeAll(b)
  {
    if a != [] {
      assert a[0] == b[0] && a[1..] <= b[1..];
      PrefixEncodes(a[1..], b[1..]);
    }
  }
}
