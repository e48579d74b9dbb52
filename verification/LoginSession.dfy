/** The login loop of a client's session on the server (server/clientHandle.c). */
module LoginSession {
  import opened CTypes
  import opened SocketIO
  import opened Frames
  import opened Authen

  predicate Retryable(result: int) { result == AUTH_RESULT_FAIL || result == AUTH_RESULT_USER_QUERY_FAIL }

  predicate AllRetryable(results: seq<int>) { forall r | r in results :: Retryable(r) }

  /** Whether the i-th reply is lost, one `send` a reply. */
  predicate LostAt(script: seq<IoEvent>, i: nat) { i < |script| && !script[i].Chunk? }

  /** How the login loop stands: over with success or with an I/O error, still asking, or
      stopped at a length beyond a buffer. */
  datatype LoginEnd = LoggedIn | Dropped | Asking | Garbled

  /** Every result is that of its pair and its reply, and all but the last ask for
      another round: the path is the same for all of them. */
  ghost predicate LoginRan(shadow: map<Text, Text>, path: Bytes, script: seq<IoEvent>,
                     cs: seq<Credentials>, results: seq<int>)
  {
    && |cs| == |results|
    && (forall i :: 0 <= i < |cs| ==> results[i] == ResultOf(shadow, path, cs[i], LostAt(script, i)))
    && (forall i :: 0 <= i < |cs| - 1 ==> Retryable(results[i]))
  }

  /** The results by the password table: 0 for a pair of the table whose name has room and
      whose reply leaves, -1 for another hash, 1 for another name, -2 if there is no room or
      the reply is lost; and every pair but the last was turned down and told so. */
  lemma ResultsByTable(shadow: map<Text, Text>, path: Bytes, script: seq<IoEvent>,
                       cs: seq<Credentials>, results: seq<int>, i: nat)
    requires LoginRan(shadow, path, script, cs, results) && i < |cs|
    ensures var right := cs[i].user in shadow && cs[i].hash == shadow[cs[i].user];
            var room := |path| + 1 + |cs[i].user| < 1024;
            var lost := i < |script| && !script[i].Chunk?;
            && results[i] == (if lost || (right && !room) then -2 else if right then 0
                              else if cs[i].user in shadow then -1 else 1)
            && (i < |cs| - 1 ==> !right && !lost)
  {
    VerdictByTable(shadow, path, cs[i], LostAt(script, i));
  }

  /** The state of the loop follows from the results. */
  predicate EndsAs(end: LoginEnd, results: seq<int>, rounds: nat) {
    && (end.LoggedIn? <==> results != [] && results[|results| - 1] == AUTH_RESULT_OK)
    && (end.Dropped? <==> results != [] && results[|results| - 1] == AUTH_RESULT_IO_ERROR)
    && (end.Asking? ==> |results| == rounds && (results == [] || Retryable(results[|results| - 1])))
    && (end.Garbled? ==> |results| < rounds && (results == [] || Retryable(results[|results| - 1])))
  }

  /** And so does the end of the loop: the client is in exactly after a pair of the table
      with room for its name, and dropped exactly after a lost reply or for want of room. */
  lemma EndByTable(shadow: map<Text, Text>, path: Bytes, script: seq<IoEvent>,
                   cs: seq<Credentials>, results: seq<int>, rounds: nat, end: LoginEnd)
    requires LoginRan(shadow, path, script, cs, results) && EndsAs(end, results, rounds) && cs != []
    ensures var c, last := cs[|cs| - 1], |cs| - 1;
            var right := c.user in shadow && c.hash == shadow[c.user];
            var room := |path| + 1 + |c.user| < 1024;
            var lost := last < |script| && !script[last].Chunk?;
            && (end.LoggedIn? <==> right && room && !lost)
            && (end.Dropped? <==> lost || (right && !room))
            && (end.Asking? ==> |cs| == rounds)
  {
    ResultsByTable(shadow, path, script, cs, results, |cs| - 1);
  }

  /** The replies to these pairs, one after the other. */
  function RepliesTo(shadow: map<Text, Text>, path: Bytes, cs: seq<Credentials>): Bytes {
    if cs == [] then [] else RepliesTo(shadow, path, cs[..|cs| - 1]) + ReplyTo(shadow, path, cs[|cs| - 1])
  }

  lemma RepliesMore(shadow: map<Text, Text>, path: Bytes, cs: seq<Credentials>, c: Credentials)
    ensures RepliesTo(shadow, path, cs + [c]) == RepliesTo(shadow, path, cs) + ReplyTo(shadow, path, c)
  {
    assert (cs + [c])[..|cs|] == cs;
  }

  /** A pair that asks for another round was turned down, and its reply left. */
  lemma RetryMeansRejected(shadow: map<Text, Text>, path: Bytes, c: Credentials, lost: bool)
    requires Retryable(ResultOf(shadow, path, c, lost))
    ensures PathAfter(shadow, path, c) == path && ReplyTo(shadow, path, c) != [] && !lost
  {
  }

  lemma ResultsAre(shadow: map<Text, Text>, path: Bytes, c: Credentials, lost: bool)
    ensures var r := ResultOf(shadow, path, c, lost);
            Retryable(r) || r == AUTH_RESULT_OK || r == AUTH_RESULT_IO_ERROR
  {
  }

  lemma OneMoreRound(shadow: map<Text, Text>, path: Bytes, script: seq<IoEvent>,
                     cs: seq<Credentials>, results: seq<int>, c: Credentials, r: int)
    requires LoginRan(shadow, path, script, cs, results) && AllRetryable(results)
    requires r == ResultOf(shadow, path, c, LostAt(script, |cs|))
    ensures LoginRan(shadow, path, script, cs + [c], results + [r])
    ensures Retryable(r) ==> AllRetryable(results + [r])
  {
    hide ResultOf, LostAt;
  }

  lemma {:induction false} ReadsOneMore(stream: Bytes, cs: seq<Credentials>, mid: Bytes)
    requires Reads(stream, cs, mid) && Readable(mid)
    ensures Reads(stream, cs + [Decode(mid)], AfterCredentials(mid))
    decreases |cs|
  {
    if cs == [] {
      assert ([] + [Decode(mid)])[1..] == [];
    } else {
      assert (cs + [Decode(mid)])[1..] == cs[1..] + [Decode(mid)];
      ReadsOneMore(AfterCredentials(stream), cs[1..], mid);
    }
  }

  lemma NothingYet(shadow: map<Text, Text>, path: Bytes, script: seq<IoEvent>, stream: Bytes)
    ensures LoginRan(shadow, path, script, [], []) && Reads(stream, [], stream) && RepliesTo(shadow, path, []) == []
    ensures script[0..] == script
  {
  }

  /** What is left of a script after `n` calls. */
  function Remaining(script: seq<IoEvent>, n: nat): seq<IoEvent> { if n <= |script| then script[n..] else [] }

  lemma RemainingOne(script: seq<IoEvent>, n: nat)
    ensures SendLost(Remaining(script, n)) <==> LostAt(script, n)
    ensures Remaining(script, n + 1) == if Remaining(script, n) == [] then [] else Remaining(script, n)[1..]
    ensures script == [] ==> Remaining(script, n) == []
  {
  }

  /** handle_authen_event, observed for at most `rounds` calls of UserAuthen.  `cs` are the
      pairs it read, one a round.  Every result, the replies, the path and the end of the
      loop follow from these pairs and the `send`s; calls that do not fail read the pairs
      one after the other from the stream. */
  method HandleAuthenEvent(server: Server, sock: Socket, rounds: nat)
    returns (end: LoginEnd, results: seq<int>, ghost cs: seq<Credentials>)
    requires server.Valid()
    modifies sock, server.clientPath
    ensures server.Valid() && |results| <= rounds && EndsAs(end, results, rounds)
    ensures LoginRan(server.shadow, old(server.Path()), old(sock.sendScript), cs, results)
    ensures server.Path() == Logins(old(server.Path()), AcceptedUsers(server.shadow, cs))
    ensures old(sock.sendScript) == [] ==>
              sock.outgoing == old(sock.outgoing) + RepliesTo(server.shadow, old(server.Path()), cs)
    ensures Failed !in old(sock.recvScript) ==>
              && Failed !in sock.recvScript
              && (!end.Garbled? ==> Reads(old(sock.incoming), cs, sock.incoming))
              && (end.Garbled? ==> exists mid :: Reads(old(sock.incoming), cs, mid) && !Readable(mid))
  {
    hide Reads, Readable, LoginRan, LostAt, SendLost, ResultOf, ReplyTo, PathAfter, RepliesTo, Logins, AcceptedUsers,
         Decode, AfterCredentials, Fits, Remaining;
    ghost var path, script, stream := server.Path(), sock.sendScript, sock.incoming;
    ghost var clean := Failed !in sock.recvScript;
    results, cs, end := [], [], Asking;
    NothingYet(server.shadow, path, script, stream);
    NobodyAccepted(server.shadow, path);
    RemainingNone(script);
    while |results| < rounds && end.Asking?
      invariant server.Valid() && |results| <= rounds && |results| == |cs|
      invariant end.Asking? ==> AllRetryable(results) && server.Path() == path && sock.sendScript == Remaining(script, |results|)
      invariant !end.Asking? ==> EndsAs(end, results, rounds)
      invariant !end.Garbled?
      invariant LoginRan(server.shadow, path, script, cs, results)
      invariant server.Path() == Logins(path, AcceptedUsers(server.shadow, cs))
      invariant script == [] ==> sock.outgoing == old(sock.outgoing) + RepliesTo(server.shadow, path, cs)
      invariant clean ==> Failed !in sock.recvScript && Reads(stream, cs, sock.incoming)
      decreases rounds - |results|, end.Asking?
    {
      RemainingOne(script, |results|);
      LastOfRetryable(results);
      ghost var before := sock.incoming;
      var authRet, undefined, c, sent := server.UserAuthen(sock);
      if undefined {
        assert clean ==> !Readable(before);
        end := Garbled;
        return;
      }
      if clean { ReadsOneMore(stream, cs, before); }
      OneMoreRound(server.shadow, path, script, cs, results, c, authRet);
      PathAfterOneMore(server.shadow, path, cs, c);
      RepliesMore(server.shadow, path, cs, c);
      if script == [] {
        assert ReplyTo(server.shadow, path, c)[..sent] == ReplyTo(server.shadow, path, c);
        Associative(old(sock.outgoing), RepliesTo(server.shadow, path, cs), ReplyTo(server.shadow, path, c));
      }
      ResultsAre(server.shadow, path, c, LostAt(script, |results|));
      if authRet != AUTH_RESULT_OK && authRet != AUTH_RESULT_IO_ERROR {
        RetryMeansRejected(server.shadow, path, c, LostAt(script, |results|));
      }
      results, cs := results + [authRet], cs + [c];
      if authRet == AUTH_RESULT_OK {
        end := LoggedIn;
      } else if authRet != AUTH_RESULT_FAIL && authRet != AUTH_RESULT_USER_QUERY_FAIL {
        end := Dropped;
      }
    }
    if end.Asking? { LastOfRetryable(results); }
  }

  lemma LastOfRetryable(results: seq<int>)
    requires AllRetryable(results)
    ensures results == [] || Retryable(results[|results| - 1])
  {
    assert results != [] ==> results[|results| - 1] in results;
  }

  lemma RemainingNone(script: seq<IoEvent>)
    ensures Remaining(script, 0) == script
  {
  }

  // ---------- on the stream of a client ----------

  lemma {:induction false} EncodeAllSplits(cs: seq<Credentials>, k: nat)
    requires k < |cs| && forall c | c in cs :: Fits(c)
    ensures EncodeAll(cs[k..]) == Encode(cs[k]) + EncodeAll(cs[k + 1..])
  {
    assert cs[k..][0] == cs[k] && cs[k..][1..] == cs[k + 1..];
  }

  /** Reading the stream of a client, whatever follows it, yields the pairs it sent, in
      order, and stops at a boundary. */
  lemma {:induction false} ReadsWhatWasSent(sent: seq<Credentials>, k: nat, later: Bytes, cs: seq<Credentials>, mid: Bytes)
    requires (forall c | c in sent :: Fits(c)) && k + |cs| <= |sent|
    requires Reads(EncodeAll(sent[k..]) + later, cs, mid)
    ensures cs == sent[k..k + |cs|] && mid == EncodeAll(sent[k + |cs|..]) + later
    decreases |cs|
  {
    hide Encode, Readable, Decode, AfterCredentials;
    if cs != [] {
      PairInFront(sent, k, later);
      ReadsWhatWasSent(sent, k + 1, later, cs[1..], mid);
      assert cs == [cs[0]] + cs[1..] && sent[k..k + |cs|] == [sent[k]] + sent[k + 1..k + |cs|];
    }
  }

  lemma PairInFront(sent: seq<Credentials>, k: nat, later: Bytes)
    requires (forall c | c in sent :: Fits(c)) && k < |sent|
    ensures var stream := EncodeAll(sent[k..]) + later;
            Readable(stream) && Decode(stream) == sent[k] && AfterCredentials(stream) == EncodeAll(sent[k + 1..]) + later
  {
    hide Encode, Readable, Decode, AfterCredentials;
    EncodeAllSplits(sent, k);
    assert EncodeAll(sent[k..]) + later == Encode(sent[k]) + (EncodeAll(sent[k + 1..]) + later);
    CredentialsDecode(sent[k], EncodeAll(sent[k + 1..]) + later);
  }

  /** However often the server reads on after the client's last pair and the end of its
      stream, it never meets a length beyond its buffers. */
  lemma {:induction false} EndOfStreamReads(cs: seq<Credentials>, mid: Bytes)
    requires Reads([], cs, mid)
    ensures mid == [] && Readable(mid) && forall i :: 0 <= i < |cs| ==> cs[i] == NOBODY
    decreases |cs|
  {
    hide Readable, Decode, AfterCredentials;
    EndOfStreamReadsAsEmpty([]);
    if cs != [] {
      EndOfStreamReads(cs[1..], mid);
      assert forall i :: 1 <= i < |cs| ==> cs[i] == cs[1..][i - 1];
    }
  }

  lemma {:induction false} ReadsInTwo(stream: Bytes, cs: seq<Credentials>, k: nat, mid: Bytes) returns (between: Bytes)
    requires k <= |cs| && Reads(stream, cs, mid)
    ensures Reads(stream, cs[..k], between) && Reads(between, cs[k..], mid)
    decreases k
  {
    if k == 0 {
      between := stream;
      assert cs[..0] == [] && cs[0..] == cs;
    } else {
      between := ReadsInTwo(AfterCredentials(stream), cs[1..], k - 1, mid);
      assert cs[..k][1..] == cs[1..][..k - 1] && cs[1..][k - 1..] == cs[k..];
    }
  }

  lemma ClientStreamsAreReadable(sent: seq<Credentials>, cs: seq<Credentials>, mid: Bytes)
    requires (forall c | c in sent :: Fits(c)) && Reads(EncodeAll(sent), cs, mid)
    ensures Readable(mid)
  {
    hide Reads, Encode, EncodeAll, Readable, Decode, AfterCredentials;
    var k := if |cs| <= |sent| then |cs| else |sent|;
    var between := ReadsInTwo(EncodeAll(sent), cs, k, mid);
    assert sent[0..] == sent && EncodeAll(sent) + [] == EncodeAll(sent);
    ReadsWhatWasSent(sent, 0, [], cs[..k], between);
    if k < |sent| {
      ReadsNothing(between, cs[k..], mid);
      PairInFront(sent, k, []);
    } else {
      NothingIsLeft(sent, k);
      EndOfStreamReads(cs[k..], mid);
    }
  }

  lemma ReadsNothing(stream: Bytes, cs: seq<Credentials>, mid: Bytes)
    requires cs == [] && Reads(stream, cs, mid)
    ensures mid == stream
  {
  }

  lemma NothingIsLeft(sent: seq<Credentials>, k: nat)
    requires k == |sent|
    ensures EncodeAll(sent[k..]) + [] == []
  {
    assert sent[k..] == [];
  }

  /** A client that has closed without a word: the server goes on judging the empty pair,
      and its loop is over exactly when that pair is right or a reply is lost. */
  method ServeDisconnected(server: Server, sock: Socket, rounds: nat) returns (end: LoginEnd)
    requires server.Valid() && sock.incoming == [] && Failed !in sock.recvScript
    modifies sock, server.clientPath
    ensures !end.Garbled?
    ensures !end.Asking? <==>
              rounds > 0 && (([] in server.shadow && server.shadow[[]] == [])
                             || exists i: nat :: i < rounds && LostAt(old(sock.sendScript), i))
  {
    hide Reads, Readable, Logins, AcceptedUsers, RepliesTo;
    ghost var path, script := server.Path(), sock.sendScript;
    ghost var cs, results;
    end, results, cs := HandleAuthenEvent(server, sock, rounds);
    if end.Garbled? {
      ghost var mid :| Reads([], cs, mid) && !Readable(mid);
      EndOfStreamReads(cs, mid);
    } else {
      EndOfStreamReads(cs, sock.incoming);
      EmptyPairsEnd(server.shadow, path, script, cs, results, rounds, end);
    }
  }

  lemma EmptyPairsEnd(shadow: map<Text, Text>, path: Bytes, script: seq<IoEvent>,
                      cs: seq<Credentials>, results: seq<int>, rounds: nat, end: LoginEnd)
    requires LoginRan(shadow, path, script, cs, results) && EndsAs(end, results, rounds) && |results| <= rounds
    requires !end.Garbled? && forall i :: 0 <= i < |cs| ==> cs[i] == NOBODY
    ensures !end.Asking? <==>
              rounds > 0 && (([] in shadow && shadow[[]] == [])
                             || exists i: nat :: i < rounds && LostAt(script, i))
  {
    if results != [] {
      var last := |results| - 1;
      assert results[last] == ResultOf(shadow, path, NOBODY, LostAt(script, last));
      if !end.Asking? {
        assert LostAt(script, last) || ([] in shadow && shadow[[]] == []);
      } else {
        forall i: nat | i < rounds
          ensures !LostAt(script, i)
        {
          assert results[i] == ResultOf(shadow, path, NOBODY, LostAt(script, i)) && Retryable(results[i]);
        }
      }
    }
  }
}
