/** A client's session on the server (server/clientHandle.c): the login, then the command
    loop, with every descriptor that is opened and closed on the way. */
module Session {
  import opened CTypes
  import opened SocketIO
  import opened Frames
  import opened Authen
  import opened LoginSession
  import opened Command
  import opened CmdHandle

  /** What a session does that can be seen from outside, in order. */
  datatype Effect =
    | Authenticated(fd: int, result: int)            // UserAuthen returned
    | Opened(fd: int)                                // epoll_create
    | Parsed(fd: int, packet: Packet)                // cmdParse
    | Closed(fd: int)

  /** What one epoll_wait reports. */
  datatype Wait = Ready(fds: seq<int>) | WaitInterrupted | WaitFailed

  /** A session is still running, has returned, or was ended with the process by a handler
      (or stopped at a memory error). */
  datatype Fate = Running | Finished | Died

  // ---------- traces ----------

  function AuthEffects(fd: int, results: seq<int>): (t: seq<Effect>)
    ensures |t| == |results|
  {
    seq(|results|, i requires 0 <= i < |results| => Authenticated(fd, results[i]))
  }

  function ParseEffects(fd: int, packets: seq<Packet>): (t: seq<Effect>)
    ensures |t| == |packets|
  {
    seq(|packets|, i requires 0 <= i < |packets| => Parsed(fd, packets[i]))
  }

  function Opening(epfd: Option<int>): seq<Effect> { if epfd.Some? then [Opened(epfd.value)] else [] }

  function Closing(fd: int, epfd: Option<int>, over: bool): seq<Effect> {
    if !over then [] else if epfd.Some? then [Closed(epfd.value), Closed(fd)] else [Closed(fd)]
  }

  /** The trace of a session: the login, the epoll descriptor if one was opened, the
      commands, and, once it is over, the closes. */
  function Trace(fd: int, results: seq<int>, epfd: Option<int>, packets: seq<Packet>, over: bool): seq<Effect> {
    AuthEffects(fd, results) + Opening(epfd) + ParseEffects(fd, packets) + Closing(fd, epfd, over)
  }

  /** Every command is parsed after a login that ended in OK. */
  ghost predicate Gated(t: seq<Effect>, fd: int) {
    forall i :: 0 <= i < |t| && t[i].Parsed? ==>
      t[i].fd == fd && exists j :: 0 <= j < i && t[j] == Authenticated(fd, AUTH_RESULT_OK)
  }

  /** When it is over the client's descriptor is closed exactly once, last of all, and any
      other descriptor as often as it was opened; until then the client's stays open. */
  ghost predicate Released(t: seq<Effect>, fd: int, over: bool) {
    && multiset(t)[Closed(fd)] == (if over then 1 else 0)
    && (over ==> t != [] && t[|t| - 1] == Closed(fd))
    && (over ==> forall e: int :: e != fd ==> multiset(t)[Closed(e)] == multiset(t)[Opened(e)])
    && (forall e: int :: multiset(t)[Opened(e)] <= 1)
  }

  lemma TraceIsGated(fd: int, results: seq<int>, epfd: Option<int>, packets: seq<Packet>, over: bool)
    requires packets != [] ==> results != [] && results[|results| - 1] == AUTH_RESULT_OK
    ensures Gated(Trace(fd, results, epfd, packets, over), fd)
  {
    var t := Trace(fd, results, epfd, packets, over);
    if packets != [] {
      assert t[|results| - 1] == Authenticated(fd, AUTH_RESULT_OK);
    }
  }

  /** Only the opening and the closing parts of a trace open or close anything. */
  lemma OnlyEndsCount(fd: int, results: seq<int>, packets: seq<Packet>,
                      o: seq<Effect>, c: seq<Effect>, x: Effect)
    requires x.Opened? || x.Closed?
    ensures multiset(AuthEffects(fd, results) + o + ParseEffects(fd, packets) + c)[x] == multiset(o)[x] + multiset(c)[x]
  {
    assert x !in AuthEffects(fd, results) && x !in ParseEffects(fd, packets);
  }

  lemma TraceCounts(fd: int, results: seq<int>, epfd: Option<int>, packets: seq<Packet>, over: bool, e: int)
    ensures var t := multiset(Trace(fd, results, epfd, packets, over));
            && t[Closed(e)] == multiset(Closing(fd, epfd, over))[Closed(e)]
            && t[Opened(e)] == multiset(Opening(epfd))[Opened(e)]
  {
    hide AuthEffects, ParseEffects;
    OnlyEndsCount(fd, results, packets, Opening(epfd), Closing(fd, epfd, over), Closed(e));
    OnlyEndsCount(fd, results, packets, Opening(epfd), Closing(fd, epfd, over), Opened(e));
  }

  lemma EndsCount(fd: int, epfd: Option<int>, over: bool, e: int)
    requires epfd != Some(fd)
    ensures multiset(Opening(epfd))[Opened(e)] == (if epfd == Some(e) then 1 else 0)
    ensures multiset(Closing(fd, epfd, over))[Closed(e)] == (if over && (e == fd || epfd == Some(e)) then 1 else 0)
  {
    if over && epfd.Some? {
      assert multiset(Closing(fd, epfd, over)) == multiset{Closed(epfd.value), Closed(fd)};
    }
  }

  lemma LastIsClose(fd: int, results: seq<int>, epfd: Option<int>, packets: seq<Packet>)
    ensures var t := Trace(fd, results, epfd, packets, true); t != [] && t[|t| - 1] == Closed(fd)
  {
    hide AuthEffects, ParseEffects;
  }

  lemma TraceIsReleased(fd: int, results: seq<int>, epfd: Option<int>, packets: seq<Packet>, over: bool)
    requires epfd != Some(fd)
    ensures Released(Trace(fd, results, epfd, packets, over), fd, over)
  {
    hide Trace, Opening, Closing;
    forall e: int
      ensures multiset(Trace(fd, results, epfd, packets, over))[Opened(e)] == (if epfd == Some(e) then 1 else 0)
      ensures multiset(Trace(fd, results, epfd, packets, over))[Closed(e)]
           == (if over && (e == fd || epfd == Some(e)) then 1 else 0)
    {
      TraceCounts(fd, results, epfd, packets, over, e);
      EndsCount(fd, epfd, over, e);
    }
    LastIsClose(fd, results, epfd, packets);
  }

  /** The commands that a trace parses, in order. */
  function PacketsOf(t: seq<Effect>): seq<Packet> {
    if t == [] then []
    else PacketsOf(t[..|t| - 1]) + (if t[|t| - 1].Parsed? then [t[|t| - 1].packet] else [])
  }

  lemma {:induction false} PacketsOfConcat(t: seq<Effect>, u: seq<Effect>)
    ensures PacketsOf(t + u) == PacketsOf(t) + PacketsOf(u)
  {
    if u == [] {
      assert t + u == t;
    } else {
      assert (t + u)[..|t + u| - 1] == t + u[..|u| - 1];
      PacketsOfConcat(t, u[..|u| - 1]);
    }
  }

  lemma {:induction false} PacketsOfAuth(fd: int, results: seq<int>)
    ensures PacketsOf(AuthEffects(fd, results)) == []
  {
    if results != [] {
      assert AuthEffects(fd, results)[..|results| - 1] == AuthEffects(fd, results[..|results| - 1]);
      PacketsOfAuth(fd, results[..|results| - 1]);
    }
  }

  lemma {:induction false} PacketsOfParse(fd: int, packets: seq<Packet>)
    ensures PacketsOf(ParseEffects(fd, packets)) == packets
  {
    if packets != [] {
      assert ParseEffects(fd, packets)[..|packets| - 1] == ParseEffects(fd, packets[..|packets| - 1]);
      PacketsOfParse(fd, packets[..|packets| - 1]);
    }
  }

  lemma PacketsOfEnds(fd: int, epfd: Option<int>, over: bool)
    ensures PacketsOf(Opening(epfd)) == [] && PacketsOf(Closing(fd, epfd, over)) == []
  {
    PacketsOfConcat([Closed(if epfd.Some? then epfd.value else fd)], [Closed(fd)]);
  }

  lemma AuthInFront(fd: int, results: seq<int>, more: seq<Effect>)
    ensures var t := AuthEffects(fd, results) + more;
            |results| <= |t| && forall i :: 0 <= i < |results| ==> t[i] == Authenticated(fd, results[i])
  {
  }

  lemma TraceParses(fd: int, results: seq<int>, epfd: Option<int>, packets: seq<Packet>, over: bool)
    ensures PacketsOf(Trace(fd, results, epfd, packets, over)) == packets
    ensures var t := Trace(fd, results, epfd, packets, over);
            |results| <= |t| && forall i :: 0 <= i < |results| ==> t[i] == Authenticated(fd, results[i])
  {
    AuthInFront(fd, results, Opening(epfd) + ParseEffects(fd, packets) + Closing(fd, epfd, over));
    hide PacketsOf, AuthEffects, ParseEffects, Opening, Closing;
    var a, p := AuthEffects(fd, results), ParseEffects(fd, packets);
    var o, c := Opening(epfd), Closing(fd, epfd, over);
    PacketsOfAuth(fd, results);
    PacketsOfParse(fd, packets);
    PacketsOfEnds(fd, epfd, over);
    PacketsOfConcat(a, o);
    PacketsOfConcat(a + o, p);
    PacketsOfConcat(a + o + p, c);
  }

  // ---------- the command loop ----------

  function Count(fds: seq<int>, fd: int): nat {
    if fds == [] then 0 else Count(fds[..|fds| - 1], fd) + (if fds[|fds| - 1] == fd then 1 else 0)
  }

  /** How often the waits report the client, up to the first that fails. */
  function Readies(waits: seq<Wait>, fd: int): nat {
    if waits == [] then 0
    else
      var before, last := waits[..|waits| - 1], waits[|waits| - 1];
      Readies(before, fd) + (if WaitFailed !in before && last.Ready? then Count(last.fds, fd) else 0)
  }

  /** What becomes of a session after its turns: a handler may have ended it, less than a
      packet may have been left for the last turn, or a wait may have failed. */
  function FateOf(s: Serving, turns: nat, waits: seq<Wait>): Fate {
    if !s.end.Continues? then Died
    else if |s.packets| < turns || WaitFailed in waits then Finished
    else Running
  }

  lemma OneMoreFd(fds: seq<int>, i: nat, fd: int)
    requires i < |fds|
    ensures Count(fds[..i + 1], fd) == Count(fds[..i], fd) + (if fds[i] == fd then 1 else 0)
  {
    assert fds[..i + 1][..i] == fds[..i];
  }

  lemma {:induction false} CountGrows(fds: seq<int>, i: nat, fd: int)
    requires i <= |fds|
    ensures Count(fds[..i], fd) <= Count(fds, fd)
    decreases |fds| - i
  {
    if i == |fds| {
      assert fds[..i] == fds;
    } else {
      OneMoreFd(fds, i, fd);
      CountGrows(fds, i + 1, fd);
    }
  }

  lemma OneMoreWait(waits: seq<Wait>, i: nat, fd: int)
    requires i < |waits| && WaitFailed !in waits[..i]
    ensures Readies(waits[..i + 1], fd)
         == Readies(waits[..i], fd) + (if waits[i].Ready? then Count(waits[i].fds, fd) else 0)
    ensures !waits[i].WaitFailed? ==> WaitFailed !in waits[..i + 1]
  {
    assert waits[..i + 1][..i] == waits[..i];
  }

  lemma {:induction false} ReadiesGrow(waits: seq<Wait>, i: nat, fd: int)
    requires i <= |waits|
    ensures Readies(waits[..i], fd) <= Readies(waits, fd)
    ensures WaitFailed in waits[..i] ==> Readies(waits[..i], fd) == Readies(waits, fd) && WaitFailed in waits
    decreases |waits| - i
  {
    if i == |waits| {
      assert waits[..i] == waits;
    } else {
      assert waits[..i + 1][..i] == waits[..i];
      ReadiesGrow(waits, i + 1, fd);
    }
  }

  /** The turns so far, when none has been the last: `packets` are the commands handled. */
  ghost predicate Served(stream: Bytes, moments: Moments, packets: seq<Packet>, now: Bytes) {
    var s := Serve(stream, |packets|, moments);
    s.end.Continues? && s.packets == packets && s.left == now
  }

  /** And when the last has been: no turn after it would do anything. */
  ghost predicate Ended(stream: Bytes, moments: Moments, packets: seq<Packet>, turns: nat, fate: Fate) {
    forall n :: n >= turns ==>
      var s := Serve(stream, n, moments);
      s.packets == packets && (if fate.Died? then !s.end.Continues? else s.end.Continues? && |packets| < turns)
  }

  lemma ShortMeansEnded(stream: Bytes, moments: Moments, packets: seq<Packet>, now: Bytes)
    requires Served(stream, moments, packets, now) && |now| < PACKET_SIZE
    ensures Ended(stream, moments, packets, |packets| + 1, Finished)
  {
    forall n | n >= |packets| + 1
      ensures Serve(stream, n, moments) == Serve(stream, |packets|, moments)
    {
      StaysShort(stream, |packets|, n, moments);
    }
  }

  lemma OneMoreServed(stream: Bytes, moments: Moments, packets: seq<Packet>, before: Bytes, p: Packet, h: Handled, now: Bytes)
    requires Served(stream, moments, packets, before) && |before| >= PACKET_SIZE
    requires var t := Turn(Serving([], before, Continues), moments(|packets|));
             t.packets == [p] && t.end == h && (h.Continues? ==> t.left == now)
    ensures h.Continues? ==> Served(stream, moments, packets + [p], now)
    ensures !h.Continues? ==> Ended(stream, moments, packets + [p], |packets| + 1, Died)
  {
    hide Turn;
    TurnExtends(Serve(stream, |packets|, moments), moments(|packets|));
    if !h.Continues? {
      forall n | n >= |packets| + 1
        ensures Serve(stream, n, moments) == Serve(stream, |packets| + 1, moments)
      {
        StaysEnded(stream, |packets| + 1, n, moments);
      }
    }
  }

  /** One batch of ready descriptors (lines 91-125): still running, closed by the client, or
      ended by a handler. */
  method ServeBatch(sock: Socket, clientFd: int, fds: seq<int>, moments: Moments,
                    packets0: seq<Packet>, ghost stream: Bytes)
    returns (fate: Fate, packets: seq<Packet>)
    modifies sock`incoming, sock`recvScript
    ensures Failed !in old(sock.recvScript) && Served(stream, moments, packets0, old(sock.incoming)) ==>
              && Failed !in sock.recvScript
              && (fate.Running? ==>
                   Served(stream, moments, packets, sock.incoming) && |packets| == |packets0| + Count(fds, clientFd))
              && (!fate.Running? ==>
                   exists turns :: |packets0| < turns <= |packets0| + Count(fds, clientFd)
                                   && Ended(stream, moments, packets, turns, fate))
  {
    hide Served, Ended, Turn, Count;
    packets, fate := packets0, Running;
    ghost var clean := Failed !in sock.recvScript && Served(stream, moments, packets0, sock.incoming);
    CountNone(clientFd);
    for i := 0 to |fds|
      invariant fate.Running?
      invariant clean ==> Failed !in sock.recvScript && Served(stream, moments, packets, sock.incoming)
                          && |packets| == |packets0| + Count(fds[..i], clientFd)
    {
      OneMoreFd(fds, i, clientFd);
      CountGrows(fds, i + 1, clientFd);
      if fds[i] != clientFd {
        continue;
      }
      ghost var before := sock.incoming;
      var ret, cmd, h := TakeCommand(sock, moments(|packets|));
      if ret <= 0 {
        if clean { ShortMeansEnded(stream, moments, packets, before); }
        return Finished, packets;
      }
      if clean { OneMoreServed(stream, moments, packets, before, cmd.value, h, sock.incoming); }
      packets := packets + [cmd.value];
      if !h.Continues? {
        return Died, packets;
      }
    }
    assert fds[..|fds|] == fds;
  }

  lemma CountNone(fd: int)
    ensures Count([], fd) == 0
  {
  }

  lemma EndedFate(stream: Bytes, moments: Moments, packets: seq<Packet>, turns: nat, fate: Fate, n: nat, waits: seq<Wait>)
    requires Ended(stream, moments, packets, turns, fate) && turns <= n && !fate.Running?
    ensures var s := Serve(stream, n, moments); packets == s.packets && fate == FateOf(s, n, waits)
  {
  }

  lemma ServedFate(stream: Bytes, moments: Moments, packets: seq<Packet>, now: Bytes, waits: seq<Wait>)
    requires Served(stream, moments, packets, now)
    ensures var s := Serve(stream, |packets|, moments);
            packets == s.packets && now == s.left
            && FateOf(s, |packets|, waits) == (if WaitFailed in waits then Finished else Running)
  {
  }

  lemma NothingServed(stream: Bytes, moments: Moments, fd: int)
    ensures Served(stream, moments, [], stream) && Readies([], fd) == 0
  {
  }

  /** The command loop after the login (lines 75-131), observed for the given waits.  Calls
      that do not fail make it exactly the turns the waits allow on the stream, so when it
      is over, and why, is known. */
  method CommandLoop(sock: Socket, clientFd: int, waits: seq<Wait>, moments: Moments)
    returns (fate: Fate, packets: seq<Packet>)
    modifies sock`incoming, sock`recvScript
    ensures Failed !in old(sock.recvScript) ==>
              var n := Readies(waits, clientFd);
              var s := Serve(old(sock.incoming), n, moments);
              packets == s.packets && fate == FateOf(s, n, waits) && (fate.Running? ==> sock.incoming == s.left)
  {
    hide Served, Ended, Readies, Serve, FateOf;
    fate, packets := Running, [];
    ghost var stream, clean := sock.incoming, Failed !in sock.recvScript;
    NothingServed(stream, moments, clientFd);
    for i := 0 to |waits|
      invariant fate.Running? && WaitFailed !in waits[..i]
      invariant clean ==> Failed !in sock.recvScript && Served(stream, moments, packets, sock.incoming)
                          && |packets| == Readies(waits[..i], clientFd)
    {
      OneMoreWait(waits, i, clientFd);
      ReadiesGrow(waits, i + 1, clientFd);
      match waits[i]
      case WaitInterrupted =>
      case WaitFailed =>
        assert waits[i] in waits[..i + 1];
        if clean { ServedFate(stream, moments, packets, sock.incoming, waits); }
        return Finished, packets;
      case Ready(fds) =>
        fate, packets := ServeBatch(sock, clientFd, fds, moments, packets, stream);
        if !fate.Running? {
          if clean {
            ghost var turns: nat :| turns <= Readies(waits, clientFd) && Ended(stream, moments, packets, turns, fate);
            EndedFate(stream, moments, packets, turns, fate, Readies(waits, clientFd), waits);
          }
          return;
        }
    }
    assert waits[..|waits|] == waits;
    if clean { ServedFate(stream, moments, packets, sock.incoming, waits); }
  }

  // ---------- the session ----------

  /** What a session comes to after its login: `stream` is what the login left. */
  ghost predicate GoesOn(login: LoginEnd, stream: Bytes, clientFd: int, newEpfd: Option<int>, addFails: bool,
                   waits: seq<Wait>, moments: Moments, packets: seq<Packet>, fate: Fate)
  {
    if login.LoggedIn? && newEpfd.Some? && !addFails then
      var n := Readies(waits, clientFd);
      var s := Serve(stream, n, moments);
      packets == s.packets && fate == FateOf(s, n, waits)
    else packets == [] && fate == (match login case Asking => Running case Garbled => Died case _ => Finished)
  }

  lemma {:induction false} ShortAtEnd(stream: Bytes, n: nat, moments: Moments)
    ensures var s := Serve(stream, n, moments);
            && (s.end.Continues? && |s.packets| < n ==> |s.left| < 1036)
            && (!s.end.Continues? ==>
                 s.packets != [] && var p := s.packets[|s.packets| - 1];
                 p.code == 5 || p.code == 6 || '\0' !in p.data)
    decreases n
  {
    hide PutEffect, DecodePacket, ReadsText;
    if n > 0 { ShortAtEnd(stream, n - 1, moments); }
  }

  /** Why a session is over, or is not: the login was dropped; no epoll descriptor, or the
      client could not be added to it; a wait failed; less than a packet came; a put, a get
      or a memory error ended the process.  Otherwise it is running, and every report of the
      client was a command. */
  lemma FateByCauses(login: LoginEnd, stream: Bytes, clientFd: int, newEpfd: Option<int>, addFails: bool,
                     waits: seq<Wait>, moments: Moments, packets: seq<Packet>, fate: Fate)
    requires GoesOn(login, stream, clientFd, newEpfd, addFails, waits, moments, packets, fate)
    ensures !login.LoggedIn? || newEpfd.None? || addFails ==>
              packets == [] && fate == (if login.Asking? then Running else if login.Garbled? then Died else Finished)
    ensures login.LoggedIn? && newEpfd.Some? && !addFails ==>
              var reports := Readies(waits, clientFd);
              && |packets| <= reports
              && (fate.Died? <==> !Serve(stream, reports, moments).end.Continues?)
              && (fate.Running? ==> WaitFailed !in waits && |packets| == reports)
              && (fate.Finished? ==>
                   WaitFailed in waits
                   || (|packets| < reports && |Serve(stream, reports, moments).left| < 1036))
              && (fate.Died? ==>
                   packets != [] && var p := packets[|packets| - 1];
                   p.code == 5 || p.code == 6 || '\0' !in p.data)
  {
    hide Serve, Readies;
    ShortAtEnd(stream, Readies(waits, clientFd), moments);
  }

  lemma {:induction false} CountIsMultiplicity(fds: seq<int>, fd: int)
    ensures Count(fds, fd) == multiset(fds)[fd]
  {
    if fds != [] {
      assert fds == fds[..|fds| - 1] + [fds[|fds| - 1]];
      CountIsMultiplicity(fds[..|fds| - 1], fd);
    }
  }

  /** Each report of the client counts, up to the first wait that fails; other descriptors
      and interrupted waits do not. */
  lemma ReadiesConcat(waits: seq<Wait>, fds: seq<int>, fd: int)
    ensures Readies([], fd) == 0
    ensures WaitFailed !in waits ==> Readies(waits + [Ready(fds)], fd) == Readies(waits, fd) + multiset(fds)[fd]
    ensures WaitFailed in waits ==> Readies(waits + [Ready(fds)], fd) == Readies(waits, fd)
    ensures Readies(waits + [WaitInterrupted], fd) == Readies(waits + [WaitFailed], fd) == Readies(waits, fd)
  {
    CountIsMultiplicity(fds, fd);
    assert (waits + [Ready(fds)])[..|waits|] == waits;
    assert (waits + [WaitInterrupted])[..|waits|] == waits;
    assert (waits + [WaitFailed])[..|waits|] == waits;
  }

  /** handleClient: `rounds` bounds the observed logins, `waits` the observed epoll_waits;
      `newEpfd` is None when epoll_create fails.  The trace is gated and released on every
      path.  The pairs `cs` are judged against the password table, and commands come after
      a pair that it holds; calls that do not fail read the pairs and then the commands
      from the client's stream, one after the other. */
  method HandleClient(server: Server, sock: Socket, clientFd: int, rounds: nat, newEpfd: Option<int>,
                      addFails: bool, waits: seq<Wait>, moments: Moments)
    returns (fate: Fate, trace: seq<Effect>, packets: seq<Packet>,
             ghost login: LoginEnd, ghost results: seq<int>, ghost cs: seq<Credentials>, ghost stream: Bytes)
    requires server.Valid() && newEpfd != Some(clientFd)
    modifies sock, server.clientPath
    ensures server.Valid() && server.Path() == Logins(old(server.Path()), AcceptedUsers(server.shadow, cs))
    ensures LoginRan(server.shadow, old(server.Path()), old(sock.sendScript), cs, results)
    ensures |results| <= rounds && EndsAs(login, results, rounds)
    ensures var epfd := if login.LoggedIn? then newEpfd else None;
            && trace == Trace(clientFd, results, epfd, packets, fate.Finished?)
            && Gated(trace, clientFd) && Released(trace, clientFd, fate.Finished?) && PacketsOf(trace) == packets
    ensures packets != [] ==>
              cs != [] && cs[|cs| - 1].user in server.shadow && cs[|cs| - 1].hash == server.shadow[cs[|cs| - 1].user]
    ensures Failed !in old(sock.recvScript) ==>
              && (login.Garbled? ==> !Readable(stream)) && Reads(old(sock.incoming), cs, stream)
              && GoesOn(login, stream, clientFd, newEpfd, addFails, waits, moments, packets, fate)
  {
    hide LoginRan, Reads, Readable, Logins, AcceptedUsers, Serve, Readies, FateOf, Trace, Gated, Released, PacketsOf,
         AuthenticateUser, EndsAs, AuthEffects, ParseEffects;
    ghost var start, path, script := sock.incoming, server.Path(), sock.sendScript;
    ghost var clean := Failed !in sock.recvScript;
    var end, rs;
    end, rs, cs := LoginSession.HandleAuthenEvent(server, sock, rounds);
    login, results, stream, packets, fate := end, rs, sock.incoming, [], Running;
    trace := AuthEffects(clientFd, rs);
    if end.Garbled? {
      if clean { stream :| Reads(start, cs, stream) && !Readable(stream); }
      fate := Died;
    } else if end.Dropped? || (end.LoggedIn? && newEpfd.None?) {
      trace := trace + [Closed(clientFd)];
      fate := Finished;
    } else if end.LoggedIn? {
      trace := trace + [Opened(newEpfd.value)];
      if addFails {
        fate := Finished;
      } else {
        fate, packets := CommandLoop(sock, clientFd, waits, moments);
        trace := trace + ParseEffects(clientFd, packets);
      }
      if fate.Finished? {
        trace := trace + [Closed(newEpfd.value)] + [Closed(clientFd)];
      }
    }
    ghost var epfd := if login.LoggedIn? then newEpfd else None;
    TraceIsBuilt(clientFd, rs, epfd, packets, fate.Finished?, trace);
    if end.LoggedIn? { LoggedInMeansOk(results, rounds); }
    TraceIsGated(clientFd, results, epfd, packets, fate.Finished?);
    TraceIsReleased(clientFd, results, epfd, packets, fate.Finished?);
    TraceParses(clientFd, results, epfd, packets, fate.Finished?);
    if packets != [] {
      LastIsRight(server.shadow, path, script, cs, results);
    }
  }

  lemma TraceIsBuilt(fd: int, results: seq<int>, epfd: Option<int>, packets: seq<Packet>, over: bool, trace: seq<Effect>)
    requires epfd.None? ==> packets == []
    requires trace == if epfd.None? then (if over then AuthEffects(fd, results) + [Closed(fd)] else AuthEffects(fd, results))
                      else
                        var t := AuthEffects(fd, results) + [Opened(epfd.value)] + ParseEffects(fd, packets);
                        if over then t + [Closed(epfd.value)] + [Closed(fd)] else t
    ensures trace == Trace(fd, results, epfd, packets, over)
  {
  }

  lemma LoggedInMeansOk(results: seq<int>, rounds: nat)
    requires EndsAs(LoggedIn, results, rounds)
    ensures results != [] && results[|results| - 1] == AUTH_RESULT_OK
  {
  }

  lemma LastIsRight(shadow: map<Text, Text>, path: Bytes, script: seq<IoEvent>, cs: seq<Credentials>, results: seq<int>)
    requires LoginRan(shadow, path, script, cs, results) && results != [] && results[|results| - 1] == AUTH_RESULT_OK
    ensures cs != [] && cs[|cs| - 1].user in shadow && cs[|cs| - 1].hash == shadow[cs[|cs| - 1].user]
  {
    var last := |cs| - 1;
    assert results[last] == ResultOf(shadow, path, cs[last], LostAt(script, last));
  }
}
