/** Stream sockets and the loops that move whole buffers through them
    (recvn and sendn of server/sendMessage.c and client/clientsendMessage.c). */
module SocketIO {
  import opened CTypes

  /** What the kernel does with one call: moves up to `size` bytes (at least one,
      if any can be moved), is interrupted (EINTR), or fails. */
  datatype IoEvent = Chunk(size: nat) | Interrupted | Failed

  datatype Errno = NoError | EINTR | OtherError

  /** How a transfer loop ended. */
  datatype Ending = Complete | Eof | Broken

  function ChunkSize(wanted: nat, limit: nat): (n: nat)
    requires limit > 0
    ensures 1 <= n <= limit
  {
    if wanted < 1 then 1 else if wanted > limit then limit else wanted
  }

  function Min(a: nat, b: nat): nat { if a < b then a else b }

  /** The conversion of a `long` to the `int` that the loops return. */
  function ToInt(n: nat): Int32 { Signed(n % (2 * TWO31), TWO31) }

  lemma ToIntOfSmall(n: nat)
    requires n < TWO31
    ensures ToInt(n) == n
  {
  }

  /** One end of a connection.  `incoming` is all that the peer will send before it
      closes; the scripts are the kernel's choices, any finite lists of them (past
      their end every call moves all it can). */
  class Socket {
    var incoming: Bytes
    var outgoing: Bytes
    var recvScript: seq<IoEvent>
    var sendScript: seq<IoEvent>

    constructor (incoming: Bytes, recvScript: seq<IoEvent>, sendScript: seq<IoEvent>)
      ensures this.incoming == incoming && outgoing == []
      ensures this.recvScript == recvScript && this.sendScript == sendScript
    {
      this.incoming, this.outgoing := incoming, [];
      this.recvScript, this.sendScript := recvScript, sendScript;
    }

    /** recv(2); a result of no bytes and no error is end of file. */
    method Recv(max: nat) returns (sret: int, errno: Errno, data: Bytes)
      requires max > 0
      modifies `incoming, `recvScript
      ensures recvScript == if old(recvScript) == [] then [] else old(recvScript)[1..]
      ensures sret == if errno == NoError then |data| else -1
      ensures errno == EINTR <==> old(recvScript) != [] && old(recvScript)[0].Interrupted?
      ensures errno == OtherError <==> old(recvScript) != [] && old(recvScript)[0].Failed?
      ensures |data| <= max && old(incoming) == data + incoming
      ensures data == [] <==> errno != NoError || old(incoming) == []
      ensures errno == NoError && old(incoming) != [] ==>
                |data| == ChunkSize(if old(recvScript) == [] then max else old(recvScript)[0].size,
                                    Min(max, old(|incoming|)))
    {
      var event := if recvScript == [] then Chunk(max) else recvScript[0];
      recvScript := if recvScript == [] then [] else recvScript[1..];
      data, errno, sret := [], NoError, -1;
      match event
      case Interrupted => errno := EINTR;
      case Failed => errno := OtherError;
      case Chunk(size) =>
        if incoming != [] {
          var n := ChunkSize(size, Min(max, |incoming|));
          data, incoming := incoming[..n], incoming[n..];
        }
        sret := |data|;
    }

    /** send(2) of a non-empty buffer. */
    method Send(buf: Bytes) returns (sret: int, errno: Errno)
      requires buf != []
      modifies `outgoing, `sendScript
      ensures sendScript == if old(sendScript) == [] then [] else old(sendScript)[1..]
      ensures errno == EINTR <==> old(sendScript) != [] && old(sendScript)[0].Interrupted?
      ensures errno == OtherError <==> old(sendScript) != [] && old(sendScript)[0].Failed?
      ensures errno == NoError ==> 1 <= sret <= |buf| && outgoing == old(outgoing) + buf[..sret]
      ensures errno != NoError ==> sret == -1 && outgoing == old(outgoing)
      ensures old(sendScript) == [] ==> sret == |buf|
    {
      var event := if sendScript == [] then Chunk(|buf|) else sendScript[0];
      sendScript := if sendScript == [] then [] else sendScript[1..];
      errno, sret := NoError, -1;
      match event
      case Interrupted => errno := EINTR;
      case Failed => errno := OtherError;
      case Chunk(size) =>
        sret := ChunkSize(size, |buf|);
        outgoing := outgoing + buf[..sret];
    }
  }

  /** Taking `data` off the front of what is left of a stream. */
  lemma Advance(stream: Bytes, got: nat, data: Bytes, rest: Bytes)
    requires got <= |stream| && stream[got..] == data + rest
    ensures got + |data| <= |stream| && stream[got + |data|..] == rest
    ensures stream[..got + |data|] == stream[..got] + data
  {
    assert stream[got..][|data|..] == rest && stream[got..][..|data|] == data;
  }

  /** A buffer whose first `n` bytes have come from the stream. */
  function Filled(orig: Bytes, stream: Bytes, n: nat): Bytes
    requires n <= |orig| && n <= |stream|
  {
    stream[..n] + orig[n..]
  }

  lemma NothingFilled(orig: Bytes, stream: Bytes)
    ensures Filled(orig, stream, 0) == orig
  {
  }

  lemma FillMore(orig: Bytes, stream: Bytes, n: nat, data: Bytes, after: Bytes)
    requires n + |data| <= |orig| == |after| && n + |data| <= |stream| && stream[..n + |data|] == stream[..n] + data
    requires after[..n + |data|] == Filled(orig, stream, n)[..n] + data
    requires after[n + |data|..] == Filled(orig, stream, n)[n + |data|..]
    ensures after == Filled(orig, stream, n + |data|)
  {
    assert after == after[..n + |data|] + after[n + |data|..];
  }

  /** The calls made used up a front part of the script that ends in the first failure. */
  ghost predicate EndsInFailure(before: seq<IoEvent>, after: seq<IoEvent>) {
    exists calls: seq<IoEvent> :: before == calls + [Failed] + after && Failed !in calls
  }

  /** The calls made used up a front part of the script without a failure. */
  ghost predicate WithoutFailure(before: seq<IoEvent>, after: seq<IoEvent>) {
    exists calls: seq<IoEvent> :: before == calls + after && Failed !in calls
  }

  /** The calls made so far and the rest of the script are the whole script. */
  ghost predicate Called(script: seq<IoEvent>, calls: seq<IoEvent>, rest: seq<IoEvent>) {
    script == calls + rest && Failed !in calls
  }

  lemma NoCallYet(script: seq<IoEvent>)
    ensures Called(script, [], script)
  {
  }

  lemma CalledSafely(script: seq<IoEvent>, calls: seq<IoEvent>, rest: seq<IoEvent>)
    requires Called(script, calls, rest)
    ensures WithoutFailure(script, rest)
    ensures Failed !in script ==> Failed !in rest
  {
  }

  lemma OneMoreCall(script: seq<IoEvent>, calls: seq<IoEvent>, rest: seq<IoEvent>)
    requires Called(script, calls, rest) && rest != []
    ensures rest[0].Failed? ==> EndsInFailure(script, rest[1..])
    ensures !rest[0].Failed? ==> Called(script, calls + [rest[0]], rest[1..])
    ensures Failed !in script ==> !rest[0].Failed?
  {
    assert rest == [rest[0]] + rest[1..];
    assert script == calls + [rest[0]] + rest[1..];
    assert rest[0] in script;
  }

  /** One chunk goes into the buffer behind what is there. */
  method Store(buf: array<Byte>, at: nat, data: Bytes, ghost orig: Bytes, ghost stream: Bytes)
    requires |orig| == buf.Length && at + |data| <= buf.Length && at + |data| <= |stream|
    requires buf[..] == Filled(orig, stream, at) && stream[..at + |data|] == stream[..at] + data
    modifies buf
    ensures buf[..] == Filled(orig, stream, at + |data|)
  {
    hide Filled;
    CopyIn(buf, at, data);
    FillMore(orig, stream, at, data, buf[..]);
  }

  /** The server's `recvn`.  `got` bytes were moved, always a prefix of the stream
      into a prefix of the buffer. */
  method RecvN(sock: Socket, buf: array<Byte>, total: int) returns (r: int, ghost got: nat, ghost ending: Ending)
    requires total <= buf.Length
    modifies sock`incoming, sock`recvScript, buf
    ensures got <= buf.Length && got <= old(|sock.incoming|)
    ensures buf[..] == Filled(old(buf[..]), old(sock.incoming), got)
    ensures sock.incoming == old(sock.incoming)[got..]
    ensures ending == Complete ==> got == (if total < 0 then 0 else total) && r == ToInt(got)
    ensures ending == Eof ==> got < total && sock.incoming == [] && r == 0
    ensures ending == Broken ==> got < total && r == -1 && EndsInFailure(old(sock.recvScript), sock.recvScript)
    ensures ending != Broken ==> WithoutFailure(old(sock.recvScript), sock.recvScript)
    // without a failing call the stream alone decides
    ensures Failed !in old(sock.recvScript) ==>
              Failed !in sock.recvScript && (ending == Complete <==> total <= old(|sock.incoming|)) && ending != Broken
    ensures total <= 0 ==> ending == Complete && sock.recvScript == old(sock.recvScript)
  {
    hide Called, EndsInFailure, WithoutFailure, Filled, ToInt, ChunkSize, Min;
    var cursize := 0;
    ghost var orig, stream := buf[..], sock.incoming;
    NothingFilled(orig, stream);
    ghost var calls := [];
    ghost var script := sock.recvScript;
    NoCallYet(script);
    while cursize < total
      invariant 0 <= cursize && (cursize <= total || cursize == 0)
      invariant cursize <= buf.Length && cursize <= |stream| && sock.incoming == stream[cursize..]
      invariant buf[..] == Filled(orig, stream, cursize)
      invariant Called(script, calls, sock.recvScript) && (total <= 0 ==> sock.recvScript == script)
      decreases |sock.recvScript| + total - cursize
    {
      if sock.recvScript != [] {
        OneMoreCall(script, calls, sock.recvScript);
        calls := calls + [sock.recvScript[0]];
      }
      var sret, errno, data := sock.Recv(total - cursize);
      Advance(stream, cursize, data, sock.incoming);
      if sret < 0 {
        if errno == EINTR {
          continue;
        }
        return -1, cursize, Broken;
      }
      if sret == 0 {
        CalledSafely(script, calls, sock.recvScript);
        return 0, cursize, Eof;
      }
      Store(buf, cursize, data, orig, stream);
      cursize := cursize + sret;
    }
    CalledSafely(script, calls, sock.recvScript);
    return ToInt(cursize), cursize, Complete;
  }

  /** `sendn`, the same code on both sides.  `sent` bytes left, always a prefix of the buffer. */
  method SendN(sock: Socket, buf: Bytes, total: int) returns (r: int, ghost sent: nat, ghost ending: Ending)
    requires total <= |buf|
    modifies sock`outgoing, sock`sendScript
    ensures sent <= |buf| && sock.outgoing == old(sock.outgoing) + buf[..sent]
    ensures ending == Complete ==> sent == (if total < 0 then 0 else total) && r == ToInt(sent)
    ensures ending == Broken ==> sent < total && r == -1 && EndsInFailure(old(sock.sendScript), sock.sendScript)
    ensures ending != Broken ==> WithoutFailure(old(sock.sendScript), sock.sendScript)
    ensures ending != Eof
    ensures Failed !in old(sock.sendScript) ==> Failed !in sock.sendScript && ending == Complete
  {
    hide Called, EndsInFailure, WithoutFailure, ToInt, ChunkSize;
    sent := 0;
    var done := 0;
    ghost var calls := [];
    ghost var script := sock.sendScript;
    NoCallYet(script);
    while done < total
      invariant 0 <= done == sent && (done <= total || done == 0)
      invariant sock.outgoing == old(sock.outgoing) + buf[..done]
      invariant Called(script, calls, sock.sendScript)
      decreases |sock.sendScript| + total - done
    {
      if sock.sendScript != [] {
        OneMoreCall(script, calls, sock.sendScript);
        calls := calls + [sock.sendScript[0]];
      }
      var sret, errno := sock.Send(buf[done..total]);
      if sret < 0 {
        if errno == EINTR {
          continue;
        }
        return -1, done, Broken;
      }
      assert buf[..done] + buf[done..total][..sret] == buf[..done + sret];
      done := done + sret;
      sent := done;
    }
    CalledSafely(script, calls, sock.sendScript);
    return ToInt(done), sent, Complete;
  }

  /** Bytes sent on one end of a connection and received on the other.  Whatever the
      two kernels do short of failing, and whatever follows on the stream, the buffer
      arrives unchanged and exactly its bytes are consumed. */
  method Deliver(from: Socket, to: Socket, buf: Bytes, dst: array<Byte>, later: Bytes)
    returns (ok: bool)
    requires from != to && from.outgoing == [] && to.incoming == [] && |buf| <= dst.Length
    requires Failed !in from.sendScript && Failed !in to.recvScript
    modifies from, to, dst
    ensures ok && dst[..|buf|] == buf && dst[|buf|..] == old(dst[|buf|..]) && to.incoming == later
  {
    var s, sent, sEnding := SendN(from, buf, |buf|);
    to.incoming := from.outgoing + later;
    var r, got, rEnding := RecvN(to, dst, |buf|);
    ok := s == ToInt(|buf|) && r == s;
  }

  // ---------- the client's receive loop ----------

  /** How many of the calls did not move bytes or meet the end of file. */
  function Failures(calls: seq<IoEvent>): (n: nat)
    ensures n <= |calls|
    ensures n == 0 <==> forall e | e in calls :: e.Chunk?
  {
    if calls == [] then 0
    else Failures(calls[..|calls| - 1]) + (if calls[|calls| - 1].Chunk? then 0 else 1)
  }

  /** Where the client's loop stands: the buffer, the cursor, the bytes taken off the
      stream, and whether it is over (`Below`: the cursor has left the buffer in front). */
  datatype Assembly = Assembly(mem: Bytes, cursor: nat, taken: nat, ending: AssemblyEnd)

  datatype AssemblyEnd = More | Whole | AtEof | Below

  /** Kept by every call: the cursor is short of the total until the loop is over. */
  predicate Assembling(a: Assembly, stream: Bytes, size: nat, total: nat) {
    && |a.mem| == size && a.taken <= |stream| && a.cursor <= total <= size
    && (a.ending == More ==> a.cursor < total) && (a.ending == Whole ==> a.cursor == total)
    && (a.ending == Below ==> a.cursor == 0)
  }

  /** One call: bytes are appended at the cursor, and a failed call, whose -1 is added to
      the cursor, takes the last byte back. */
  function Assemble(a: Assembly, call: IoEvent, stream: Bytes, total: nat): (r: Assembly)
    requires Assembling(a, stream, |a.mem|, total)
    ensures Assembling(r, stream, |a.mem|, total)
  {
    if a.ending != More then a
    else match call
      case Chunk(size) =>
        if a.taken == |stream| then a.(ending := AtEof)
        else
          var n := ChunkSize(size, Min(total - a.cursor, |stream| - a.taken));
          Assembly(a.mem[..a.cursor] + stream[a.taken..a.taken + n] + a.mem[a.cursor + n..],
                   a.cursor + n, a.taken + n, if a.cursor + n == total then Whole else More)
      case _ => if a.cursor == 0 then a.(ending := Below) else a.(cursor := a.cursor - 1)
  }

  /** The loop after these calls, on a buffer that held `orig`. */
  function AssembleAll(calls: seq<IoEvent>, stream: Bytes, orig: Bytes, total: nat): (r: Assembly)
    requires total <= |orig|
    ensures Assembling(r, stream, |orig|, total)
  {
    if calls == [] then Assembly(orig, 0, 0, if total == 0 then Whole else More)
    else Assemble(AssembleAll(calls[..|calls| - 1], stream, orig, total), calls[|calls| - 1], stream, total)
  }

  /** The kernel's answers: the script, and past its end calls that move all they can. */
  function KernelAnswers(script: seq<IoEvent>, total: nat): seq<IoEvent> {
    script + [Chunk(total), Chunk(total)]
  }

  lemma {:induction false} OverIsOver(calls: seq<IoEvent>, more: seq<IoEvent>, stream: Bytes, orig: Bytes, total: nat)
    requires total <= |orig| && AssembleAll(calls, stream, orig, total).ending != More
    ensures AssembleAll(calls + more, stream, orig, total) == AssembleAll(calls, stream, orig, total)
  {
    if more == [] {
      assert calls + more == calls;
    } else {
      assert (calls + more)[..|calls + more| - 1] == calls + more[..|more| - 1];
      OverIsOver(calls, more[..|more| - 1], stream, orig, total);
    }
  }

  lemma OverInPrefix(calls: seq<IoEvent>, all: seq<IoEvent>, stream: Bytes, orig: Bytes, total: nat)
    requires calls <= all && total <= |orig| && AssembleAll(calls, stream, orig, total).ending != More
    ensures AssembleAll(all, stream, orig, total) == AssembleAll(calls, stream, orig, total)
  {
    assert all == calls + all[|calls|..];
    OverIsOver(calls, all[|calls|..], stream, orig, total);
  }

  lemma AnotherCall(calls: seq<IoEvent>, e: IoEvent, stream: Bytes, orig: Bytes, total: nat)
    requires total <= |orig|
    ensures AssembleAll(calls + [e], stream, orig, total)
         == Assemble(AssembleAll(calls, stream, orig, total), e, stream, total)
  {
    assert (calls + [e])[..|calls|] == calls;
  }

  /** The client's `recvn`: 0 for success, 1 for end of file, and a negative result of
      `recv` is added to the cursor.  A cursor below zero would read and write before the
      buffer: the model stops there (`undefined`). */
  method ClientRecvN(sock: Socket, buf: array<Byte>, total: nat) returns (r: int, undefined: bool)
    requires total <= buf.Length
    modifies sock`incoming, sock`recvScript, buf
    ensures var a := AssembleAll(KernelAnswers(old(sock.recvScript), total), old(sock.incoming), old(buf[..]), total);
            && a.ending != More
            && (undefined <==> a.ending == Below)
            && (!undefined ==> r == if a.ending == Whole then 0 else 1)
            && buf[..] == a.mem && sock.incoming == old(sock.incoming)[a.taken..]
    ensures exists n: nat :: n <= old(|sock.recvScript|) && sock.recvScript == old(sock.recvScript)[n..]
  {
    hide AssembleAll, Assemble, KernelAnswers, ChunkSize, Min;
    var cursize := 0;
    r, undefined := 0, false;
    ghost var orig, stream, script := buf[..], sock.incoming, sock.recvScript;
    ghost var calls: seq<IoEvent> := [];
    ghost var n := 0;
    ghost var a := Assembly(orig, 0, 0, if total == 0 then Whole else More);
    NoCallsMade(stream, orig, total);
    while cursize < total
      invariant 0 <= cursize <= total && n <= |script| && sock.recvScript == script[n..]
      invariant a == AssembleAll(calls, stream, orig, total) && a.cursor == cursize && a.mem == buf[..]
      invariant a.ending == (if cursize < total then More else Whole)
      invariant Assembling(a, stream, buf.Length, total) && sock.incoming == stream[a.taken..]
      invariant calls <= KernelAnswers(script, total) && n <= |calls| <= |script| + 1 && (n < |script| ==> |calls| == n)
      invariant a.ending == More && |calls| > |script| ==> sock.incoming == []
      decreases |script| + 2 - |calls|
    {
      KernelAnswersAt(script, total, |calls|);
      ghost var e := KernelAnswers(script, total)[|calls|];
      ghost var before := a;
      var sret, errno, data := sock.Recv(total - cursize);
      Advance(stream, before.taken, data, sock.incoming);
      AnotherCall(calls, e, stream, orig, total);
      if data != [] { WantAll(total - cursize, total, |stream| - before.taken); }
      CallMoves(before, e, stream, total, data, sock.incoming);
      a := Assemble(before, e, stream, total);
      calls := calls + [e];
      n := if n < |script| then n + 1 else n;
      OverOrNot(calls, script, stream, orig, total);
      if sret == 0 {
        return 1, false;
      }
      if sret > 0 {
        CopyIn(buf, cursize, data);
        assert buf[..] == before.mem[..cursize] + data + before.mem[cursize + |data|..];
      }
      cursize := cursize + sret;
      if cursize < 0 {
        return 0, true;
      }
    }
    OverOrNot(calls, script, stream, orig, total);
    r := 0;
  }

  lemma KernelAnswersAt(script: seq<IoEvent>, total: nat, k: nat)
    requires k <= |script| + 1
    ensures |KernelAnswers(script, total)| == |script| + 2
    ensures KernelAnswers(script, total)[k] == if k < |script| then script[k] else Chunk(total)
  {
  }

  lemma WantAll(v: nat, w: nat, available: nat)
    requires 0 < v <= w && available > 0
    ensures ChunkSize(v, Min(v, available)) == ChunkSize(w, Min(v, available))
  {
  }

  /** What one call that moved `data` off the stream makes of the loop. */
  lemma CallMoves(a: Assembly, call: IoEvent, stream: Bytes, total: nat, data: Bytes, rest: Bytes)
    requires Assembling(a, stream, |a.mem|, total) && a.ending == More && stream[a.taken..] == data + rest
    requires data == [] <==> !call.Chunk? || a.taken == |stream|
    requires data != [] ==> |data| == ChunkSize(call.size, Min(total - a.cursor, |stream| - a.taken))
    ensures Assemble(a, call, stream, total)
         == if data != [] then Assembly(a.mem[..a.cursor] + data + a.mem[a.cursor + |data|..],
                                        a.cursor + |data|, a.taken + |data|,
                                        if a.cursor + |data| == total then Whole else More)
            else if call.Chunk? then a.(ending := AtEof)
            else if a.cursor == 0 then a.(ending := Below)
            else a.(cursor := a.cursor - 1)
    ensures call.Chunk? && call.size == total && data != [] ==> rest == [] || a.cursor + |data| == total
  {
    if data != [] {
      assert stream[a.taken..a.taken + |data|] == stream[a.taken..][..|data|] == data;
    }
  }

  lemma NoCallsMade(stream: Bytes, orig: Bytes, total: nat)
    requires total <= |orig|
    ensures AssembleAll([], stream, orig, total) == Assembly(orig, 0, 0, if total == 0 then Whole else More)
  {
  }

  lemma OverOrNot(calls: seq<IoEvent>, script: seq<IoEvent>, stream: Bytes, orig: Bytes, total: nat)
    requires calls <= KernelAnswers(script, total) && total <= |orig|
    ensures AssembleAll(calls, stream, orig, total).ending != More ==>
              AssembleAll(KernelAnswers(script, total), stream, orig, total) == AssembleAll(calls, stream, orig, total)
  {
    if AssembleAll(calls, stream, orig, total).ending != More {
      OverInPrefix(calls, KernelAnswers(script, total), stream, orig, total);
    }
  }

  // ---------- what a failed call does to the client ----------

  /** All these calls are made: the loop is not over before the last of them. */
  ghost predicate Made(calls: seq<IoEvent>, stream: Bytes, orig: Bytes, total: nat)
    requires total <= |orig|
  {
    forall n: nat :: n < |calls| ==> AssembleAll(calls[..n], stream, orig, total).ending == More
  }

  lemma MadeBefore(calls: seq<IoEvent>, n: nat, stream: Bytes, orig: Bytes, total: nat)
    requires total <= |orig| && n <= |calls| && Made(calls, stream, orig, total)
    ensures Made(calls[..n], stream, orig, total)
  {
    forall m: nat | m < n
      ensures AssembleAll(calls[..n][..m], stream, orig, total).ending == More
    {
      assert calls[..n][..m] == calls[..m];
    }
  }

  /** Every failed call costs one byte: bytes taken are the cursor and one for each. */
  lemma {:induction false} EveryFailureCosts(calls: seq<IoEvent>, stream: Bytes, orig: Bytes, total: nat)
    requires total <= |orig| && Made(calls, stream, orig, total)
    ensures var a := AssembleAll(calls, stream, orig, total);
            && a.taken + (if a.ending == Below then 1 else 0) == a.cursor + Failures(calls)
            && (a.ending == AtEof ==> a.taken == |stream|)
  {
    if calls != [] {
      var init := calls[..|calls| - 1];
      MadeBefore(calls, |init|, stream, orig, total);
      EveryFailureCosts(init, stream, orig, total);
      assert AssembleAll(init, stream, orig, total).ending == More;
    }
  }

  lemma {:induction false} OverSomewhere(calls: seq<IoEvent>, stream: Bytes, orig: Bytes, total: nat) returns (n: nat)
    requires total <= |orig|
    ensures n <= |calls| && Made(calls[..n], stream, orig, total)
    ensures AssembleAll(calls[..n], stream, orig, total) == AssembleAll(calls, stream, orig, total)
  {
    if calls == [] {
      n := 0;
    } else {
      var init := calls[..|calls| - 1];
      n := OverSomewhere(init, stream, orig, total);
      assert init[..n] == calls[..n];
      if AssembleAll(init, stream, orig, total).ending == More {
        MoreBefore(init, stream, orig, total);
        assert forall m: nat | m < |init| :: init[..m] == calls[..m];
        n := |calls|;
        assert calls[..n] == calls;
      }
    }
  }

  lemma MoreBefore(calls: seq<IoEvent>, stream: Bytes, orig: Bytes, total: nat)
    requires total <= |orig| && AssembleAll(calls, stream, orig, total).ending == More
    ensures forall n: nat :: n <= |calls| ==> AssembleAll(calls[..n], stream, orig, total).ending == More
  {
    forall n: nat | n <= |calls|
      ensures AssembleAll(calls[..n], stream, orig, total).ending == More
    {
      if AssembleAll(calls[..n], stream, orig, total).ending != More {
        OverInPrefix(calls[..n], calls, stream, orig, total);
      }
    }
  }

  /** The client's loop leaves its buffer in front if and only if after some of its calls
      more of them have failed than bytes have come. */
  lemma UnderrunsExactlyWhen(script: seq<IoEvent>, stream: Bytes, orig: Bytes, total: nat)
    requires total <= |orig|
    ensures AssembleAll(KernelAnswers(script, total), stream, orig, total).ending == Below
       <==> exists n: nat :: n <= |script| && Made(script[..n], stream, orig, total)
                             && Failures(script[..n]) > AssembleAll(script[..n], stream, orig, total).taken
  {
    hide AssembleAll, Failures;
    var all := KernelAnswers(script, total);
    var m := OverSomewhere(all, stream, orig, total);
    EveryFailureCosts(all[..m], stream, orig, total);
    if AssembleAll(all, stream, orig, total).ending == Below {
      NotByChunks(script, m, stream, orig, total);
      assert all[..m] == script[..m];
      assert Failures(script[..m]) > AssembleAll(script[..m], stream, orig, total).taken;
    }
    forall n: nat | n <= |script| && Made(script[..n], stream, orig, total)
                    && Failures(script[..n]) > AssembleAll(script[..n], stream, orig, total).taken
      ensures AssembleAll(all, stream, orig, total).ending == Below
    {
      EveryFailureCosts(script[..n], stream, orig, total);
      assert script[..n] == all[..n];
      OverInPrefix(script[..n], all, stream, orig, total);
    }
  }

  /** The call that leaves the buffer is one of the script's. */
  lemma NotByChunks(script: seq<IoEvent>, m: nat, stream: Bytes, orig: Bytes, total: nat)
    requires total <= |orig| && m <= |script| + 2
    requires Made(KernelAnswers(script, total)[..m], stream, orig, total)
    requires AssembleAll(KernelAnswers(script, total)[..m], stream, orig, total).ending == Below
    ensures m <= |script|
  {
    var all := KernelAnswers(script, total);
    if m > 0 {
      KernelAnswersAt(script, total, m - 1);
      assert all[..m][..m - 1] == all[..m - 1];
    }
  }

  /** So it does whenever its first call fails. */
  lemma UnderrunsOnFirstFailure(script: seq<IoEvent>, stream: Bytes, orig: Bytes, total: nat)
    requires 0 < total <= |orig| && script != [] && !script[0].Chunk?
    ensures AssembleAll(KernelAnswers(script, total), stream, orig, total).ending == Below
  {
    var first := [script[0]];
    assert first[..0] == [];
    assert AssembleAll(first, stream, orig, total).ending == Below;
    assert KernelAnswers(script, total)[..1] == first;
    OverInPrefix(first, KernelAnswers(script, total), stream, orig, total);
  }

  /** What the loop has made while no call failed. */
  predicate Filling(a: Assembly, stream: Bytes, orig: Bytes, total: nat)
    requires Assembling(a, stream, |orig|, total)
  {
    && a.cursor == a.taken && a.ending != Below && a.mem == Filled(orig, stream, a.taken)
    && (a.ending == AtEof ==> a.taken == |stream| < total)
  }

  lemma ChunkFills(a: Assembly, size: nat, stream: Bytes, orig: Bytes, total: nat)
    requires Assembling(a, stream, |orig|, total) && Filling(a, stream, orig, total)
    ensures Filling(Assemble(a, Chunk(size), stream, total), stream, orig, total)
  {
    hide ChunkSize, Min;
    var b := Assemble(a, Chunk(size), stream, total);
    if b.taken > a.taken {
      var data := stream[a.taken..b.taken];
      assert stream[..b.taken] == stream[..a.taken] + data;
      FillMore(orig, stream, a.taken, data, b.mem);
    }
  }

  lemma {:induction false} ChunksFill(calls: seq<IoEvent>, stream: Bytes, orig: Bytes, total: nat)
    requires total <= |orig| && forall e | e in calls :: e.Chunk?
    ensures Filling(AssembleAll(calls, stream, orig, total), stream, orig, total)
  {
    if calls == [] {
      NothingFilled(orig, stream);
    } else {
      hide Filling, Assemble;
      ChunksFill(calls[..|calls| - 1], stream, orig, total);
      var last := calls[|calls| - 1];
      assert last in calls && last == Chunk(last.size);
      ChunkFills(AssembleAll(calls[..|calls| - 1], stream, orig, total), last.size, stream, orig, total);
    }
  }

  /** When no call fails, the client's loop delivers the next bytes of the stream, or all
      there are before the end of file. */
  lemma DeliversWithoutFailures(script: seq<IoEvent>, stream: Bytes, orig: Bytes, total: nat)
    requires total <= |orig| && forall e | e in script :: e.Chunk?
    ensures var a := AssembleAll(KernelAnswers(script, total), stream, orig, total);
            && a.ending == (if total <= |stream| then Whole else AtEof)
            && a.taken == Min(total, |stream|) && a.mem == Filled(orig, stream, a.taken)
  {
    hide AssembleAll, Filled;
    var all := KernelAnswers(script, total);
    ChunksFill(all, stream, orig, total);
    LastChunksFinish(script, stream, orig, total);
  }

  lemma LastChunksFinish(script: seq<IoEvent>, stream: Bytes, orig: Bytes, total: nat)
    requires total <= |orig|
    ensures AssembleAll(KernelAnswers(script, total), stream, orig, total).ending != More
  {
    hide AssembleAll, Assemble;
    assert KernelAnswers(script, total) == script + [Chunk(total)] + [Chunk(total)];
    AnotherCall(script, Chunk(total), stream, orig, total);
    AnotherCall(script + [Chunk(total)], Chunk(total), stream, orig, total);
    TwoChunksFinish(AssembleAll(script, stream, orig, total), stream, total);
  }

  /** A call that moves all it can either fills the buffer or empties the stream. */
  lemma TwoChunksFinish(a: Assembly, stream: Bytes, total: nat)
    requires Assembling(a, stream, |a.mem|, total)
    ensures Assemble(Assemble(a, Chunk(total), stream, total), Chunk(total), stream, total).ending != More
  {
    var b := Assemble(a, Chunk(total), stream, total);
    assert b.ending == More ==> b.taken == |stream|;
  }

  /** One interruption after `k` bytes drops the last of them and takes one byte too many:
      what is delivered lacks the k-th byte of the stream. */
  lemma InterruptionDropsAByte(k: nat, stream: Bytes, orig: Bytes, total: nat)
    requires 0 < k < total <= |orig| && total < |stream|
    ensures var a := AssembleAll(KernelAnswers([Chunk(k), Interrupted], total), stream, orig, total);
            && a.ending == Whole && a.taken == total + 1
            && a.mem[..total] == stream[..k - 1] + stream[k..total + 1]
  {
    hide AssembleAll, Assemble;
    var c, i: IoEvent := Chunk(k), Interrupted;
    var calls := [c, i, Chunk(total)];
    assert [] + [c] == [c] && [c] + [i] == [c, i] && [c, i] + [Chunk(total)] == calls;
    NoCallsMade(stream, orig, total);
    AnotherCall([], c, stream, orig, total);
    AnotherCall([c], i, stream, orig, total);
    AnotherCall([c, i], Chunk(total), stream, orig, total);
    TakesByte(k, stream, orig, total);
    assert KernelAnswers([c, i], total) == calls + [Chunk(total)];
    OverIsOver(calls, [Chunk(total)], stream, orig, total);
  }

  lemma TakesByte(k: nat, stream: Bytes, orig: Bytes, total: nat)
    requires 0 < k < total <= |orig| && total < |stream|
    ensures var a := Assemble(Assembly(orig, 0, 0, More), Chunk(k), stream, total);
            var c := Assemble(Assemble(a, Interrupted, stream, total), Chunk(total), stream, total);
            c.ending == Whole && c.taken == total + 1 && c.mem[..total] == stream[..k - 1] + stream[k..total + 1]
  {
    var a := Assemble(Assembly(orig, 0, 0, More), Chunk(k), stream, total);
    assert a.mem == stream[..k] + orig[k..];
    var c := Assemble(Assemble(a, Interrupted, stream, total), Chunk(total), stream, total);
    assert c.mem == a.mem[..k - 1] + stream[k..total + 1] + a.mem[total..];
    assert a.mem[..k - 1] == stream[..k - 1];
  }
}
