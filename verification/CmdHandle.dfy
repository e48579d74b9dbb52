/** What the server does with the packets on a connection (server/recvCmd.c and
    server/cmdHandle.c): receive one, handle it, receive the next.  The handler of `put`
    reads from the same connection, so it moves where the next packet is looked for. */
module CmdHandle {
  import opened CTypes
  import opened SocketIO
  import opened Frames
  import opened Command
  import opened FileTransfer

  const FILENAME_SIZE: nat := 256

  /** What a handler finds when it runs: the names that open for writing, the sizes that can
      be mapped, the leftovers in PutFile's uninitialised variables, and the names for which
      GetFile comes to its `open` and fails there. */
  datatype Moment = Moment(permits: Text -> bool, maps: nat -> bool, nameBuf: Bytes, sizeBuf: Bytes,
                           getEnds: Bytes -> bool)

  predicate IsMoment(m: Moment) { |m.nameBuf| == 256 && |m.sizeBuf| == 8 }

  /** A moment for each command, in order. */
  type Moments = f: nat -> Moment | forall k :: IsMoment(f(k))
    witness (k: nat) => Moment((n: Text) => false, (s: nat) => false, Zeros(FILENAME_SIZE), Zeros(8), (n: Bytes) => false)

  /** A handler returns, ends the process, or makes the model stop at a memory error. */
  datatype Handled = Continues | Exits | Garbled

  const CLEARED: Train := Train(Zeros(4), Zeros(DATA_SIZE))

  /** PutFile: how it ends, and what it leaves of the stream. */
  function PutEffect(stream: Bytes, m: Moment): (Handled, Bytes)
    requires IsMoment(m)
  {
    match ReadHeader(stream, CLEARED, m.nameBuf, m.sizeBuf)
    case None => (Garbled, [])
    case Some(u) =>
      if !m.permits(u.name) || u.size <= 0 || !m.maps(u.size) then (Exits, u.rest)
      else (Continues, Rest(u.rest, u.size))
  }

  /** Whether a handler takes the packet's data for a string. */
  predicate ReadsText(p: Packet) {
    p.argFlag == 1 || p.code in {REQ_LS, REQ_MKDIR, REQ_RM, REQ_GET}
  }

  /** cmdParse, with the report of the argument before it. */
  function HandleEffect(p: Packet, stream: Bytes, m: Moment): (Handled, Bytes)
    requires IsMoment(m)
  {
    if ReadsText(p) && '\0' !in p.data then (Garbled, [])
    else if p.code == REQ_PUT then PutEffect(stream, m)
    else if p.code == REQ_GET && m.getEnds(CStr(p.data)) then (Exits, stream)
    else (Continues, stream)
  }

  /** PutFile in place (its effect on the file is left to FileTransfer's recvFile). */
  method PutFile(sock: Socket, m: Moment) returns (h: Handled)
    requires IsMoment(m)
    modifies sock`incoming, sock`recvScript
    ensures Failed !in old(sock.recvScript) ==>
              && Failed !in sock.recvScript
              && h == PutEffect(old(sock.incoming), m).0
              && (h.Continues? ==> sock.incoming == PutEffect(old(sock.incoming), m).1)
  {
    hide ReadHeader, Rest;
    var undefined, filename, filesize := ReceiveHeader(sock, CLEARED, m.nameBuf, m.sizeBuf);
    if undefined {
      return Garbled;
    }
    if !m.permits(filename) || filesize <= 0 || !m.maps(filesize) {
      return Exits;
    }
    var _ := ReceiveContent(sock, Zeros(filesize));
    return Continues;
  }

  /** The switch of cmdParse, as far as the connection and the process are concerned. */
  method CmdParse(sock: Socket, p: Packet, m: Moment) returns (h: Handled)
    requires IsMoment(m)
    modifies sock`incoming, sock`recvScript
    ensures Failed !in old(sock.recvScript) ==>
              && Failed !in sock.recvScript
              && h == HandleEffect(p, old(sock.incoming), m).0
              && (h.Continues? ==> sock.incoming == HandleEffect(p, old(sock.incoming), m).1)
  {
    hide PutEffect;
    if ReadsText(p) && '\0' !in p.data {
      return Garbled;
    }
    if p.code == REQ_PUT {
      h := PutFile(sock, m);
      return h;
    }
    if p.code == REQ_GET && m.getEnds(CStr(p.data)) {
      return Exits;
    }
    return Continues;
  }

  /** The handlers by the numbers of the protocol, for a packet whose data is a string: only
      a put (5) takes from the stream, and only a put or a get (6) can end the server, the
      get exactly when it comes to its `open` and that fails. */
  lemma HandledByNumber(p: Packet, stream: Bytes, m: Moment)
    requires IsMoment(m) && '\0' in p.data
    ensures p.code != 5 && p.code != 6 ==> HandleEffect(p, stream, m) == (Continues, stream)
    ensures p.code == 6 ==> HandleEffect(p, stream, m) == (if m.getEnds(CStr(p.data)) then Exits else Continues, stream)
    ensures p.code == 5 ==> HandleEffect(p, stream, m) == PutEffect(stream, m)
  {
    hide PutEffect;
  }

  // ---------- one command after the other ----------

  /** The commands received so far, what is left of the stream, and how the last was handled. */
  datatype Serving = Serving(packets: seq<Packet>, left: Bytes, end: Handled)

  /** One more turn: it changes nothing once a handler has not returned, or when less than a
      packet is left. */
  function Turn(s: Serving, m: Moment): Serving
    requires IsMoment(m)
  {
    if !s.end.Continues? || |s.left| < PACKET_SIZE then s
    else
      var p := DecodePacket(s.left[..PACKET_SIZE]);
      var (h, rest) := HandleEffect(p, s.left[PACKET_SIZE..], m);
      Serving(s.packets + [p], rest, h)
  }

  /** The first `n` turns on a stream. */
  function Serve(stream: Bytes, n: nat, moments: Moments): (s: Serving)
    ensures |s.packets| <= n
  {
    if n == 0 then Serving([], stream, Continues) else Turn(Serve(stream, n - 1, moments), moments(n - 1))
  }

  /** One turn in place: 1 for a command handled, else recvCmd's result. */
  method TakeCommand(sock: Socket, m: Moment) returns (ret: int, packet: Option<Packet>, h: Handled)
    requires IsMoment(m)
    modifies sock`incoming, sock`recvScript
    ensures packet.Some? <==> ret > 0
    ensures Failed !in old(sock.recvScript) ==>
              && Failed !in sock.recvScript
              && (ret > 0 <==> |old(sock.incoming)| >= PACKET_SIZE)
              && (ret <= 0 ==> ret == 0 && sock.incoming == [])
              && (ret > 0 ==>
                   var s := Turn(Serving([], old(sock.incoming), Continues), m);
                   && s.packets == [packet.value] && s.end == h
                   && (h.Continues? ==> s.left == sock.incoming))
  {
    hide HandleEffect, DecodePacket;
    h := Continues;
    ret, packet := RecvCmd(sock);
    if ret <= 0 {
      return;
    }
    h := CmdParse(sock, packet.value, m);
    assert [] + [packet.value] == [packet.value];
  }

  lemma TurnExtends(s: Serving, m: Moment)
    requires IsMoment(m) && s.end.Continues? && |s.left| >= PACKET_SIZE
    ensures var t := Turn(Serving([], s.left, Continues), m);
            && |t.packets| == 1 && Turn(s, m) == Serving(s.packets + t.packets, t.left, t.end)
  {
    hide HandleEffect, DecodePacket;
    assert forall p: Packet :: [] + [p] == [p];
  }

  // ---------- where the packets are ----------

  lemma RestIsShorter(stream: Bytes, n: nat)
    ensures |Rest(stream, n)| <= |stream|
    ensures n > 0 && stream != [] ==> |Rest(stream, n)| < |stream|
  {
  }

  lemma FrameShortens(t: Train, limit: nat, stream: Bytes)
    requires IsTrain(t) && limit <= DATA_SIZE && FrameInto(t, limit, stream).Some?
    ensures |FrameInto(t, limit, stream).value.1| <= |stream|
    ensures stream != [] ==> |FrameInto(t, limit, stream).value.1| < |stream|
  {
    hide DecodeInt, Overlaid;
    RestIsShorter(stream, 4);
    RestIsShorter(Rest(stream, 4), DecodeInt(Overlaid(t.length, stream)));
  }

  /** PutFile takes something whenever there is something to take. */
  lemma PutTakes(stream: Bytes, m: Moment)
    requires IsMoment(m)
    ensures |PutEffect(stream, m).1| <= |stream|
    ensures stream != [] ==> |PutEffect(stream, m).1| < |stream|
  {
    hide FrameInto, DecodeOff, Copied;
    if ReadHeader(stream, CLEARED, m.nameBuf, m.sizeBuf).Some? {
      FrameShortens(CLEARED, |m.nameBuf|, stream);
      var (t1, s1) := FrameInto(CLEARED, |m.nameBuf|, stream).value;
      FrameShortens(t1, 8, s1);
      var u := ReadHeader(stream, CLEARED, m.nameBuf, m.sizeBuf).value;
      if u.size > 0 { RestIsShorter(u.rest, u.size); }
    }
  }

  /** No `put` among the packets before `n`, and none that stopped the server. */
  predicate NoPutBefore(packets: seq<Packet>, n: int) {
    forall i :: 0 <= i < n && i < |packets| ==> packets[i].code != REQ_PUT
  }

  /** Where the k-th packet is if nothing else is taken. */
  function At(k: nat): nat { k * PACKET_SIZE }

  lemma AtNext(k: nat)
    ensures At(k + 1) == At(k) + PACKET_SIZE && At(0) == 0
  {
  }

  function PacketAt(stream: Bytes, k: nat): Packet
    requires At(k) + PACKET_SIZE <= |stream|
  {
    DecodePacket(stream[At(k)..At(k) + PACKET_SIZE])
  }

  /** The packets are the first ones of the stream, one right after the other. */
  predicate InPlace(stream: Bytes, packets: seq<Packet>) {
    At(|packets|) <= |stream| &&
    forall k :: 0 <= k < |packets| ==> At(k) + PACKET_SIZE <= |stream| && packets[k] == PacketAt(stream, k)
  }

  lemma OneMoreInPlace(stream: Bytes, packets: seq<Packet>, left: Bytes)
    requires InPlace(stream, packets) && left == stream[At(|packets|)..] && |left| >= PACKET_SIZE
    ensures InPlace(stream, packets + [DecodePacket(left[..PACKET_SIZE])])
    ensures At(|packets|) + PACKET_SIZE <= |stream| && left[PACKET_SIZE..] == stream[At(|packets|) + PACKET_SIZE..]
  {
    hide DecodePacket, At;
    var at := At(|packets|);
    AtNext(|packets|);
    assert left[..PACKET_SIZE] == stream[at..at + PACKET_SIZE];
    assert left[PACKET_SIZE..] == stream[at + PACKET_SIZE..];
  }

  /** What can be said of the position after some turns. */
  predicate Placed(stream: Bytes, s: Serving) {
    && |s.left| + At(|s.packets|) <= |stream|
    && (NoPutBefore(s.packets, |s.packets| - 1) ==> InPlace(stream, s.packets))
    && (NoPutBefore(s.packets, |s.packets|) && !s.end.Garbled? ==> s.left == stream[At(|s.packets|)..])
    && (!NoPutBefore(s.packets, |s.packets| - 1) ==> |s.left| + At(|s.packets|) < |stream|)
    && (!NoPutBefore(s.packets, |s.packets|) && At(|s.packets|) < |stream| ==> |s.left| + At(|s.packets|) < |stream|)
  }

  lemma NoPutMore(packets: seq<Packet>, p: Packet)
    ensures NoPutBefore(packets + [p], |packets|) <==> NoPutBefore(packets, |packets|)
    ensures NoPutBefore(packets + [p], |packets| + 1) <==> NoPutBefore(packets, |packets|) && p.code != REQ_PUT
  {
    assert (packets + [p])[|packets|] == p;
    assert forall i :: 0 <= i < |packets| ==> (packets + [p])[i] == packets[i];
  }

  lemma HandlingShortens(p: Packet, stream: Bytes, m: Moment)
    requires IsMoment(m)
    ensures |HandleEffect(p, stream, m).1| <= |stream|
    ensures p.code == REQ_PUT && stream != [] ==> |HandleEffect(p, stream, m).1| < |stream|
    ensures p.code != REQ_PUT && !HandleEffect(p, stream, m).0.Garbled? ==> HandleEffect(p, stream, m).1 == stream
  {
    hide PutEffect;
    PutTakes(stream, m);
  }

  lemma TurnKeepsPlaced(stream: Bytes, s: Serving, m: Moment)
    requires IsMoment(m) && Placed(stream, s)
    ensures Placed(stream, Turn(s, m))
  {
    if s.end.Continues? && |s.left| >= PACKET_SIZE {
      hide DecodePacket, HandleEffect, InPlace, NoPutBefore, At;
      AtNext(|s.packets|);
      var p := DecodePacket(s.left[..PACKET_SIZE]);
      NoPutMore(s.packets, p);
      HandlingShortens(p, s.left[PACKET_SIZE..], m);
      if NoPutBefore(s.packets, |s.packets|) {
        OneMoreInPlace(stream, s.packets, s.left);
      }
    }
  }

  lemma {:induction false} ServePlaced(stream: Bytes, n: nat, moments: Moments)
    ensures Placed(stream, Serve(stream, n, moments))
  {
    if n > 0 {
      hide Placed, Turn;
      ServePlaced(stream, n - 1, moments);
      TurnKeepsPlaced(stream, Serve(stream, n - 1, moments), moments(n - 1));
    } else {
      assert stream[0..] == stream;
    }
  }

  /** Packets are taken one right after the other up to and including the first `put`; and
      the server still stands at a packet boundary, having taken nothing else, if and only
      if it has met no `put`, or one at the very end of the stream. */
  lemma PutMovesTheBoundary(stream: Bytes, n: nat, moments: Moments)
    requires !Serve(stream, n, moments).end.Garbled?
    ensures var s := Serve(stream, n, moments);
            && (NoPutBefore(s.packets, |s.packets| - 1) ==> InPlace(stream, s.packets))
            && (|s.left| + At(|s.packets|) == |stream| <==>
                 || NoPutBefore(s.packets, |s.packets|)
                 || (NoPutBefore(s.packets, |s.packets| - 1) && At(|s.packets|) == |stream|))
  {
    hide Serve, InPlace;
    ServePlaced(stream, n, moments);
  }

  // ---------- a put with no file behind it ----------

  /** A command with no argument, and a code that leaves its own fields behind the bytes
      that PutFile takes for a name and a size: cd, ls, pwd or rm. */
  predicate IsBare(p: Packet) { IsPacket(p) && 1 <= p.code <= 4 && p.argFlag == 0 && p.length == 0 }

  lemma BareBytes(p: Packet, later: Bytes)
    requires IsBare(p)
    ensures var b := EncodePacket(p) + later;
            |b| >= 12 && b[..4] == EncodeInt(p.code) && b[4..12] == Zeros(8)
  {
    ZeroLength();
    var b := EncodePacket(p) + later;
    assert EncodeInt(0) == EncodeLE(0, 4);
    assert b[4..8] == Zeros(4) && b[8..12] == Zeros(4);
    assert b[4..12] == b[4..8] + b[8..12];
  }

  /** PutFile takes a command that follows a put for a name and a size: the name is empty,
      the size whatever its variable held. */
  lemma CommandReadAsHeader(p: Packet, later: Bytes, m: Moment)
    requires IsBare(p) && IsMoment(m)
    ensures var u := ReadHeader(EncodePacket(p) + later, CLEARED, m.nameBuf, m.sizeBuf);
            u.Some? && u.value.name == [] && u.value.size == DecodeOff(m.sizeBuf)
  {
    hide EncodeInt, DecodeInt, EncodePacket, DecodeOff, FrameInto, Copied;
    var b, c := EncodePacket(p) + later, p.code;
    BareBytes(p, later);
    SliceOfSlice(b, 4, 12, 0, c);
    SliceOfSlice(b, 4, 12, c, c + 4);
    EmptyName(b, c, m.nameBuf);
    var (t1, s1) := FrameInto(CLEARED, |m.nameBuf|, b).value;
    NoSize(t1, s1, m.sizeBuf);
    CStrIs(Copied(t1, m.nameBuf), 0);
  }

  lemma EmptyName(b: Bytes, c: nat, nameBuf: Bytes)
    requires 1 <= c <= 4 && |b| >= 12 && |nameBuf| == FILENAME_SIZE
    requires b[..4] == EncodeInt(c) && b[4..4 + c] == Zeros(8)[..c] && b[4 + c..8 + c] == Zeros(8)[c..c + 4]
    ensures var r := FrameInto(CLEARED, |nameBuf|, b);
            && r.Some? && Copied(r.value.0, nameBuf)[0] == '\0'
            && |r.value.1| >= 4 && r.value.1[..4] == Zeros(4)
  {
    hide EncodeInt, DecodeInt;
    IntRoundTrip(c, EncodeInt(c));
    assert Overlaid(CLEARED.length, b) == EncodeInt(c);
    assert Rest(b, 4)[..c] == b[4..4 + c];
    assert Rest(Rest(b, 4), c)[..4] == b[4 + c..8 + c];
  }

  lemma NoSize(t: Train, stream: Bytes, sizeBuf: Bytes)
    requires IsTrain(t) && |sizeBuf| == 8 && |stream| >= 4 && stream[..4] == Zeros(4)
    ensures FrameInto(t, 8, stream).Some? && Copied(FrameInto(t, 8, stream).value.0, sizeBuf) == sizeBuf
  {
    hide EncodeInt, DecodeInt;
    ZeroLength();
    assert Overlaid(t.length, stream) == Zeros(4);
  }

  /** So a bare put followed by such a command ends the server: it opens the empty name,
      which no file has.  The second command is never seen, and neither is anything after it. */
  lemma PutThenCommandEndsServer(put: Packet, p: Packet, later: Bytes, n: nat, moments: Moments)
    requires IsPacket(put) && put.code == REQ_PUT && put.argFlag == 0 && IsBare(p)
    requires !moments(0).permits([])
    ensures var s := Serve(EncodePacket(put) + (EncodePacket(p) + later), n, moments);
            n > 0 ==> s.packets == [put] && s.end == Exits
    decreases n
  {
    hide EncodePacket, DecodePacket, ReadHeader, Turn;
    var stream := EncodePacket(put) + (EncodePacket(p) + later);
    if n == 1 {
      PacketRoundTrip(put);
      CommandReadAsHeader(p, later, moments(0));
      assert stream[..PACKET_SIZE] == EncodePacket(put) && stream[PACKET_SIZE..] == EncodePacket(p) + later;
      FirstTurn(stream, put, moments);
    } else if n > 1 {
      PutThenCommandEndsServer(put, p, later, n - 1, moments);
      NoTurnAfterExit(Serve(stream, n - 1, moments), moments(n - 1));
    }
  }

  lemma FirstTurn(stream: Bytes, p: Packet, moments: Moments)
    requires |stream| >= PACKET_SIZE && DecodePacket(stream[..PACKET_SIZE]) == p
    ensures var (h, rest) := HandleEffect(p, stream[PACKET_SIZE..], moments(0));
            Serve(stream, 1, moments) == Serving([p], rest, h)
  {
    hide HandleEffect, DecodePacket;
    assert Serve(stream, 0, moments) == Serving([], stream, Continues);
    assert [] + [p] == [p];
  }

  lemma NoTurnAfterExit(s: Serving, m: Moment)
    requires IsMoment(m) && !s.end.Continues?
    ensures Turn(s, m) == s
  {
  }

  /** A put that is followed by a name of at most 255 bytes and a size: it ends the server
      exactly if the name does not open or the size is not that of a mapping; else it leaves
      the stream just past that many bytes. */
  lemma UploadDecides(name: Text, size: Int64, rest: Bytes, m: Moment)
    requires IsMoment(m) && |name| <= 255 && m.nameBuf[|name|] == '\0'
    ensures PutEffect(Header(name, size) + rest, m)
         == if !m.permits(name) || size <= 0 || !m.maps(size) then (Exits, rest)
            else (Continues, if size <= |rest| then rest[size..] else [])
  {
    hide ReadHeader, Header;
    HeaderReadsBack(name, size, rest, CLEARED, m.nameBuf, m.sizeBuf);
  }

  /** A put that is followed by a whole upload leaves the stream just past it. */
  lemma UploadIsTaken(name: Text, content: Bytes, later: Bytes, m: Moment)
    requires IsMoment(m) && |name| <= 255 && m.nameBuf[|name|] == '\0'
    requires 0 < |content| < TWO63 && m.permits(name) && m.maps(|content|)
    ensures PutEffect(Header(name, |content|) + (content + later), m) == (Continues, later)
  {
    hide Header, PutEffect;
    UploadDecides(name, |content|, content + later, m);
    assert (content + later)[|content|..] == later;
  }

  /** A get whose `open` fails ends the server, which sees nothing behind it. */
  lemma GetEndsServer(get: Packet, later: Bytes, n: nat, moments: Moments)
    requires IsPacket(get) && get.code == 6 && '\0' in get.data && moments(0).getEnds(CStr(get.data))
    ensures var s := Serve(EncodePacket(get) + later, n, moments);
            n > 0 ==> s.packets == [get] && s.end == Exits && s.left == later
    decreases n
  {
    hide EncodePacket, DecodePacket, HandleEffect, Turn;
    var stream := EncodePacket(get) + later;
    if n == 1 {
      PacketRoundTrip(get);
      assert stream[..PACKET_SIZE] == EncodePacket(get) && stream[PACKET_SIZE..] == later;
      FirstTurn(stream, get, moments);
      HandledByNumber(get, later, moments(0));
    } else if n > 1 {
      GetEndsServer(get, later, n - 1, moments);
      NoTurnAfterExit(Serve(stream, n - 1, moments), moments(n - 1));
    }
  }

  // ---------- a client and a server ----------

  /** A command after which the server does not stand at the next packet, or not at all. */
  predicate Disturbs(r: Request, m: Moment) { r.code == REQ_PUT || (r.code == REQ_GET && m.getEnds(r.arg)) }

  predicate AllCommands(commands: seq<seq<Bytes>>) { forall i :: 0 <= i < |commands| ==> IsCommand(commands[i]) }

  predicate DisturbsAt(commands: seq<seq<Bytes>>, moments: Moments, i: nat)
    requires AllCommands(commands) && i < |commands|
  {
    Disturbs(RequestOf(commands[i]), moments(i))
  }

  predicate Undisturbed(commands: seq<seq<Bytes>>, moments: Moments, n: nat)
    requires AllCommands(commands) && n <= |commands|
  {
    forall i: nat :: i < n ==> !DisturbsAt(commands, moments, i)
  }

  /** How many of these commands reach their handlers: all up to and including the first
      that disturbs. */
  function Reaching(commands: seq<seq<Bytes>>, moments: Moments, from: nat): (n: nat)
    requires AllCommands(commands) && from <= |commands|
    ensures from <= n <= |commands|
    decreases |commands| - from
  {
    if from == |commands| then from
    else if DisturbsAt(commands, moments, from) then from + 1
    else Reaching(commands, moments, from + 1)
  }

  lemma {:induction false} ReachingIs(commands: seq<seq<Bytes>>, moments: Moments, from: nat)
    requires AllCommands(commands) && from <= |commands| && Undisturbed(commands, moments, from)
    ensures var n := Reaching(commands, moments, from);
            && (n > 0 ==> Undisturbed(commands, moments, n - 1))
            && (n < |commands| ==> n > 0 && DisturbsAt(commands, moments, n - 1))
            && (Undisturbed(commands, moments, |commands|) ==> n == |commands|)
    decreases |commands| - from
  {
    hide DisturbsAt;
    if from < |commands| && !DisturbsAt(commands, moments, from) {
      ReachingIs(commands, moments, from + 1);
    }
  }

  /** A packet whose data was checked to be a string does not disturb unless its request does. */
  lemma QuietPacket(p: Packet, stream: Bytes, m: Moment)
    requires IsMoment(m) && IsPacket(p) && |CStr(p.data)| < ARG_SIZE
    ensures !HandleEffect(p, stream, m).0.Garbled? || p.code == REQ_PUT
    ensures !Disturbs(Says(p), m) ==> HandleEffect(p, stream, m) == (Continues, stream)
    ensures p.code == 6 && m.getEnds(CStr(p.data)) ==> HandleEffect(p, stream, m) == (Exits, stream)
  {
    hide PutEffect;
    assert p.data[StrLen(p.data)] == '\0';
  }

  lemma CommandsAreStrings(ps: seq<Packet>, commands: seq<seq<Bytes>>, i: nat)
    requires Say(ps, commands) && i < |ps| && IsCommand(commands[i])
    ensures |CStr(ps[i].data)| < ARG_SIZE
  {
    assert Says(ps[i]) == RequestOf(commands[i]);
  }

  /** Packets of commands, with anything behind them, are taken in order up to the first
      that disturbs; without one the server then stands right behind them. */
  lemma {:induction false} CommandsArriveInOrder(ps: seq<Packet>, commands: seq<seq<Bytes>>, tail: Bytes,
                                                 n: nat, moments: Moments)
    requires Say(ps, commands) && AllCommands(commands) && n <= |ps|
    requires n > 0 ==> Undisturbed(commands, moments, n - 1)
    ensures var s := Serve(EncodePackets(ps) + tail, n, moments);
            && s.packets == ps[..n]
            && (Undisturbed(commands, moments, n) ==> s.end.Continues? && Behind(s.left, ps, n, tail))
            && (n > 0 && ps[n - 1].code == 6 && moments(n - 1).getEnds(CStr(ps[n - 1].data)) ==> s.end == Exits)
    decreases n
  {
    hide HandleEffect, DecodePacket, EncodePackets, RequestOf, Says, CStr, Disturbs, Turn, Behind;
    var stream := EncodePackets(ps) + tail;
    if n == 0 {
      BehindNone(ps, tail);
      assert ps[..0] == [];
    } else {
      CommandsArriveInOrder(ps, commands, tail, n - 1, moments);
      var before := Serve(stream, n - 1, moments);
      CommandsAreStrings(ps, commands, n - 1);
      NextTurn(before, ps, n - 1, tail, moments(n - 1));
      assert Says(ps[n - 1]) == RequestOf(commands[n - 1]);
      assert !Disturbs(Says(ps[n - 1]), moments(n - 1)) <==> !DisturbsAt(commands, moments, n - 1);
      assert ps[..n] == ps[..n - 1] + [ps[n - 1]];
    }
  }

  /** The stream from the n-th packet on. */
  predicate Behind(left: Bytes, ps: seq<Packet>, n: nat, tail: Bytes)
    requires forall p | p in ps :: IsPacket(p)
  {
    n * PACKET_SIZE <= |EncodePackets(ps)| && left == EncodePackets(ps)[n * PACKET_SIZE..] + tail
  }

  lemma BehindNone(ps: seq<Packet>, tail: Bytes)
    requires forall p | p in ps :: IsPacket(p)
    ensures Behind(EncodePackets(ps) + tail, ps, 0, tail)
  {
    hide EncodePackets;
    assert EncodePackets(ps)[0..] == EncodePackets(ps);
  }

  lemma BehindAll(left: Bytes, ps: seq<Packet>, n: nat, tail: Bytes)
    requires (forall p | p in ps :: IsPacket(p)) && n == |ps| && Behind(left, ps, n, tail)
    ensures left == tail
  {
    StreamLength(ps);
  }

  lemma NextTurn(before: Serving, ps: seq<Packet>, n: nat, tail: Bytes, m: Moment)
    requires (forall p | p in ps :: IsPacket(p)) && n < |ps| && IsMoment(m)
    requires before.end.Continues? && Behind(before.left, ps, n, tail) && |CStr(ps[n].data)| < ARG_SIZE
    ensures Turn(before, m).packets == before.packets + [ps[n]]
    ensures !Disturbs(Says(ps[n]), m) ==> Turn(before, m).end.Continues? && Behind(Turn(before, m).left, ps, n + 1, tail)
    ensures ps[n].code == 6 && m.getEnds(CStr(ps[n].data)) ==> Turn(before, m).end == Exits
  {
    hide HandleEffect, DecodePacket, EncodePackets, CStr, Disturbs;
    NextPacket(ps, n, tail);
    QuietPacket(ps[n], before.left[PACKET_SIZE..], m);
  }

  /** The server's command loop over the next `n` packets. */
  method ReceiveCommands(server: Socket, n: nat, moments: Moments) returns (seen: seq<(Request, Handler)>, end: Handled)
    requires Failed !in server.recvScript
    modifies server`incoming, server`recvScript
    ensures var s := Serve(old(server.incoming), n, moments);
            && |seen| == |s.packets| && end == s.end
            && (forall i :: 0 <= i < |seen| ==> seen[i] == (Says(s.packets[i]), Dispatch(s.packets[i].code)))
            && (end.Continues? && |seen| == n ==> server.incoming == s.left)
  {
    hide Turn, Says, Dispatch;
    seen, end := [], Continues;
    ghost var stream := server.incoming;
    for k := 0 to n
      invariant Failed !in server.recvScript && end.Continues?
      invariant Serve(stream, k, moments).end.Continues? && server.incoming == Serve(stream, k, moments).left
      invariant |seen| == |Serve(stream, k, moments).packets| == k
      invariant forall i :: 0 <= i < k ==>
                  seen[i] == (Says(Serve(stream, k, moments).packets[i]), Dispatch(Serve(stream, k, moments).packets[i].code))
    {
      ghost var before := Serve(stream, k, moments);
      var ret, packet, h := TakeCommand(server, moments(k));
      if ret <= 0 {
        StaysShort(stream, k, n, moments);
        return;
      }
      TurnExtends(before, moments(k));
      seen, end := seen + [(Says(packet.value), Dispatch(packet.value.code))], h;
      if !h.Continues? {
        StaysEnded(stream, k + 1, n, moments);
        return;
      }
    }
  }

  lemma {:induction false} StaysShort(stream: Bytes, k: nat, n: nat, moments: Moments)
    requires k <= n && |Serve(stream, k, moments).left| < PACKET_SIZE
    ensures Serve(stream, n, moments) == Serve(stream, k, moments)
    decreases n
  {
    hide HandleEffect;
    if k < n { StaysShort(stream, k, n - 1, moments); }
  }

  lemma {:induction false} StaysEnded(stream: Bytes, k: nat, n: nat, moments: Moments)
    requires k <= n && !Serve(stream, k, moments).end.Continues?
    ensures Serve(stream, n, moments) == Serve(stream, k, moments)
    decreases n
  {
    hide HandleEffect;
    if k < n { StaysEnded(stream, k, n - 1, moments); }
  }

  /** Command fidelity: any lines typed, sent as packets and received under any
      fragmentation, reach the server's switch in order and select the typed commands with
      their arguments, up to and including the first put, or get that ends the server.
      Without such a command they all do, and the stream stands right behind them.  By the
      words alone: only a put, or a get whose `open` fails, keeps a later command from its
      handler, and such a get ends the server. */
  method Converse(client: Socket, server: Socket, lines: seq<Text>, later: Bytes, moments: Moments)
    returns (seen: seq<(Request, Handler)>, end: Handled)
    requires client != server && client.sendScript == [] && client.outgoing == []
    requires Failed !in server.recvScript
    modifies client, server
    ensures var commands := Sent(lines).commands;
            && AllCommands(commands) && |seen| == Reaching(commands, moments, 0)
            && (forall i :: 0 <= i < |seen| ==>
                 commands[i] != [] && seen[i] == (RequestOf(commands[i]), Meant(commands[i][0])))
            && (Undisturbed(commands, moments, |commands|) ==>
                 |seen| == |commands| && end.Continues? && server.incoming == later)
    // by the words alone
    ensures SeenByWords(seen, end, Sent(lines).commands, moments)
    ensures NoStop(Sent(lines).commands, moments) ==> end.Continues? && server.incoming == later
  {
    hide EncodePackets, Tokens, IsPacket, CodeOf, Dispatch, Meant, Serve, DisturbsAt, Sent, Transmission, Says, Reaching,
         Behind, IsCommand, RequestOf, SeenByWords, NoStop, CStr;
    var packets := SendLines(client, lines);
    var commands := Sent(lines).commands;
    var n := Reaching(commands, moments, 0);
    server.incoming := client.outgoing + later;
    ghost var tail := TailBehind(packets, Sent(lines), later);
    ReachingIs(commands, moments, 0);
    CommandsArriveInOrder(packets, commands, tail, n, moments);
    seen, end := ReceiveCommands(server, n, moments);
    SeenAreMeant(seen, packets, commands);
    WordsSeen(seen, end, packets, commands, moments);
    NoStopIsUndisturbed(commands, moments);
    if Undisturbed(commands, moments, |commands|) {
      EndedDisturbs(lines, moments);
      BehindAll(server.incoming, packets, n, tail);
    }
  }

  /** The argument of a command, empty if it has none. */
  function ArgOf(words: seq<Bytes>): Bytes { if |words| == 2 then words[1] else [] }

  lemma ByWords(words: seq<Bytes>)
    requires IsCommand(words)
    ensures var r := RequestOf(words);
            1 <= |words| <= 2 && r.argFlag == |words| - 1 && r.arg == ArgOf(words) && r.length == |r.arg|
  {
  }

  /** A put, or a get that comes to its `open` and fails there. */
  predicate Stops(words: seq<Bytes>, m: Moment) {
    words != [] && (words[0] == "put" || (words[0] == "get" && m.getEnds(ArgOf(words))))
  }

  predicate NoStop(commands: seq<seq<Bytes>>, moments: Moments) {
    forall i: nat :: i < |commands| ==> !Stops(commands[i], moments(i))
  }

  /** The server has come to these commands, each with its flag, its argument and its
      length, in order: to all of them, or up to and including the first that stops it;
      and a get that stops it ends it. */
  predicate SeenByWords(seen: seq<(Request, Handler)>, end: Handled, commands: seq<seq<Bytes>>, moments: Moments) {
    && |seen| <= |commands|
    && (forall i :: 0 <= i < |seen| ==>
         && 1 <= |commands[i]| <= 2 && seen[i].0.argFlag == |commands[i]| - 1
         && seen[i].0.arg == ArgOf(commands[i]) && seen[i].0.length == |seen[i].0.arg|)
    && (forall i: nat :: i < |seen| - 1 ==> !Stops(commands[i], moments(i)))
    && (|seen| < |commands| ==> seen != [] && Stops(commands[|seen| - 1], moments(|seen| - 1)))
    && (seen != [] && commands[|seen| - 1][0] == "get" && Stops(commands[|seen| - 1], moments(|seen| - 1)) ==> end == Exits)
  }

  lemma DisturbsIsStops(commands: seq<seq<Bytes>>, moments: Moments, i: nat)
    requires AllCommands(commands) && i < |commands|
    ensures DisturbsAt(commands, moments, i) <==> Stops(commands[i], moments(i))
  {
    hide Disturbs, RequestOf, ArgOf, IsCommand, Stops;
    StopsByWords(commands[i], moments(i));
  }

  lemma StopsByWords(words: seq<Bytes>, m: Moment)
    requires IsCommand(words)
    ensures Disturbs(RequestOf(words), m) <==> Stops(words, m)
  {
  }

  lemma NoStopIsUndisturbed(commands: seq<seq<Bytes>>, moments: Moments)
    requires AllCommands(commands)
    ensures NoStop(commands, moments) <==> Undisturbed(commands, moments, |commands|)
  {
    hide DisturbsAt, Stops;
    forall i: nat | i < |commands|
      ensures DisturbsAt(commands, moments, i) <==> Stops(commands[i], moments(i))
    {
      DisturbsIsStops(commands, moments, i);
    }
  }

  /** Where the commands that are reached end, by the words. */
  lemma ReachedByWords(commands: seq<seq<Bytes>>, moments: Moments)
    requires AllCommands(commands)
    ensures var n := Reaching(commands, moments, 0);
            && (forall i: nat :: i < n - 1 ==> !Stops(commands[i], moments(i)))
            && (n < |commands| ==> n > 0 && Stops(commands[n - 1], moments(n - 1)))
  {
    hide DisturbsAt, Stops, Reaching, IsCommand;
    ReachingIs(commands, moments, 0);
    forall i: nat | i < |commands|
      ensures DisturbsAt(commands, moments, i) <==> Stops(commands[i], moments(i))
    {
      DisturbsIsStops(commands, moments, i);
    }
  }

  lemma RequestsByWords(seen: seq<(Request, Handler)>, commands: seq<seq<Bytes>>)
    requires AllCommands(commands) && |seen| <= |commands|
    requires forall i :: 0 <= i < |seen| ==> seen[i].0 == RequestOf(commands[i])
    ensures forall i :: 0 <= i < |seen| ==>
              && 1 <= |commands[i]| <= 2 && seen[i].0.argFlag == |commands[i]| - 1
              && seen[i].0.arg == ArgOf(commands[i]) && seen[i].0.length == |seen[i].0.arg|
  {
    hide RequestOf, ArgOf, IsCommand;
    forall i | 0 <= i < |seen|
      ensures 1 <= |commands[i]| <= 2 && seen[i].0.argFlag == |commands[i]| - 1
      ensures seen[i].0.arg == ArgOf(commands[i]) && seen[i].0.length == |seen[i].0.arg|
    {
      ByWords(commands[i]);
    }
  }

  lemma WordsSeen(seen: seq<(Request, Handler)>, end: Handled, ps: seq<Packet>, commands: seq<seq<Bytes>>, moments: Moments)
    requires Say(ps, commands) && AllCommands(commands) && |seen| == Reaching(commands, moments, 0)
    requires forall i :: 0 <= i < |seen| ==> seen[i].0 == RequestOf(commands[i])
    requires seen != [] && ps[|seen| - 1].code == 6 && moments(|seen| - 1).getEnds(CStr(ps[|seen| - 1].data)) ==> end == Exits
    ensures SeenByWords(seen, end, commands, moments)
  {
    hide IsCommand, RequestOf, ArgOf, Reaching, CStr, Stops, Says;
    ReachedByWords(commands, moments);
    RequestsByWords(seen, commands);
    if seen != [] {
      var last := |seen| - 1;
      assert Says(ps[last]) == RequestOf(commands[last]);
      GetThatStops(ps[last], commands[last], moments(last));
    }
  }

  lemma GetThatStops(p: Packet, words: seq<Bytes>, m: Moment)
    requires IsCommand(words) && Says(p) == RequestOf(words)
    ensures words[0] == "get" && Stops(words, m) ==> p.code == 6 && m.getEnds(CStr(p.data))
  {
  }

  lemma SeenAreMeant(seen: seq<(Request, Handler)>, ps: seq<Packet>, commands: seq<seq<Bytes>>)
    requires Say(ps, commands) && |seen| <= |ps|
    requires forall i :: 0 <= i < |seen| ==> seen[i] == (Says(ps[i]), Dispatch(ps[i].code))
    ensures forall i :: 0 <= i < |seen| ==>
              commands[i] != [] && seen[i] == (RequestOf(commands[i]), Meant(commands[i][0]))
  {
    hide Dispatch, Meant, CodeOf, CStr;
    forall i | 0 <= i < |seen|
      ensures commands[i] != [] && seen[i] == (RequestOf(commands[i]), Meant(commands[i][0]))
    {
      assert Says(ps[i]) == RequestOf(commands[i]);
      DispatchIsMeant(commands[i][0]);
    }
  }

  lemma TailBehind(packets: seq<Packet>, sent: Sending, later: Bytes) returns (tail: Bytes)
    requires forall p | p in packets :: IsPacket(p)
    requires sent.ended ==> sent.commands != [] && IsCommand(sent.commands[|sent.commands| - 1])
                            && EndsClient(sent.commands[|sent.commands| - 1])
    ensures [] + Transmission(packets, sent) + later == EncodePackets(packets) + tail
    ensures !sent.ended ==> tail == later
  {
    hide Frame, EncodePackets;
    tail := if sent.ended then Frame(sent.commands[|sent.commands| - 1][1]) + later else later;
  }

  /** A client that was ended by a put has sent one. */
  lemma EndedDisturbs(lines: seq<Text>, moments: Moments)
    ensures var s := Sent(lines);
            && AllCommands(s.commands)
            && (s.ended ==> s.commands != [] && DisturbsAt(s.commands, moments, |s.commands| - 1))
  {
    hide Tokens;
  }
}
