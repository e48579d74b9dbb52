/** Sending and receiving a file (server/fileHandle.c): a frame with the name, a frame
    with the size as an `off_t`, then the content, received into a memory map. */
module FileTransfer {
  import opened CTypes
  import opened SocketIO
  import opened Frames

  const NAME_SIZE: nat := 128

  /** Whether the call returned, ERROR_CHECK ended the process, or a length or a name that
      does not fit its buffer made the model stop. */
  datatype Outcome = Returned(ret: int) | ProcessExited | Undefined

  // ---------- the two frames in front of a file ----------

  /** A `train_t` that is used for one frame after the other and not cleared between. */
  datatype Train = Train(length: Bytes, data: Bytes)

  predicate IsTrain(t: Train) { |t.length| == 4 && |t.data| == DATA_SIZE }

  /** One frame into the train and what it leaves of the stream; None for a length that the
      buffer the data is copied to does not take. */
  function FrameInto(t: Train, limit: nat, stream: Bytes): (r: Option<(Train, Bytes)>)
    requires IsTrain(t) && limit <= DATA_SIZE
    ensures r.Some? ==> IsTrain(r.value.0) && 0 <= DecodeInt(r.value.0.length) <= limit
  {
    var length := Overlaid(t.length, stream);
    var n := DecodeInt(length);
    if 0 <= n <= limit
    then Some((Train(length, Overlaid(t.data[..n], Rest(stream, 4)) + t.data[n..]), Rest(Rest(stream, 4), n)))
    else None
  }

  /** memcpy of the received bytes over a buffer. */
  function Copied(t: Train, buf: Bytes): (r: Bytes)
    requires IsTrain(t) && 0 <= DecodeInt(t.length) <= |buf| <= DATA_SIZE
    ensures |r| == |buf|
  {
    var n := DecodeInt(t.length);
    t.data[..n] + buf[n..]
  }

  datatype Upload = Upload(name: Text, size: Int64, rest: Bytes)

  /** Name and size as a receiver reads them, whatever its buffers held before; None when
      a frame does not fit or the name is not terminated inside its buffer. */
  function ReadHeader(stream: Bytes, t: Train, nameBuf: Bytes, sizeBuf: Bytes): Option<Upload>
    requires IsTrain(t) && |nameBuf| <= DATA_SIZE && |sizeBuf| == 8
  {
    match FrameInto(t, |nameBuf|, stream)
    case None => None
    case Some((t1, s1)) =>
      match FrameInto(t1, 8, s1)
      case None => None
      case Some((t2, s2)) =>
        if '\0' !in Copied(t1, nameBuf) then None
        else Some(Upload(CStr(Copied(t1, nameBuf)), DecodeOff(Copied(t2, sizeBuf)), s2))
  }

  function Header(name: Text, size: Int64): Bytes
    requires |name| <= DATA_SIZE
  {
    Frame(name) + Frame(EncodeOff(size))
  }

  lemma WholeFrameInto(t: Train, limit: nat, payload: Bytes, rest: Bytes, buf: Bytes)
    requires IsTrain(t) && |payload| <= limit == |buf| <= DATA_SIZE
    ensures var r := FrameInto(t, limit, Frame(payload) + rest);
            && r.Some? && r.value.1 == rest && Copied(r.value.0, buf) == payload + buf[|payload|..]
  {
    hide EncodeInt, DecodeInt;
    var stream := EncodeInt(|payload|) + payload + rest;
    IntRoundTrip(|payload|, EncodeInt(|payload|));
    assert Overlaid(t.length, stream) == EncodeInt(|payload|);
    assert Rest(stream, 4) == payload + rest;
    assert Overlaid(t.data[..|payload|], payload + rest) == payload;
  }

  /** A whole header is read back, whatever the buffers held, as long as a terminator
      follows the name. */
  lemma HeaderReadsBack(name: Text, size: Int64, rest: Bytes, t: Train, nameBuf: Bytes, sizeBuf: Bytes)
    requires IsTrain(t) && |name| < |nameBuf| <= DATA_SIZE && |sizeBuf| == 8 && nameBuf[|name|] == '\0'
    ensures ReadHeader(Header(name, size) + rest, t, nameBuf, sizeBuf) == Some(Upload(name, size, rest))
  {
    hide FrameInto, Copied, Frame;
    var tail := Frame(EncodeOff(size)) + rest;
    assert Header(name, size) + rest == Frame(name) + tail;
    WholeFrameInto(t, |nameBuf|, name, tail, nameBuf);
    var t1 := FrameInto(t, |nameBuf|, Frame(name) + tail).value.0;
    WholeFrameInto(t1, 8, EncodeOff(size), rest, sizeBuf);
    assert EncodeOff(size) + sizeBuf[8..] == EncodeOff(size);
    OffRoundTrip(size, EncodeOff(size));
    var buf := name + nameBuf[|name|..];
    assert buf[|name|] == '\0' && buf[..|name|] == name;
    CStrIs(buf, |name|);
  }

  /** One frame received in place. */
  method ReceiveFrame(sock: Socket, length_: array<Byte>, data_: array<Byte>, limit: nat) returns (undefined: bool)
    requires length_.Length == 4 && data_.Length == DATA_SIZE && limit <= DATA_SIZE && length_ != data_
    modifies sock`incoming, sock`recvScript, length_, data_
    ensures !undefined ==> 0 <= DecodeInt(length_[..]) <= limit
    ensures Suffix(old(sock.incoming), sock.incoming)
    ensures Failed !in old(sock.recvScript) ==>
              && Failed !in sock.recvScript
              && var r := FrameInto(Train(old(length_[..]), old(data_[..])), limit, old(sock.incoming));
                 && (undefined <==> r.None?)
                 && (!undefined ==> Train(length_[..], data_[..]) == r.value.0 && sock.incoming == r.value.1)
  {
    hide DecodeInt, Overlaid, Rest;
    ghost var stream, length0, data0 := sock.incoming, length_[..], data_[..];
    Receive(sock, length_, 4);
    assert length_[..] == length_[..4] && length0 == length0[..4];
    var n := DecodeInt(length_[..]);
    if n < 0 || n > limit {
      return true;
    }
    ghost var mid := sock.incoming;
    Receive(sock, data_, n);
    SuffixOfSuffix(stream, mid, sock.incoming);
    if n == 0 { NothingReceived(data0, mid); }
    assert data_[..] == data_[..n] + data_[n..];
    return false;
  }

  lemma SuffixOfSuffix(a: Bytes, b: Bytes, c: Bytes)
    requires Suffix(a, b) && Suffix(b, c)
    ensures Suffix(a, c)
  {
    var m: nat :| m <= |a| && b == a[m..];
    var n: nat :| n <= |b| && c == b[n..];
    assert c == a[m + n..];
  }

  lemma NothingReceived(data: Bytes, stream: Bytes)
    ensures Overlaid(data[..0], stream) + data[0..] == data && Rest(stream, 0) == stream
  {
  }

  /** Name and size received in place, as recvFile and PutFile do. */
  method ReceiveHeader(sock: Socket, junk: Train, nameBuf: Bytes, sizeBuf: Bytes)
    returns (undefined: bool, name: Text, size: Int64)
    requires IsTrain(junk) && |nameBuf| <= DATA_SIZE && |sizeBuf| == 8
    modifies sock`incoming, sock`recvScript
    ensures Suffix(old(sock.incoming), sock.incoming)
    ensures Failed !in old(sock.recvScript) ==>
              && Failed !in sock.recvScript
              && var u := ReadHeader(old(sock.incoming), junk, nameBuf, sizeBuf);
                 && (undefined <==> u.None?)
                 && (!undefined ==> Upload(name, size, sock.incoming) == u.value)
  {
    hide FrameInto, DecodeInt, DecodeOff, CStr;
    ghost var stream := sock.incoming;
    name, size := [], 0;
    var length_ := new Byte[4](i requires 0 <= i < 4 => junk.length[i]);
    var data_ := new Byte[DATA_SIZE](i requires 0 <= i < DATA_SIZE => junk.data[i]);
    assert Train(length_[..], data_[..]) == junk;
    undefined := ReceiveFrame(sock, length_, data_, |nameBuf|);
    if undefined {
      return;
    }
    var n := DecodeInt(length_[..]);
    var fileName := data_[..n] + nameBuf[n..];
    ghost var mid := sock.incoming;
    undefined := ReceiveFrame(sock, length_, data_, 8);
    SuffixOfSuffix(stream, mid, sock.incoming);
    if undefined {
      return;
    }
    n := DecodeInt(length_[..]);
    var filesize := data_[..n] + sizeBuf[n..];
    if '\0' !in fileName {
      return true, [], 0;
    }
    return false, CStr(fileName), DecodeOff(filesize);
  }

  // ---------- files ----------

  /** The files by name; `permits` says which names can be opened, `maps` which sizes can be
      mapped (no size below one can). */
  class FileSystem {
    var files: map<Text, Bytes>
    const permits: Text -> bool
    const maps: nat -> bool

    constructor (files: map<Text, Bytes>, permits: Text -> bool, maps: nat -> bool)
      ensures this.files == files && this.permits == permits && this.maps == maps
    {
      this.files, this.permits, this.maps := files, permits, maps;
    }

    /** open with O_CREAT: a new file is empty. */
    method Create(name: Text)
      modifies this
      ensures files == old(files)[name := ContentOf(old(files), name)]
    {
      files := files[name := ContentOf(files, name)];
    }

    /** ftruncate: cut, or extended with zeros; fails, without effect, below zero. */
    method Truncate(name: Text, size: int)
      requires name in files
      modifies this
      ensures files == old(files)[name := Sized(old(files)[name], size)]
    {
      files := files[name := Sized(files[name], size)];
    }
  }

  function ContentOf(files: map<Text, Bytes>, name: Text): Bytes {
    if name in files then files[name] else []
  }

  function Sized(content: Bytes, size: int): Bytes { if size < 0 then content else Padded(content, size) }

  /** ftruncate, byte by byte: what was there up to the size, and zeros beyond it. */
  lemma SizedBytes(content: Bytes, size: int)
    ensures size < 0 ==> Sized(content, size) == content
    ensures size >= 0 ==>
              |Sized(content, size)| == size
              && forall i :: 0 <= i < size ==> Sized(content, size)[i] == (if i < |content| then content[i] else '\0')
  {
  }

  /** A receive that may meet the end of its stream, byte by byte. */
  lemma OverlaidBytes(buf: Bytes, stream: Bytes)
    ensures |Overlaid(buf, stream)| == |buf|
    ensures forall i :: 0 <= i < |buf| ==> Overlaid(buf, stream)[i] == (if i < |stream| then stream[i] else buf[i])
  {
  }

  /** So the file after an upload that breaks off has the announced size; it holds the bytes
      that came, and behind them what was there before, or zeros. */
  lemma InterruptedUpload(files: map<Text, Bytes>, name: Text, size: nat, part: Bytes)
    requires |part| <= size
    ensures var file := Overlaid(Sized(ContentOf(files, name), size), part);
            && |file| == size && part <= file
            && forall i :: |part| <= i < size ==>
                 file[i] == (if name in files && i < |files[name]| then files[name][i] else '\0')
  {
    SizedBytes(ContentOf(files, name), size);
    OverlaidBytes(Sized(ContentOf(files, name), size), part);
  }

  /** sendFile.  The results of the sends are ignored, so of each part a prefix leaves; the
      name has left before the file is opened. */
  method SendFile(sock: Socket, fs: FileSystem, fileName: Text)
    returns (outcome: Outcome, ghost sent: (nat, nat, nat))
    requires |fileName| <= DATA_SIZE
    requires fileName in fs.files ==> |fs.files[fileName]| < TWO63
    modifies sock`outgoing, sock`sendScript
    ensures outcome == if fileName in fs.files && fs.permits(fileName) then Returned(0) else ProcessExited
    ensures outcome == ProcessExited ==>
              && sent.0 <= |Frame(fileName)| && sock.outgoing == old(sock.outgoing) + Frame(fileName)[..sent.0]
              && (old(sock.sendScript) == [] ==> sent.0 == |Frame(fileName)|)
    ensures outcome == Returned(0) ==>
              var name, content := Frame(fileName), fs.files[fileName];
              var size := Frame(EncodeOff(|content|));
              && sent.0 <= |name| && sent.1 <= |size| && sent.2 <= |content|
              && sock.outgoing == old(sock.outgoing) + name[..sent.0] + size[..sent.1] + content[..sent.2]
              && (old(sock.sendScript) == [] ==>
                   sock.sendScript == [] && sent == (|name|, |size|, |content|))
  {
    var first := SendOnce(sock, Frame(fileName));
    if fileName !in fs.files || !fs.permits(fileName) {
      return ProcessExited, (first, 0, 0);
    }
    var content := fs.files[fileName];
    var second := SendOnce(sock, Frame(EncodeOff(|content|)));
    var third := SendOnce(sock, content);
    return Returned(0), (first, second, third);
  }

  /** One `send` or `sendfile` whose result is ignored. */
  method SendOnce(sock: Socket, data: Bytes) returns (ghost sent: nat)
    modifies sock`outgoing, sock`sendScript
    ensures sent <= |data| && sock.outgoing == old(sock.outgoing) + data[..sent]
    ensures old(sock.sendScript) == [] ==> sock.sendScript == [] && sent == |data|
  {
    if data == [] {
      return 0;
    }
    var sret, errno := sock.Send(data);
    return if sret < 0 then 0 else sret;
  }

  /** Line 35: the content into the mapping. */
  method ReceiveContent(sock: Socket, mapped: Bytes) returns (content: Bytes)
    modifies sock`incoming, sock`recvScript
    ensures |content| == |mapped| && Suffix(old(sock.incoming), sock.incoming)
    ensures Failed !in old(sock.recvScript) ==>
              && Failed !in sock.recvScript
              && content == Overlaid(mapped, old(sock.incoming)) && sock.incoming == Rest(old(sock.incoming), |mapped|)
  {
    var fileAddr := new Byte[|mapped|];
    CopyIn(fileAddr, 0, mapped);
    assert fileAddr[..] == fileAddr[..|mapped|] == mapped;
    Receive(sock, fileAddr, |mapped|);
    if |mapped| == 0 { NothingReceived(mapped, sock.incoming); }
    assert fileAddr[..] == fileAddr[..|mapped|];
    content := fileAddr[..];
  }

  /** recvFile, on any stream and any leftovers in its uninitialised variables (`junk`,
      `sizeBuf`).  The file is opened without truncation, so what it held before must go by
      the size; mapping no bytes fails, so an empty file ends the process. */
  method RecvFile(sock: Socket, fs: FileSystem, junk: Train, sizeBuf: Bytes) returns (outcome: Outcome)
    requires IsTrain(junk) && |sizeBuf| == 8
    modifies sock`incoming, sock`recvScript, fs
    ensures forall name :: name in old(fs.files) ==> name in fs.files
    ensures Failed !in old(sock.recvScript) ==>
              && Failed !in sock.recvScript
              && match ReadHeader(old(sock.incoming), junk, Zeros(128), sizeBuf)
                 case None => outcome == Undefined && fs.files == old(fs.files)
                 case Some(u) =>
                   var sized := Sized(ContentOf(old(fs.files), u.name), u.size);
                   if !fs.permits(u.name) then outcome == ProcessExited && fs.files == old(fs.files)
                   else if u.size <= 0 || !fs.maps(u.size) then
                     outcome == ProcessExited && fs.files == old(fs.files)[u.name := sized]
                   else
                     && outcome == Returned(0) && fs.files == old(fs.files)[u.name := Overlaid(sized, u.rest)]
                     && sock.incoming == Rest(u.rest, u.size)
  {
    hide ReadHeader, Overlaid, Rest;
    var undefined, fileName, filesize := ReceiveHeader(sock, junk, Zeros(NAME_SIZE), sizeBuf);
    if undefined {
      return Undefined;
    }
    if !fs.permits(fileName) {
      return ProcessExited;
    }
    fs.Create(fileName);
    fs.Truncate(fileName, filesize);
    if filesize <= 0 || !fs.maps(filesize) {
      return ProcessExited;
    }
    var content := ReceiveContent(sock, fs.files[fileName]);
    fs.files := fs.files[fileName := content];
    return Returned(0);
  }

  /** A file sent and received: the receiver ends up with exactly that name and content,
      whatever it held before, every other file is as it was, and the stream stands just
      past the content. */
  method TransferFile(from: Socket, to: Socket, source: FileSystem, target: FileSystem, name: Text,
                      junk: Train, sizeBuf: Bytes, later: Bytes)
    returns (outcome: Outcome)
    requires from != to && source != target && from.sendScript == [] && from.outgoing == []
    requires Failed !in to.recvScript && IsTrain(junk) && |sizeBuf| == 8
    requires |name| <= 127 && name in source.files && 0 < |source.files[name]| < TWO63
    requires source.permits(name) && target.permits(name) && target.maps(|source.files[name]|)
    modifies from, to, target
    ensures outcome == Returned(0)
    ensures target.files == old(target.files)[name := source.files[name]]
    ensures to.incoming == later
  {
    hide ReadHeader, Frame;
    var content := source.files[name];
    var _, sent := SendFile(from, source, name);
    ghost var header := Header(name, |content|);
    WholeParts(Frame(name), Frame(EncodeOff(|content|)), content);
    assert from.outgoing == header + content;
    to.incoming := from.outgoing + later;
    assert to.incoming == header + (content + later);
    HeaderReadsBack(name, |content|, content + later, junk, Zeros(NAME_SIZE), sizeBuf);
    outcome := RecvFile(to, target, junk, sizeBuf);
    assert Rest(content + later, |content|) == later;
    assert forall sized: Bytes | |sized| == |content| :: Overlaid(sized, content + later) == content;
  }

  lemma WholeParts(a: Bytes, b: Bytes, c: Bytes)
    ensures [] + a[..|a|] + b[..|b|] + c[..|c|] == a + b + c
  {
  }
}
