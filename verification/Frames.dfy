/** Length-prefixed frames (`train_t`) and the login credentials sent in them
    (sendPassword on the client, the two receives of UserAuthen on the server). */
module Frames {
  import opened CTypes
  import opened SocketIO

  const DATA_SIZE: nat := 1024

  /** A `train_t` as it travels: the length and that many bytes of data. */
  function Frame(data: Bytes): Bytes
    requires |data| <= DATA_SIZE
  {
    EncodeInt(|data|) + data
  }

  /** The layout of a frame: four bytes of length, least significant first, and the data. */
  lemma FrameBytes(data: Bytes)
    requires |data| <= 1024
    ensures |Frame(data)| == 4 + |data| && Weighed(Frame(data), 0) == |data| && Frame(data)[4..] == data
  {
    var b := EncodeInt(|data|);
    IntRoundTrip(|data|, b);
    IntBytes(b);
    assert forall i :: 0 <= i < 4 ==> Frame(data)[i] == b[i];
  }

  // ---------- what a receiver makes of a byte stream ----------

  function Zeros(n: nat): (z: Bytes)
    ensures |z| == n
  {
    seq(n, _ => '\0')
  }

  /** The first `n` bytes with zeros for what is missing: a zeroed buffer after a receive
      that may meet the end of the stream, or a file after ftruncate. */
  function Padded(stream: Bytes, n: nat): (b: Bytes)
    ensures |b| == n
  {
    if n <= |stream| then stream[..n] else stream + Zeros(n - |stream|)
  }

  function Rest(stream: Bytes, n: nat): Bytes {
    if n <= |stream| then stream[n..] else []
  }

  function FieldLength(stream: Bytes): Int32 { DecodeInt(Padded(stream, 4)) }

  /** One field as the server reads it: results of `recvn` are ignored, so a stream
      that ends early reads as zeros. */
  function FieldText(stream: Bytes): Text
    requires 0 <= FieldLength(stream)
  {
    CStr(Padded(Rest(stream, 4), FieldLength(stream)))
  }

  function AfterField(stream: Bytes): Bytes
    requires 0 <= FieldLength(stream)
  {
    Rest(Rest(stream, 4), FieldLength(stream))
  }

  lemma FrameDecodes(text: Text, rest: Bytes)
    requires |text| <= DATA_SIZE
    ensures FieldLength(Frame(text) + rest) == |text|
    ensures FieldText(Frame(text) + rest) == text
    ensures AfterField(Frame(text) + rest) == rest
  {
    var stream := Frame(text) + rest;
    IntRoundTrip(|text|, EncodeInt(|text|));
    assert Padded(stream, 4) == EncodeInt(|text|);
    assert Rest(stream, 4) == text + rest;
    assert Padded(text + rest, |text|) == text;
    CStrOfText(text);
  }

  // ---------- credentials ----------

  datatype Credentials = Credentials(user: Text, hash: Text)

  const NOBODY: Credentials := Credentials([], [])

  const USER_SIZE: nat := 64
  const HASH_SIZE: nat := 128

  /** What the client's buffers allow: names of at most 63 bytes and hashes of at most 127. */
  predicate Fits(c: Credentials) { |c.user| < USER_SIZE && |c.hash| < HASH_SIZE }

  /** The bytes of one sendPassword. */
  function Encode(c: Credentials): Bytes
    requires Fits(c)
  {
    Frame(c.user) + Frame(c.hash)
  }

  /** Both field lengths lie inside the server's buffers. */
  predicate Readable(stream: Bytes) {
    && 0 <= FieldLength(stream) < USER_SIZE
    && 0 <= FieldLength(AfterField(stream)) < HASH_SIZE
  }

  function Decode(stream: Bytes): Credentials
    requires Readable(stream)
  {
    Credentials(FieldText(stream), FieldText(AfterField(stream)))
  }

  function AfterCredentials(stream: Bytes): Bytes
    requires Readable(stream)
  {
    AfterField(AfterField(stream))
  }

  lemma CredentialsDecode(c: Credentials, rest: Bytes)
    requires Fits(c)
    ensures Readable(Encode(c) + rest)
    ensures var stream := Encode(c) + rest;
            && FieldText(stream) == c.user && FieldText(AfterField(stream)) == c.hash
            && FieldLength(stream) == |c.user| && FieldLength(AfterField(stream)) == |c.hash|
    ensures Decode(Encode(c) + rest) == c && AfterCredentials(Encode(c) + rest) == rest
  {
    assert Encode(c) + rest == Frame(c.user) + (Frame(c.hash) + rest);
    FrameDecodes(c.user, Frame(c.hash) + rest);
    FrameDecodes(c.hash, rest);
  }

  lemma ZeroLength()
    ensures EncodeInt(0) == Zeros(4) && DecodeInt(Zeros(4)) == 0
  {
    assert EncodeLE(0, 1) == ['\0'];
    assert EncodeLE(0, 2) == ['\0', '\0'];
    assert EncodeLE(0, 3) == ['\0', '\0', '\0'];
    assert EncodeLE(0, 4) == ['\0', '\0', '\0', '\0'] == Zeros(4);
    IntRoundTrip(0, Zeros(4));
  }

  lemma OnePairDecodes(c: Credentials)
    requires Fits(c)
    ensures Readable(Encode(c)) && Decode(Encode(c)) == c && AfterCredentials(Encode(c)) == []
  {
    CredentialsDecode(c, []);
    assert Encode(c) + [] == Encode(c);
  }

  lemma EndOfStreamField(stream: Bytes)
    requires stream == []
    ensures FieldLength(stream) == 0 && FieldText(stream) == [] && AfterField(stream) == []
  {
    hide EncodeInt, DecodeInt;
    ZeroLength();
    assert Padded(stream, 4) == Zeros(4);
  }

  /** At the end of the stream the server reads the empty name and the empty hash, just as
      if the client had sent them (OnePairDecodes). */
  lemma EndOfStreamReadsAsEmpty(stream: Bytes)
    requires stream == []
    ensures Readable(stream) && Decode(stream) == NOBODY && AfterCredentials(stream) == []
  {
    hide FieldLength, FieldText, AfterField;
    EndOfStreamField(stream);
  }

  function EncodeAll(cs: seq<Credentials>): Bytes
    requires forall c | c in cs :: Fits(c)
  {
    if cs == [] then [] else Encode(cs[0]) + EncodeAll(cs[1..])
  }

  /** Reads `k` credentials one after the other. */
  ghost predicate Reads(stream: Bytes, cs: seq<Credentials>, rest: Bytes)
    decreases |cs|
  {
    if cs == [] then stream == rest
    else Readable(stream) && Decode(stream) == cs[0] && Reads(AfterCredentials(stream), cs[1..], rest)
  }

  /** The frame stream stays in sync: whatever logins a client sends, empty strings
      included, reading recovers them in order and stops at the frame boundary. */
  lemma {:induction false} StreamInSync(cs: seq<Credentials>, rest: Bytes)
    requires forall c | c in cs :: |c.user| <= 63 && |c.hash| <= 127
    ensures Reads(EncodeAll(cs) + rest, cs, rest)
  {
    hide Encode, Readable, Decode, AfterCredentials, FieldLength, FieldText, AfterField;
    if cs == [] {
      assert EncodeAll(cs) + rest == rest;
    } else {
      var tail := EncodeAll(cs[1..]) + rest;
      assert EncodeAll(cs) + rest == Encode(cs[0]) + tail;
      CredentialsDecode(cs[0], tail);
      StreamInSync(cs[1..], rest);
    }
  }

  // ---------- the two ends ----------

  /** Fills a zeroed `train_t` (length at offset 0, data at offset 4) and sends the used part. */
  method SendFrame(sock: Socket, text: Bytes) returns (ok: bool, ghost sent: nat)
    requires |text| <= DATA_SIZE
    modifies sock`outgoing, sock`sendScript
    ensures sent <= |Frame(text)| && sock.outgoing == old(sock.outgoing) + Frame(text)[..sent]
    ensures ok <==> sent == |Frame(text)|
    ensures Failed !in old(sock.sendScript) ==> ok && Failed !in sock.sendScript
  {
    hide EncodeInt, ToInt;
    var train := new Byte[4 + DATA_SIZE](_ => '\0');
    CopyIn(train, 0, EncodeInt(|text|));
    CopyIn(train, 4, text);
    var total := 4 + |text|;
    assert train[..total] == Frame(text);
    var r, n, ending := SendN(sock, train[..], total);
    sent := n;
    ToIntOfSmall(n);
    assert train[..][..sent] == train[..total][..sent];
    ok := r >= 0;
  }

  /** sendPassword (client/clientsendMessage.c); `sent` bytes of the credentials left. */
  method SendPassword(sock: Socket, username: Text, password: Text) returns (r: int, ghost sent: nat)
    requires |username| < USER_SIZE && |password| < HASH_SIZE
    modifies sock`outgoing, sock`sendScript
    ensures sent <= |Encode(Credentials(username, password))|
    ensures sock.outgoing == old(sock.outgoing) + Encode(Credentials(username, password))[..sent]
    ensures r == if sent == |Encode(Credentials(username, password))| then 0 else -1
    ensures Failed !in old(sock.sendScript) ==> r == 0 && Failed !in sock.sendScript
  {
    ghost var all := Encode(Credentials(username, password));
    var ok, n := SendFrame(sock, username);
    assert Frame(username)[..n] == all[..n];
    if !ok {
      return -1, n;
    }
    ok, n := SendFrame(sock, password);
    sent := |Frame(username)| + n;
    assert Frame(username) + Frame(password)[..n] == all[..sent];
    return if ok then 0 else -1, sent;
  }

  /** A buffer over which a stream has been received, which may meet its end early. */
  function Overlaid(buf: Bytes, stream: Bytes): (r: Bytes)
    ensures |r| == |buf|
    ensures |stream| >= |buf| ==> r == stream[..|buf|]
  {
    if |buf| <= |stream| then stream[..|buf|] else stream + buf[|stream|..]
  }

  lemma OverZeros(stream: Bytes, n: nat)
    ensures Overlaid(Zeros(n), stream) == Padded(stream, n)
  {
  }

  /** One stream is what another leaves. */
  ghost predicate Suffix(before: Bytes, after: Bytes) {
    exists n: nat :: n <= |before| && after == before[n..]
  }

  /** A receive whose result is ignored. */
  method Receive(sock: Socket, buf: array<Byte>, n: int)
    requires n <= buf.Length
    modifies sock`incoming, sock`recvScript, buf
    ensures Suffix(old(sock.incoming), sock.incoming)
    ensures n > 0 ==> buf[n..] == old(buf[n..])
    ensures n <= 0 ==> buf[..] == old(buf[..])
    ensures Failed !in old(sock.recvScript) ==>
              && Failed !in sock.recvScript
              && (n > 0 ==> buf[..n] == Overlaid(old(buf[..n]), old(sock.incoming)))
              && sock.incoming == (if n > 0 then Rest(old(sock.incoming), n) else old(sock.incoming))
  {
    ghost var stream, orig := sock.incoming, buf[..];
    var _, got, ending := RecvN(sock, buf, n);
    assert stream[0..] == stream;
    if n > 0 {
      assert buf[..] == stream[..got] + orig[got..];
      assert got <= n ==> buf[..n] == stream[..got] + orig[..n][got..];
      assert got <= n ==> buf[n..] == orig[n..];
    } else {
      assert got == 0 && buf[..] == orig;
    }
  }

  /** One length-prefixed field into a zeroed C buffer of `size` bytes, as UserAuthen
      receives the name and then the hash.  A length that does not fit the buffer is
      where the model stops (`undefined`). */
  method ReceiveField(sock: Socket, size: nat) returns (text: Text, undefined: bool)
    requires size <= DATA_SIZE
    modifies sock`incoming, sock`recvScript
    ensures Failed !in old(sock.recvScript) ==>
              && Failed !in sock.recvScript
              && (undefined <==> !(0 <= FieldLength(old(sock.incoming)) < size))
              && (!undefined ==> text == FieldText(old(sock.incoming)) && sock.incoming == AfterField(old(sock.incoming)))
    ensures !undefined ==> |text| < size
  {
    hide DecodeInt, FieldLength, Overlaid, CStr;
    ghost var stream, clean := sock.incoming, Failed !in sock.recvScript;
    var length_ := new Byte[4](_ => '\0');
    assert length_[..4] == Zeros(4);
    Receive(sock, length_, 4);
    OverZeros(stream, 4);
    assert length_[..] == length_[..4];
    var n := DecodeInt(length_[..]);
    if clean { LengthIs(stream, length_[..]); }
    if n < 0 || n >= size {
      return [], true;
    }
    var data_ := new Byte[DATA_SIZE](_ => '\0');
    assert data_[..n] == Zeros(n);
    Receive(sock, data_, n);
    OverZeros(Rest(stream, 4), n);
    var buf := new Byte[size](_ => '\0');
    CopyIn(buf, 0, data_[..n]);
    buf[n] := '\0';
    CStrUpTo(buf[..], n);
    assert buf[..][..n] == data_[..n];
    CStrBounded(buf[..][..n]);
    return CStr(buf[..]), false;
  }

  lemma LengthIs(stream: Bytes, length_: Bytes)
    requires length_ == Padded(stream, 4)
    ensures DecodeInt(length_) == FieldLength(stream)
  {
  }

  lemma CStrBounded(buf: Bytes)
    ensures |CStr(buf)| <= |buf|
  {
  }

  /** A terminator at `n` makes the string depend on the first `n` bytes only. */
  lemma {:induction false} CStrUpTo(buf: Bytes, n: nat)
    requires n < |buf| && buf[n] == '\0'
    ensures CStr(buf) == CStr(buf[..n])
  {
    var k := StrLen(buf[..n]);
    assert '\0' !in buf[..k] by { assert buf[..k] == buf[..n][..k]; }
    assert buf[k] == '\0';
    CStrIs(buf, k);
  }
}
