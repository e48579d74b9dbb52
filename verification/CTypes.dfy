/** The C data the programs exchange: bytes, NUL-terminated strings and
    little-endian two's complement integers. */
module CTypes {

  datatype Option<+T> = None | Some(value: T)

  /** A C `char`. */
  type Byte = c: char | c as int < 256

  type Bytes = seq<Byte>

  /** What a C string holds: the bytes before its terminator. */
  type Text = s: seq<Byte> | '\0' !in s

  lemma Associative(a: Bytes, b: Bytes, c: Bytes)
    ensures a + b + c == a + (b + c)
  {
  }

  // ---------- C strings inside buffers ----------

  /** The first index of `c` (the length if it does not occur): strchr, strcspn. */
  function Find(s: Bytes, c: Byte): (n: nat)
    ensures n <= |s|
    ensures c !in s[..n]
    ensures n < |s| ==> s[n] == c
  {
    if s == [] || s[0] == c then 0 else 1 + Find(s[1..], c)
  }

  /** `strlen` */
  function StrLen(buf: Bytes): (n: nat)
    ensures n <= |buf|
    ensures '\0' !in buf[..n]
    ensures n < |buf| ==> buf[n] == '\0'
  {
    Find(buf, '\0')
  }

  /** The C string that starts at the front of a buffer. */
  function CStr(buf: Bytes): (s: Text) {
    buf[..StrLen(buf)]
  }

  /** A terminator at `n` with no NUL before it fixes the string. */
  lemma {:induction false} CStrIs(buf: Bytes, n: nat)
    requires n < |buf| && buf[n] == '\0' && '\0' !in buf[..n]
    ensures StrLen(buf) == n && CStr(buf) == buf[..n]
  {
    var m := StrLen(buf);
    assert forall i | 0 <= i < n :: buf[i] != '\0' by {
      assert forall i | 0 <= i < n :: buf[i] == buf[..n][i];
    }
    assert forall i | 0 <= i < m :: buf[i] != '\0' by {
      assert forall i | 0 <= i < m :: buf[i] == buf[..m][i];
    }
  }

  lemma CStrOfText(text: Text)
    ensures CStr(text) == text
  {
    var n := StrLen(text);
    assert forall i | 0 <= i < |text| :: text[i] in text;
  }

  /** How many bytes `fgets` takes when its buffer has room for `room` of them. */
  function FGetsCount(input: Bytes, room: nat): (n: nat)
    ensures n <= |input| && n <= room
    ensures input != [] && room > 0 ==> n > 0
  {
    if input == [] || room == 0 then 0
    else if input[0] == '\n' then 1
    else 1 + FGetsCount(input[1..], room - 1)
  }

  lemma {:induction false} FGetsOfLine(t: Bytes, rest: Bytes, room: nat)
    requires '\n' !in t
    ensures FGetsCount(t + "\n" + rest, room) == if |t| < room then |t| + 1 else room
  {
    var input := t + "\n" + rest;
    if t != [] && room > 0 {
      assert input[1..] == t[1..] + "\n" + rest;
      assert input[0] == t[0] && t[0] in t;
      FGetsOfLine(t[1..], rest, room - 1);
    }
  }

  /** memcpy into a buffer at an offset. */
  method CopyIn(buf: array<Byte>, at: nat, data: Bytes)
    requires at + |data| <= buf.Length
    modifies buf
    ensures buf[..at] == buf[..][..at] == old(buf[..])[..at]
    ensures buf[..at + |data|] == buf[..][..at + |data|] == old(buf[..])[..at] + data
    ensures buf[at + |data|..] == buf[..][at + |data|..] == old(buf[..])[at + |data|..]
  {
    forall i | 0 <= i < |data| { buf[at + i] := data[i]; }
  }

  // ---------- integers on the wire ----------

  function Pow256(k: nat): (p: nat)
    ensures p >= 1
  {
    if k == 0 then 1 else 256 * Pow256(k - 1)
  }

  /** The `k` low-order bytes of `u`, least significant first. */
  function EncodeLE(u: nat, k: nat): (b: Bytes)
    ensures |b| == k
  {
    if k == 0 then [] else [(u % 256) as char] + EncodeLE(u / 256, k - 1)
  }

  function DecodeLE(b: Bytes): (u: nat)
    ensures u < Pow256(|b|)
  {
    if b == [] then 0 else b[0] as int + 256 * DecodeLE(b[1..])
  }

  lemma {:induction false} LERoundTrip(u: nat, k: nat)
    requires u < Pow256(k)
    ensures DecodeLE(EncodeLE(u, k)) == u
  {
    if k > 0 {
      assert EncodeLE(u, k)[1..] == EncodeLE(u / 256, k - 1);
      LERoundTrip(u / 256, k - 1);
    }
  }

  lemma LowByte(low: nat, high: nat)
    requires low < 256
    ensures (low + 256 * high) % 256 == low && (low + 256 * high) / 256 == high
  {
  }

  lemma {:induction false} LEUnique(b: Bytes)
    ensures EncodeLE(DecodeLE(b), |b|) == b
  {
    if b != [] {
      LEUnique(b[1..]);
      LowByte(b[0] as int, DecodeLE(b[1..]));
      assert b == [b[0]] + b[1..];
    }
  }

  /** Two's complement reading of an unsigned value below `2 * half`. */
  function Signed(u: nat, half: nat): int { if u < half then u else u - 2 * half }

  function Unsigned(n: int, half: nat): (u: nat)
    requires 0 <= n + 2 * half
  {
    if n < 0 then n + 2 * half else n
  }

  const TWO31: nat := 0x8000_0000
  const TWO63: nat := 0x8000_0000_0000_0000

  /** The C types `int` and `off_t`. */
  type Int32 = n: int | -0x8000_0000 <= n < 0x8000_0000
  type Int64 = n: int | -0x8000_0000_0000_0000 <= n < 0x8000_0000_0000_0000

  function EncodeInt(n: Int32): (b: Bytes)
    ensures |b| == 4
  {
    EncodeLE(Unsigned(n, TWO31), 4)
  }

  function DecodeInt(b: Bytes): Int32
    requires |b| == 4
  {
    Pow256Values();
    Signed(DecodeLE(b), TWO31)
  }

  function EncodeOff(n: Int64): (b: Bytes)
    ensures |b| == 8
  {
    EncodeLE(Unsigned(n, TWO63), 8)
  }

  function DecodeOff(b: Bytes): Int64
    requires |b| == 8
  {
    Pow256Values();
    Signed(DecodeLE(b), TWO63)
  }

  lemma Pow256Values()
    ensures Pow256(4) == 2 * TWO31
    ensures Pow256(8) == 2 * TWO63
  {
    assert Pow256(2) == 65536;
    assert Pow256(4) == 65536 * 65536;
    assert Pow256(6) == 65536 * 65536 * 65536;
    assert Pow256(8) == 65536 * 65536 * 65536 * 65536;
  }

  /** Encoding and decoding an `int` are inverse bijections between the
      32-bit integers and the four-byte strings. */
  lemma IntRoundTrip(n: Int32, b: Bytes)
    requires |b| == 4
    ensures DecodeInt(EncodeInt(n)) == n
    ensures EncodeInt(DecodeInt(b)) == b
  {
    Pow256Values();
    LERoundTrip(Unsigned(n, TWO31), 4);
    LEUnique(b);
  }

  lemma OffRoundTrip(n: Int64, b: Bytes)
    requires |b| == 8
    ensures DecodeOff(EncodeOff(n)) == n
    ensures EncodeOff(DecodeOff(b)) == b
  {
    Pow256Values();
    LERoundTrip(Unsigned(n, TWO63), 8);
    LEUnique(b);
  }

  /** Four bytes from offset `at`, each weighing 256 times the one before it. */
  function Weighed(b: Bytes, at: nat): nat
    requires at + 4 <= |b|
  {
    b[at] as int + 0x100 * b[at + 1] as int + 0x1_0000 * b[at + 2] as int + 0x100_0000 * b[at + 3] as int
  }

  lemma FourBytes(b: Bytes)
    requires |b| == 4
    ensures DecodeLE(b) == Weighed(b, 0)
  {
    var b1, b2, b3 := b[1..], b[2..], b[3..];
    assert b1[1..] == b2 && b2[1..] == b3 && b3[1..] == [];
    assert DecodeLE(b) == b[0] as int + 256 * DecodeLE(b1);
    assert DecodeLE(b1) == b[1] as int + 256 * DecodeLE(b2);
    assert DecodeLE(b2) == b[2] as int + 256 * DecodeLE(b3);
    assert DecodeLE(b3) == b[3] as int;
  }

  lemma EightBytes(b: Bytes)
    requires |b| == 8
    ensures DecodeLE(b) == Weighed(b, 0) + 0x1_0000_0000 * Weighed(b, 4)
  {
    var b1, b2, b3, b4 := b[1..], b[2..], b[3..], b[4..];
    FourBytes(b4);
    assert b1[1..] == b2 && b2[1..] == b3 && b3[1..] == b4;
    assert DecodeLE(b) == b[0] as int + 256 * DecodeLE(b1);
    assert DecodeLE(b1) == b[1] as int + 256 * DecodeLE(b2);
    assert DecodeLE(b2) == b[2] as int + 256 * DecodeLE(b3);
    assert DecodeLE(b3) == b[3] as int + 256 * DecodeLE(b4);
  }

  /** Which integers the bytes stand for: the first byte weighs least, and the upper half
      of the range stands for the negative ones. */
  lemma IntBytes(b: Bytes)
    requires |b| == 4
    ensures DecodeInt(b) == Weighed(b, 0) - (if b[3] as int < 0x80 then 0 else 0x1_0000_0000)
  {
    FourBytes(b);
  }

  lemma OffBytes(b: Bytes)
    requires |b| == 8
    ensures DecodeOff(b)
         == Weighed(b, 0) + 0x1_0000_0000 * Weighed(b, 4) - (if b[7] as int < 0x80 then 0 else 0x1_0000_0000_0000_0000)
  {
    EightBytes(b);
  }
}
