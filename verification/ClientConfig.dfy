/** The client's configuration file (client/config.c): trimming in place, the value
    between two tags, and the loop over the lines. */
module ClientConfig {
  import opened CTypes

  // ---------- trimming ----------

  predicate IsSpace(c: Byte) {
    c == ' ' || c == '\t' || c == '\n' || c as int == 11 || c as int == 12 || c == '\r'
  }

  function TrimFront(s: Bytes): (t: Bytes)
    ensures |t| <= |s| && (t != [] ==> !IsSpace(t[0]))
  {
    if s != [] && IsSpace(s[0]) then TrimFront(s[1..]) else s
  }

  function TrimBack(s: Bytes): (t: Bytes)
    ensures t <= s && (t != [] ==> !IsSpace(t[|t| - 1]))
  {
    if s != [] && IsSpace(s[|s| - 1]) then TrimBack(s[..|s| - 1]) else s
  }

  function Trim(s: Bytes): Bytes { TrimBack(TrimFront(s)) }

  /** Nothing but the white-space bytes 9 to 13 and 32. */
  predicate AllSpace(s: Bytes) { forall i :: 0 <= i < |s| ==> s[i] as int == 32 || 9 <= s[i] as int <= 13 }

  /** Empty, or with none of these bytes at either end. */
  predicate Tight(s: Bytes) {
    s == [] || (!(s[0] as int == 32 || 9 <= s[0] as int <= 13)
                && !(s[|s| - 1] as int == 32 || 9 <= s[|s| - 1] as int <= 13))
  }

  lemma {:induction false} TrimFrontDrops(a: Bytes, s: Bytes)
    requires AllSpace(a) && (s == [] || !IsSpace(s[0]))
    ensures TrimFront(a + s) == s
  {
    if a == [] {
      assert a + s == s;
    } else {
      assert (a + s)[1..] == a[1..] + s;
      TrimFrontDrops(a[1..], s);
    }
  }

  lemma {:induction false} TrimBackDrops(s: Bytes, b: Bytes)
    requires AllSpace(b) && (s == [] || !IsSpace(s[|s| - 1]))
    ensures TrimBack(s + b) == s
  {
    if b == [] {
      assert s + b == s;
    } else {
      var init, last := b[..|b| - 1], b[|b| - 1];
      assert IsSpace(last) && AllSpace(init);
      TrimBackDrops(s, init);
      BackSpaceDrops(s + b, s + init, last);
    }
  }

  lemma BackSpaceDrops(s: Bytes, init: Bytes, last: Byte)
    requires s == init + [last] && IsSpace(last)
    ensures TrimBack(s) == TrimBack(init)
  {
    assert s[..|s| - 1] == init;
  }

  lemma {:induction false} TrimFrontSplits(s: Bytes)
    ensures AllSpace(s[..|s| - |TrimFront(s)|]) && s[|s| - |TrimFront(s)|..] == TrimFront(s)
  {
    if s != [] && IsSpace(s[0]) {
      TrimFrontSplits(s[1..]);
      var n := |s| - |TrimFront(s)|;
      assert s[..n] == [s[0]] + s[1..][..n - 1] && s[n..] == s[1..][n - 1..];
    }
  }

  lemma {:induction false} TrimBackSplits(s: Bytes)
    ensures AllSpace(s[|TrimBack(s)|..])
  {
    if s != [] && IsSpace(s[|s| - 1]) {
      TrimBackSplits(s[..|s| - 1]);
      var n := |TrimBack(s)|;
      assert s[n..] == s[..|s| - 1][n..] + [s[|s| - 1]];
    }
  }

  lemma ThreeParts(s: Bytes, u: Bytes, t: Bytes)
    requires |u| <= |s| && s[|s| - |u|..] == u && |t| <= |u| && u[..|t|] == t
    ensures s == s[..|s| - |u|] + t + u[|t|..]
  {
    assert u == t + u[|t|..];
    assert s == s[..|s| - |u|] + u;
  }

  lemma TrimIsTight(s: Bytes)
    ensures Tight(Trim(s))
  {
    hide TrimFront, TrimBack;
    assert Trim(s) != [] ==> Trim(s)[0] == TrimFront(s)[0];
  }

  /** Around the trimmed stretch there is nothing but spaces. */
  lemma TrimSplits(s: Bytes) returns (front: Bytes, back: Bytes)
    ensures AllSpace(front) && AllSpace(back) && s == front + Trim(s) + back && Tight(Trim(s))
  {
    hide TrimFront, TrimBack, AllSpace, Tight;
    var u := TrimFront(s);
    TrimFrontSplits(s);
    TrimBackSplits(u);
    front, back := s[..|s| - |u|], u[|Trim(s)|..];
    ThreeParts(s, u, Trim(s));
    TrimIsTight(s);
  }

  /** Any non-empty stretch with non-space ends and nothing but spaces around it is the
      trimmed one; so trimming is the unique such stretch, and trimming again changes nothing. */
  lemma TrimIsTheTightStretch(s: Bytes, a: Bytes, t: Bytes, b: Bytes)
    requires AllSpace(a) && AllSpace(b) && Tight(t) && s == a + t + b
    ensures t != [] ==> Trim(s) == t
    ensures t == [] ==> Trim(s) == []
    ensures Trim(Trim(s)) == Trim(s)
  {
    if t != [] {
      assert s == a + (t + b);
      TrimFrontDrops(a, t + b);
      TrimBackDrops(t, b);
    } else {
      assert AllSpace(s) && s + [] == s;
      TrimFrontDrops(s, []);
    }
    TrimOfTight(t);
  }

  lemma TrimOfTight(t: Bytes)
    requires Tight(t)
    ensures Trim(t) == t
  {
    assert [] + t == t && t + [] == t;
    TrimFrontDrops([], t);
    TrimBackDrops(t, []);
  }

  /** trimWhitespace: skip, move down, then cut from the end. */
  method TrimWhitespace(s: array<Byte>)
    requires StrLen(s[..]) < s.Length
    modifies s
    ensures StrLen(s[..]) < s.Length && CStr(s[..]) == Trim(CStr(old(s[..])))
  {
    hide TrimFront, TrimBack;
    ghost var text := CStr(s[..]);
    var end := StrLen(s[..]);
    var start := 0;
    while s[start] != '\0' && IsSpace(s[start])
      invariant 0 <= start <= end && s[..] == old(s[..]) && AllSpace(text[..start])
      decreases end - start
    {
      assert text[..start + 1] == text[..start] + [s[start]];
      start := start + 1;
    }
    FrontTrimmed(text, start);
    if start != 0 {
      MoveDown(s, start, end + 1 - start);
    }
    var len := end - start;
    assert s[..][..len] == text[start..];
    CStrIs(s[..], len);
    CutTrailing(s, len);
  }

  /** Lines 29-33 */
  method CutTrailing(s: array<Byte>, strLen: nat)
    requires strLen < s.Length && s[strLen] == '\0' && StrLen(s[..]) == strLen
    modifies s
    ensures StrLen(s[..]) < s.Length && CStr(s[..]) == TrimBack(CStr(old(s[..])))
  {
    hide TrimBack;
    ghost var text := CStr(s[..]);
    var len := strLen;
    while len > 0 && IsSpace(s[len - 1])
      invariant 0 <= len <= |text| && s[len] == '\0'
      invariant s[..len] == text[..len] && AllSpace(text[len..])
    {
      assert s[len - 1] == s[..len][len - 1] == text[len - 1];
      assert text[len - 1..] == [text[len - 1]] + text[len..];
      s[len - 1] := '\0';
      len := len - 1;
    }
    BackTrimmed(text, len);
    assert s[..][..len] == s[..len];
    CStrIs(s[..], len);
  }

  lemma FrontTrimmed(text: Bytes, n: nat)
    requires n <= |text| && AllSpace(text[..n]) && (n < |text| ==> !IsSpace(text[n]))
    ensures TrimFront(text) == text[n..]
  {
    assert text == text[..n] + text[n..];
    TrimFrontDrops(text[..n], text[n..]);
  }

  lemma BackTrimmed(text: Bytes, n: nat)
    requires n <= |text| && AllSpace(text[n..]) && (n > 0 ==> !IsSpace(text[n - 1]))
    ensures TrimBack(text) == text[..n]
  {
    assert text == text[..n] + text[n..];
    TrimBackDrops(text[..n], text[n..]);
  }

  /** memmove of `n` bytes from offset `at` to the front. */
  method MoveDown(s: array<Byte>, at: nat, n: nat)
    requires at + n <= s.Length
    modifies s
    ensures s[..n] == old(s[at..at + n])
  {
    forall i | 0 <= i < n { s[i] := s[at + i]; }
  }

  // ---------- the value between two tags ----------

  predicate OccursAt(s: Bytes, pat: Bytes, i: nat) { i + |pat| <= |s| && s[i..i + |pat|] == pat }

  /** strstr: where the pattern first occurs. */
  function StrStr(s: Bytes, pat: Bytes): (r: Option<nat>)
    ensures r.Some? ==> OccursAt(s, pat, r.value) && forall j :: 0 <= j < r.value ==> !OccursAt(s, pat, j)
    ensures r.None? ==> forall j :: 0 <= j <= |s| ==> !OccursAt(s, pat, j)
  {
    StrStrFrom(s, pat, 0)
  }

  function StrStrFrom(s: Bytes, pat: Bytes, i: nat): (r: Option<nat>)
    requires i <= |s|
    ensures r.Some? ==>
              && i <= r.value && OccursAt(s, pat, r.value)
              && forall j :: i <= j < r.value ==> !OccursAt(s, pat, j)
    ensures r.None? ==> forall j :: i <= j <= |s| ==> !OccursAt(s, pat, j)
    decreases |s| - i
  {
    if OccursAt(s, pat, i) then Some(i)
    else if i == |s| then None
    else StrStrFrom(s, pat, i + 1)
  }

  const TAG_SIZE: nat := 64

  function OpenTag(tag: Text): Text { "<" + tag + ">" }

  function CloseTag(tag: Text): Text { "</" + tag + ">" }

  /** What extractXmlTagValue finds in a line, for an output buffer of `outSize` bytes. */
  function Extract(line: Text, tag: Text, outSize: nat): Option<Bytes> {
    if outSize == 0 || |OpenTag(tag)| >= TAG_SIZE || |CloseTag(tag)| >= TAG_SIZE then None
    else match StrStr(line, OpenTag(tag))
      case None => None
      case Some(at) =>
        var rest := line[at + |OpenTag(tag)|..];
        match StrStr(rest, CloseTag(tag))
        case None => None
        case Some(n) =>
          if n == 0 then None else Some(Trim(rest[..if n >= outSize then outSize - 1 else n]))
  }

  /** A pattern whose first byte does not come again in it cannot overlap itself: in front
      of an occurrence only what occurs in the prefix counts. */
  lemma FirstOccurrence(prefix: Bytes, pat: Bytes, rest: Bytes)
    requires pat != [] && pat[0] !in pat[1..]
    requires forall i :: 0 <= i <= |prefix| ==> !OccursAt(prefix, pat, i)
    ensures StrStr(prefix + pat + rest, pat) == Some(|prefix|)
  {
    var s := prefix + pat + rest;
    assert OccursAt(s, pat, |prefix|);
    forall i | 0 <= i < |prefix|
      ensures !OccursAt(s, pat, i)
    {
      if i + |pat| <= |prefix| {
        assert prefix[i..i + |pat|] == s[i..i + |pat|];
        assert !OccursAt(prefix, pat, i);
      } else if i + |pat| <= |s| {
        var k := |prefix| - i;
        assert pat[1..][k - 1] == pat[k];
        assert s[i..i + |pat|][k] == s[|prefix|] == pat[0];
      }
    }
  }

  lemma TagsDoNotOverlapThemselves(tag: Text)
    requires '<' !in tag
    ensures OpenTag(tag)[0] !in OpenTag(tag)[1..] && CloseTag(tag)[0] !in CloseTag(tag)[1..]
  {
    assert OpenTag(tag)[1..] == tag + ">" && CloseTag(tag)[1..] == "/" + tag + ">";
  }

  /** A value written between its tags is read back, trimmed, whatever precedes the first
      open tag and follows the first close tag after it. */
  lemma TagRoundTrip(prefix: Text, tag: Text, value: Text, rest: Text, outSize: nat)
    requires '<' !in tag && |tag| <= 60
    requires StrStr(prefix, "<" + tag + ">").None?
    requires value != [] && StrStr(value, "</" + tag + ">").None? && |value| < outSize
    ensures Extract(prefix + ("<" + tag + ">") + value + ("</" + tag + ">") + rest, tag, outSize) == Some(Trim(value))
  {
    hide StrStr, StrStrFrom, Trim;
    var open, close := OpenTag(tag), CloseTag(tag);
    TagsDoNotOverlapThemselves(tag);
    var tail := value + close + rest;
    var line := prefix + open + value + close + rest;
    assert line == prefix + open + tail;
    FirstOccurrence(prefix, open, tail);
    assert line[|prefix| + |open|..] == tail;
    FirstOccurrence(value, close, rest);
    assert tail[..|value|] == value;
  }

  /** extractXmlTagValue: 1 and the trimmed value in `out`, or 0 and `out` untouched. */
  method ExtractXmlTagValue(line: Text, tag: Text, out: array<Byte>, outSize: nat) returns (r: int)
    requires outSize <= out.Length
    modifies out
    ensures r == if Extract(line, tag, outSize).Some? then 1 else 0
    ensures r == 1 ==> StrLen(out[..]) < out.Length && CStr(out[..]) == Extract(line, tag, outSize).value
    ensures r == 0 ==> out[..] == old(out[..])
  {
    hide StrStr, Trim, TrimFront, TrimBack;
    if outSize == 0 {
      return 0;
    }
    var openTag, closeTag := OpenTag(tag), CloseTag(tag);
    if |openTag| >= TAG_SIZE || |closeTag| >= TAG_SIZE {
      return 0;
    }
    var start := StrStr(line, openTag);
    if start.None? {
      return 0;
    }
    var rest := line[start.value + |openTag|..];
    var end := StrStr(rest, closeTag);
    if end.None? || end.value == 0 {
      return 0;
    }
    var valueLen := end.value;
    if valueLen >= outSize {
      valueLen := outSize - 1;
    }
    StoreString(out, rest[..valueLen]);
    TrimWhitespace(out);
    return 1;
  }

  /** memcpy of the bytes of a string and a terminator after them. */
  method StoreString(out: array<Byte>, text: Text)
    requires |text| < out.Length
    modifies out
    ensures StrLen(out[..]) < out.Length && CStr(out[..]) == text
  {
    CopyIn(out, 0, text);
    out[|text|] := '\0';
    assert out[..][..|text|] == text;
    CStrIs(out[..], |text|);
  }

  // ---------- numbers ----------

  predicate IsDigit(c: Byte) { '0' <= c <= '9' }

  /** How many digits the string starts with. */
  function DigitCount(s: Bytes): (n: nat)
    ensures n <= |s| && forall i :: 0 <= i < n ==> IsDigit(s[i])
    ensures n < |s| ==> !IsDigit(s[n])
  {
    if s == [] || !IsDigit(s[0]) then 0 else 1 + DigitCount(s[1..])
  }

  function DecimalValue(s: Bytes): nat
    requires forall i :: 0 <= i < |s| ==> IsDigit(s[i])
  {
    if s == [] then 0
    else
      assert IsDigit(s[|s| - 1]);
      10 * DecimalValue(s[..|s| - 1]) + (s[|s| - 1] as int - '0' as int)
  }

  /** The range of `long`, to which strtol saturates. */
  function ToLong(n: int): int {
    if n > 0x7fff_ffff_ffff_ffff then 0x7fff_ffff_ffff_ffff
    else if n < -0x8000_0000_0000_0000 then -0x8000_0000_0000_0000
    else n
  }

  /** strtol in base 10: the number and where it ends (0 if there is none). */
  function StrToL(s: Bytes): (int, nat) {
    var t := TrimFront(s);
    var sign := if t != [] && (t[0] == '-' || t[0] == '+') then 1 else 0;
    var n := DigitCount(t[sign..]);
    if n == 0 then (0, 0)
    else
      var v: int := DecimalValue(t[sign..][..n]);
      (ToLong(if sign == 1 && t[0] == '-' then -v else v), |s| - |t| + sign + n)
  }

  /** The port in the value of a port line, or None for a value that is refused. */
  function ParsePort(value: Bytes): (port: Option<int>)
    ensures port.Some? ==> 1 <= port.value <= 65535
  {
    var (parsed, end) := StrToL(value);
    if end == 0 || end < |value| || parsed <= 0 || parsed > 65535 then None else Some(parsed)
  }

  function Decimal(n: nat): (s: Bytes)
    ensures s != [] && forall i :: 0 <= i < |s| ==> IsDigit(s[i])
  {
    (if n < 10 then [] else Decimal(n / 10)) + [(n % 10 + '0' as int) as char]
  }

  lemma {:induction false} DecimalReadsBack(n: nat)
    ensures DecimalValue(Decimal(n)) == n
  {
    var s := Decimal(n);
    assert s[..|s| - 1] == if n < 10 then [] else Decimal(n / 10);
    if n >= 10 { DecimalReadsBack(n / 10); }
  }

  /** On digits alone strtol reads their value and stops at the end. */
  lemma StrToLOfDigits(s: Bytes)
    requires s != [] && forall i :: 0 <= i < |s| ==> IsDigit(s[i])
    ensures StrToL(s) == (ToLong(DecimalValue(s)), |s|)
  {
    hide DecimalValue, ToLong;
    assert IsDigit(s[0]);
    assert TrimFront(s) == s && s[0] != '-' && s[0] != '+';
    assert DigitCount(s) == |s|;
    assert s[0..] == s && s[..|s|] == s;
  }

  /** A number printed in decimal is accepted as a port exactly when it is one. */
  lemma PortRoundTrip(n: nat)
    ensures ParsePort(Decimal(n)) == if 1 <= n <= 65535 then Some(n) else None
  {
    hide StrToL, Decimal, DecimalValue;
    DecimalReadsBack(n);
    StrToLOfDigits(Decimal(n));
  }

  lemma {:induction false} DigitsEnd(digits: Bytes)
    requires forall i :: 0 <= i < |digits| ==> IsDigit(digits[i])
    ensures DigitCount(digits) == |digits|
  {
    if digits != [] { DigitsEnd(digits[1..]); }
  }

  /** strtol from where the white space ends. */
  lemma StrToLAfterSpace(s: Bytes, t: Bytes)
    requires TrimFront(s) == t && |t| <= |s|
    ensures var k := if t != [] && (t[0] == '-' || t[0] == '+') then 1 else 0;
            var n := DigitCount(t[k..]);
            StrToL(s) == if n == 0 then (0, 0)
                         else
                           var v: int := DecimalValue(t[k..][..n]);
                           (ToLong(if k == 1 && t[0] == '-' then -v else v), |s| - |t| + k + n)
  {
    hide DecimalValue, ToLong, TrimFront, DigitCount;
  }

  predicate IsSign(sign: Bytes) { sign == [] || sign == "+" || sign == "-" }

  predicate AllDigits(digits: Bytes) { digits != [] && forall i :: 0 <= i < |digits| ==> IsDigit(digits[i]) }

  lemma SignThenDigits(sign: Bytes, digits: Bytes)
    requires IsSign(sign) && AllDigits(digits)
    ensures var t := sign + digits;
            && !IsSpace(t[0]) && t[|sign|..] == digits
            && |sign| == (if t[0] == '-' || t[0] == '+' then 1 else 0)
            && (sign == "-" <==> t[0] == '-')
  {
    assert IsDigit(digits[0]);
    assert (sign + digits)[0] == if sign == [] then digits[0] else sign[0];
  }

  /** What strtol makes of white space, a sign and digits. */
  lemma StrToLOfParts(front: Bytes, sign: Bytes, digits: Bytes)
    requires AllSpace(front) && IsSign(sign) && AllDigits(digits)
    ensures var v: int := DecimalValue(digits);
            StrToL(front + (sign + digits)) == (ToLong(if sign == "-" then -v else v), |front| + |sign| + |digits|)
  {
    hide DecimalValue, ToLong, StrToL, TrimFront, AllSpace, DigitCount;
    var t := sign + digits;
    SignThenDigits(sign, digits);
    TrimFrontDrops(front, t);
    StrToLAfterSpace(front + t, t);
    DigitsEnd(digits);
    assert digits[..|digits|] == digits;
  }

  /** And where it finds a number up to the end of the text, the text has these parts. */
  lemma PartsOfNumber(value: Bytes) returns (front: Bytes, sign: Bytes, digits: Bytes)
    requires StrToL(value).1 != 0 && StrToL(value).1 >= |value|
    ensures value == front + (sign + digits) && AllSpace(front) && IsSign(sign) && AllDigits(digits)
  {
    hide DecimalValue, ToLong, StrToL, TrimFront, AllSpace, DigitCount;
    var t := TrimFront(value);
    TrimFrontSplits(value);
    StrToLAfterSpace(value, t);
    var k := if t != [] && (t[0] == '-' || t[0] == '+') then 1 else 0;
    front, sign, digits := value[..|value| - |t|], t[..k], t[k..];
    assert k == 1 ==> sign == [t[0]];
    assert value == front + t && t == sign + digits;
  }

  /** The values that are ports: white space, perhaps a plus sign, and digits that spell a
      number in 1..65535; nothing else, and nothing behind. */
  lemma PortValues(value: Bytes, port: int)
    ensures ParsePort(value) == Some(port) <==>
              1 <= port <= 65535
              && exists front: Bytes, sign: Bytes, digits: Bytes ::
                   && value == front + (sign + digits) && AllSpace(front) && (sign == [] || sign == "+")
                   && AllDigits(digits) && DecimalValue(digits) == port
  {
    hide StrToL, DecimalValue, AllSpace;
    if ParsePort(value) == Some(port) {
      var front, sign, digits := PartsOfNumber(value);
      StrToLOfParts(front, sign, digits);
    }
    forall front: Bytes, sign: Bytes, digits: Bytes
      | value == front + (sign + digits) && AllSpace(front) && (sign == [] || sign == "+")
        && AllDigits(digits) && DecimalValue(digits) == port && 1 <= port <= 65535
      ensures ParsePort(value) == Some(port)
    {
      StrToLOfParts(front, sign, digits);
    }
  }

  /** Digits weigh as in base ten. */
  lemma DecimalPlaces()
    ensures Decimal(65535) == "65535"
    ensures ParsePort("65535") == Some(65535) && ParsePort("65536") == None && ParsePort("0") == None
  {
    assert Decimal(6) == "6" && Decimal(65) == "65" && Decimal(655) == "655" && Decimal(6553) == "6553";
    assert Decimal(65535) == "65535" && Decimal(65536) == "65536" && Decimal(0) == "0";
    PortRoundTrip(65535);
    PortRoundTrip(65536);
    PortRoundTrip(0);
  }

  // ---------- the configuration file ----------

  const LINE_SIZE: nat := 512

  /** The lines as the calls of `fgets` deliver them. */
  function Lines(file: Bytes): seq<Text> {
    if file == [] then []
    else
      var n := FGetsCount(file, LINE_SIZE - 1);
      [CStr(file[..n])] + Lines(file[n..])
  }

  datatype Kind = Family | Ip | Port | LocalPath

  const VALUE_SIZE: nat := 1024

  function TagOf(k: Kind): Text {
    match k
    case Family => "family"
    case Ip => "ip"
    case Port => "port"
    case LocalPath => "localPath"
  }

  /** What a line sets: the first of family, ip, port and localPath whose tags it has. */
  function Setting(line: Text): Option<(Kind, Bytes)> {
    match Extract(line, TagOf(Family), VALUE_SIZE)
    case Some(v) => Some((Family, v))
    case None =>
      match Extract(line, TagOf(Ip), VALUE_SIZE)
      case Some(v) => Some((Ip, v))
      case None =>
        match Extract(line, TagOf(Port), VALUE_SIZE)
        case Some(v) => Some((Port, v))
        case None =>
          match Extract(line, TagOf(LocalPath), VALUE_SIZE)
          case Some(v) => Some((LocalPath, v))
          case None => None
  }

  /** snprintf of a string into a buffer. */
  function Truncated(s: Bytes, size: nat): Bytes
    requires size > 0
  {
    if |s| < size then s else s[..size - 1]
  }

  const FAMILY_SIZE: nat := 32
  const IP_SIZE: nat := 64
  const PATH_SIZE: nat := 1024

  /** The variables that the loop fills. */
  datatype Fields = Fields(family: Bytes, ip: Bytes, port: int, path: Bytes)

  const NO_FIELDS: Fields := Fields([], [], 0, [])

  /** One turn of the loop; None when a bad port ends it. */
  function Load(f: Fields, line: Text): Option<Fields> {
    match Setting(line)
    case None => Some(f)
    case Some((Family, v)) => Some(f.(family := Truncated(v, FAMILY_SIZE)))
    case Some((Ip, v)) => Some(f.(ip := Truncated(v, IP_SIZE)))
    case Some((LocalPath, v)) => Some(f.(path := Truncated(v, PATH_SIZE)))
    case Some((Port, v)) =>
      match ParsePort(v)
      case None => None
      case Some(p) => Some(f.(port := p))
  }

  function LoadAll(f: Fields, lines: seq<Text>): Option<Fields>
    decreases |lines|
  {
    if lines == [] then Some(f)
    else match Load(f, lines[0])
      case None => None
      case Some(g) => LoadAll(g, lines[1..])
  }

  datatype Outcome = Rejected | Loaded(ip: Bytes, port: int, path: Bytes)

  /** The checks after the loop; `validIp` stands for inet_pton. */
  function Finish(f: Fields, validIp: Bytes -> bool): Outcome {
    if f.ip == [] || f.port == 0 || f.path == [] then Rejected
    else if f.family != [] && f.family != "AF_INET" then Rejected
    else if !validIp(f.ip) then Rejected
    else Loaded(f.ip, f.port, f.path)
  }

  function ConfigOf(file: Bytes, validIp: Bytes -> bool): Outcome {
    match LoadAll(NO_FIELDS, Lines(file))
    case None => Rejected
    case Some(f) => Finish(f, validIp)
  }

  /** What the last line that sets something of this kind sets it to. */
  function LastSet(lines: seq<Text>, k: Kind): Option<Bytes> {
    if lines == [] then None
    else match LastSet(lines[1..], k)
      case Some(v) => Some(v)
      case None =>
        match Setting(lines[0])
        case Some((k', v)) => if k' == k then Some(v) else None
        case None => None
  }

  /** Some line sets something of this kind to it, and no later line sets any. */
  lemma {:induction false} LastSetIsLast(lines: seq<Text>, k: Kind, v: Bytes)
    ensures LastSet(lines, k) == Some(v) <==>
              exists i :: 0 <= i < |lines| && Setting(lines[i]) == Some((k, v))
                          && forall j :: i < j < |lines| ==> !SetsKind(lines[j], k)
    ensures LastSet(lines, k) == None <==> forall j :: 0 <= j < |lines| ==> !SetsKind(lines[j], k)
    decreases |lines|
  {
    hide Setting;
    if lines != [] {
      LastSetIsLast(lines[1..], k, v);
      assert forall j :: 1 <= j < |lines| ==> lines[j] == lines[1..][j - 1];
      assert forall j :: 0 <= j < |lines| - 1 ==> lines[1..][j] == lines[j + 1];
    }
  }

  predicate SetsKind(line: Text, k: Kind) { Setting(line).Some? && Setting(line).value.0 == k }

  predicate BadPort(line: Text) {
    Setting(line).Some? && Setting(line).value.0 == Port && ParsePort(Setting(line).value.1).None?
  }

  function OrElse(v: Option<Bytes>, size: nat, otherwise: Bytes): Bytes
    requires size > 0
  {
    match v case Some(s) => Truncated(s, size) case None => otherwise
  }

  /** The loop keeps, of each kind, what the last line of that kind says, and gives up
      exactly when some port line is bad. */
  lemma {:induction false} LastLineWins(f: Fields, lines: seq<Text>)
    ensures LoadAll(f, lines).None? <==> exists i :: 0 <= i < |lines| && BadPort(lines[i])
    ensures LoadAll(f, lines).Some? ==>
              var g := LoadAll(f, lines).value;
              && g.family == OrElse(LastSet(lines, Family), FAMILY_SIZE, f.family)
              && g.ip == OrElse(LastSet(lines, Ip), IP_SIZE, f.ip)
              && g.path == OrElse(LastSet(lines, LocalPath), PATH_SIZE, f.path)
              && Some(g.port) == (match LastSet(lines, Port) case Some(v) => ParsePort(v) case None => Some(f.port))
    decreases |lines|
  {
    hide Setting, ParsePort, Truncated;
    if lines != [] {
      match Load(f, lines[0])
      case None =>
        assert BadPort(lines[0]);
      case Some(g) =>
        LastLineWins(g, lines[1..]);
        assert !BadPort(lines[0]);
        assert forall i :: 1 <= i < |lines| ==> lines[i] == lines[1..][i - 1];
    }
  }

  /** The file is accepted if and only if no port line is bad, some line sets the ip, the
      port and the path, the last such ip and path are not empty and the ip is valid, and
      the last family, if any, is empty or AF_INET; and then those are what is loaded. */
  lemma AcceptedFiles(file: Bytes, validIp: Bytes -> bool, ip: Bytes, port: int, path: Bytes)
    ensures var lines := Lines(file);
            ConfigOf(file, validIp) == Loaded(ip, port, path) <==>
              && (forall i :: 0 <= i < |lines| ==> !BadPort(lines[i]))
              && LastSet(lines, Ip).Some? && (var v := LastSet(lines, Ip).value; ip == if |v| <= 63 then v else v[..63])
              && ip != [] && validIp(ip)
              && LastSet(lines, Port).Some? && ParsePort(LastSet(lines, Port).value) == Some(port)
              && LastSet(lines, LocalPath).Some?
              && (var v := LastSet(lines, LocalPath).value; path == if |v| <= 1023 then v else v[..1023])
              && path != []
              && (LastSet(lines, Family).None? || LastSet(lines, Family).value in {[], "AF_INET"})
    ensures ConfigOf(file, validIp) == Loaded(ip, port, path) ==> 1 <= port <= 65535
  {
    hide Setting, StrToL, BadPort, LastSet, Lines, LoadAll;
    LastLineWins(NO_FIELDS, Lines(file));
  }

  // ---------- written lines and files ----------

  /** A text whose every '<' is followed by a byte other than the tag's first does not have
      the tag. */
  lemma LacksTag(line: Bytes, pat: Bytes)
    requires |pat| >= 2 && pat[0] == '<'
    requires forall i :: 0 <= i < |line| - 1 ==> line[i] != '<' || line[i + 1] != pat[1]
    ensures StrStr(line, pat).None?
  {
    hide StrStr;
    forall j | 0 <= j && j + |pat| <= |line|
      ensures !OccursAt(line, pat, j)
    {
      assert line[j..j + |pat|][0] == line[j] && line[j..j + |pat|][1] == line[j + 1];
    }
  }

  /** A line with a family between its tags sets the family, whatever else it has. */
  lemma FamilyLine(prefix: Text, value: Text, rest: Text)
    requires StrStr(prefix, "<family>").None? && StrStr(value, "</family>").None? && 0 < |value| <= 1023
    ensures Setting(prefix + "<family>" + value + "</family>" + rest) == Some((Family, Trim(value)))
  {
    hide StrStr, Trim, Extract;
    var tag: Text := "family";
    assert "<" + tag + ">" == "<family>" && "</" + tag + ">" == "</family>";
    TagRoundTrip(prefix, tag, value, rest, 1024);
  }

  /** One with an ip sets the ip, unless it has a family; */
  lemma IpLine(prefix: Text, value: Text, rest: Text)
    requires StrStr(prefix, "<ip>").None? && StrStr(value, "</ip>").None? && 0 < |value| <= 1023
    requires StrStr(prefix + "<ip>" + value + "</ip>" + rest, "<family>").None?
    ensures Setting(prefix + "<ip>" + value + "</ip>" + rest) == Some((Ip, Trim(value)))
  {
    hide StrStr, Trim;
    var tag: Text := "ip";
    assert "<" + tag + ">" == "<ip>" && "</" + tag + ">" == "</ip>";
    assert OpenTag("family") == "<family>";
    TagRoundTrip(prefix, tag, value, rest, 1024);
  }

  /** one with a port the port, unless it has one of these; */
  lemma PortLine(prefix: Text, value: Text, rest: Text)
    requires StrStr(prefix, "<port>").None? && StrStr(value, "</port>").None? && 0 < |value| <= 1023
    requires var line := prefix + "<port>" + value + "</port>" + rest;
             StrStr(line, "<family>").None? && StrStr(line, "<ip>").None?
    ensures Setting(prefix + "<port>" + value + "</port>" + rest) == Some((Port, Trim(value)))
  {
    hide StrStr, Trim;
    var tag: Text := "port";
    assert "<" + tag + ">" == "<port>" && "</" + tag + ">" == "</port>";
    assert OpenTag("family") == "<family>";
    assert OpenTag("ip") == "<ip>";
    TagRoundTrip(prefix, tag, value, rest, 1024);
  }

  /** one with a path the path, unless it has one of those; and one with none of the four
      tags sets nothing. */
  lemma PathLine(prefix: Text, value: Text, rest: Text)
    requires StrStr(prefix, "<localPath>").None? && StrStr(value, "</localPath>").None? && 0 < |value| <= 1023
    requires var line := prefix + "<localPath>" + value + "</localPath>" + rest;
             StrStr(line, "<family>").None? && StrStr(line, "<ip>").None? && StrStr(line, "<port>").None?
    ensures Setting(prefix + "<localPath>" + value + "</localPath>" + rest) == Some((LocalPath, Trim(value)))
  {
    hide StrStr, Trim;
    var tag: Text := "localPath";
    assert "<" + tag + ">" == "<localPath>" && "</" + tag + ">" == "</localPath>";
    assert OpenTag("family") == "<family>";
    assert OpenTag("ip") == "<ip>";
    assert OpenTag("port") == "<port>";
    TagRoundTrip(prefix, tag, value, rest, 1024);
  }

  lemma OtherLine(line: Text)
    requires StrStr(line, "<family>").None? && StrStr(line, "<ip>").None?
    requires StrStr(line, "<port>").None? && StrStr(line, "<localPath>").None?
    ensures Setting(line) == None
  {
    hide StrStr, Trim;
    assert OpenTag("family") == "<family>" && OpenTag("ip") == "<ip>";
    assert OpenTag("port") == "<port>" && OpenTag("localPath") == "<localPath>";
  }

  /** A longer line is read in pieces of 511 bytes, each a line of its own. */
  lemma LongLineIsCut(t: Text, rest: Bytes)
    requires '\n' !in t && |t| >= 511
    ensures Lines(t + "\n" + rest) == [t[..511]] + Lines(t[511..] + "\n" + rest)
  {
    hide FGetsCount;
    var file := t + "\n" + rest;
    FGetsOfLine(t, rest, 511);
    assert file[..511] == t[..511] && file[511..] == t[511..] + "\n" + rest;
    CStrOfText(t[..511]);
  }

  /** Lines of at most 510 bytes are read one by one. */
  lemma LinesOfLine(t: Text, rest: Bytes)
    requires '\n' !in t && |t| <= 510
    ensures Lines(t + "\n" + rest) == [t + "\n"] + Lines(rest)
  {
    hide FGetsCount;
    var file := t + "\n" + rest;
    FGetsOfLine(t, rest, 511);
    assert file[..|t| + 1] == t + "\n" && file[|t| + 1..] == rest;
    CStrOfText(t + "\n");
  }

  /** A value that can stand between tags on a line of a file. */
  predicate Plain(v: Text) { v != [] && Tight(v) && '<' !in v && '\n' !in v }

  lemma PlainLacks(v: Text, pat: Bytes)
    requires '<' !in v && pat != [] && pat[0] == '<'
    ensures StrStr(v, pat).None?
  {
    hide StrStr;
    forall j | 0 <= j && j + |pat| <= |v|
      ensures !OccursAt(v, pat, j)
    {
      assert v[j..j + |pat|][0] == v[j];
    }
  }

  lemma WrittenFamily(v: Text)
    requires Plain(v) && |v| <= 31
    ensures Setting("<family>" + v + "</family>" + "\n") == Some((Family, v))
  {
    hide StrStr, Trim, Setting;
    PlainLacks(v, "</family>");
    PlainLacks([], "<family>");
    assert [] + "<family>" + v + "</family>" + "\n" == "<family>" + v + "</family>" + "\n";
    FamilyLine([], v, "\n");
    TrimOfTight(v);
  }

  lemma WrittenIp(v: Text)
    requires Plain(v) && |v| <= 63
    ensures Setting("<ip>" + v + "</ip>" + "\n") == Some((Ip, v))
  {
    hide StrStr, Trim, Setting;
    PlainLacks(v, "</ip>");
    PlainLacks([], "<ip>");
    assert [] + "<ip>" + v + "</ip>" + "\n" == "<ip>" + v + "</ip>" + "\n";
    LacksTag([] + "<ip>" + v + "</ip>" + "\n", "<family>");
    IpLine([], v, "\n");
    TrimOfTight(v);
  }

  lemma WrittenPort(v: Text)
    requires Plain(v) && |v| <= 63
    ensures Setting("<port>" + v + "</port>" + "\n") == Some((Port, v))
  {
    hide StrStr, Trim, Setting;
    PlainLacks(v, "</port>");
    PlainLacks([], "<port>");
    assert [] + "<port>" + v + "</port>" + "\n" == "<port>" + v + "</port>" + "\n";
    LacksTag([] + "<port>" + v + "</port>" + "\n", "<family>");
    LacksTag([] + "<port>" + v + "</port>" + "\n", "<ip>");
    PortLine([], v, "\n");
    TrimOfTight(v);
  }

  lemma WrittenPath(v: Text)
    requires Plain(v) && |v| <= 487
    ensures Setting("<localPath>" + v + "</localPath>" + "\n") == Some((LocalPath, v))
  {
    hide StrStr, Trim, Setting;
    PlainLacks(v, "</localPath>");
    PlainLacks([], "<localPath>");
    assert [] + "<localPath>" + v + "</localPath>" + "\n" == "<localPath>" + v + "</localPath>" + "\n";
    LacksTag([] + "<localPath>" + v + "</localPath>" + "\n", "<family>");
    LacksTag([] + "<localPath>" + v + "</localPath>" + "\n", "<ip>");
    LacksTag([] + "<localPath>" + v + "</localPath>" + "\n", "<port>");
    PathLine([], v, "\n");
    TrimOfTight(v);
  }

  lemma OneMoreDigit(n: nat)
    ensures |Decimal(n)| == (if n < 10 then 0 else |Decimal(n / 10)|) + 1
  {
  }

  lemma DecimalIsPlain(n: nat)
    requires n < 100000
    ensures Plain(Decimal(n)) && |Decimal(n)| <= 5
  {
    hide Decimal;
    var a := n / 10;
    var b := a / 10;
    var c := b / 10;
    OneMoreDigit(n);
    OneMoreDigit(a);
    OneMoreDigit(b);
    OneMoreDigit(c);
    OneMoreDigit(c / 10);
    var s := Decimal(n);
    assert forall i :: 0 <= i < |s| ==> IsDigit(s[i]);
  }

  lemma FourLines(l1: Text, l2: Text, l3: Text, l4: Text)
    requires '\n' !in l1 && |l1| <= 510 && '\n' !in l2 && |l2| <= 510
    requires '\n' !in l3 && |l3| <= 510 && '\n' !in l4 && |l4| <= 510
    ensures Lines(l1 + "\n" + (l2 + "\n" + (l3 + "\n" + (l4 + "\n"))))
         == [l1 + "\n", l2 + "\n", l3 + "\n", l4 + "\n"]
  {
    hide Lines;
    var rest3, rest2 := l4 + "\n", l3 + "\n" + (l4 + "\n");
    LastLine(l4);
    LinesOfLine(l3, rest3);
    assert Lines(rest2) == [l3 + "\n", l4 + "\n"];
    LinesOfLine(l2, rest2);
    LinesOfLine(l1, l2 + "\n" + rest2);
  }

  lemma LastLine(l: Text)
    requires '\n' !in l && |l| <= 510
    ensures Lines(l + "\n") == [l + "\n"]
  {
    hide Lines;
    LinesOfLine(l, []);
    NoLines();
    assert l + "\n" + [] == l + "\n";
  }

  lemma NoLines()
    ensures Lines([]) == []
  {
  }

  lemma FourSettings(m1: Text, m2: Text, m3: Text, m4: Text, ip: Text, port: nat, p: Text, path: Text)
    requires Setting(m1) == Some((Family, "AF_INET")) && Setting(m2) == Some((Ip, ip))
    requires Setting(m3) == Some((Port, p)) && Setting(m4) == Some((LocalPath, path))
    requires ParsePort(p) == Some(port) && |ip| <= 63 && |path| <= 487
    ensures LoadAll(NO_FIELDS, [m1, m2, m3, m4]) == Some(Fields("AF_INET", ip, port, path))
  {
    hide Setting, ParsePort;
    var f1 := Fields("AF_INET", [], 0, []);
    var f2 := Fields("AF_INET", ip, 0, []);
    var f3 := Fields("AF_INET", ip, port, []);
    assert Load(NO_FIELDS, m1) == Some(f1) && Load(f1, m2) == Some(f2) && Load(f2, m3) == Some(f3);
    assert [m1, m2, m3, m4][1..] == [m2, m3, m4] && [m2, m3, m4][1..] == [m3, m4];
    assert [m3, m4][1..] == [m4] && [m4][1..] == [];
    assert LoadAll(f3, [m4]) == Some(Fields("AF_INET", ip, port, path));
    assert LoadAll(f2, [m3, m4]) == LoadAll(f3, [m4]);
    assert LoadAll(f1, [m2, m3, m4]) == LoadAll(f2, [m3, m4]);
  }

  /** A configuration file as it is written: what is loaded is what was written. */
  lemma WrittenFileIsLoaded(ip: Text, port: nat, path: Text, validIp: Bytes -> bool)
    requires Plain(ip) && |ip| <= 63 && validIp(ip) && 1 <= port <= 65535 && Plain(path) && |path| <= 487
    ensures ConfigOf("<family>" + "AF_INET" + "</family>" + "\n"
                     + ("<ip>" + ip + "</ip>" + "\n"
                        + ("<port>" + Decimal(port) + "</port>" + "\n"
                           + ("<localPath>" + path + "</localPath>" + "\n"))), validIp)
         == Loaded(ip, port, path)
  {
    hide StrStr, Trim, Setting, Lines, ParsePort, Decimal, Plain, LoadAll;
    var p: Text := Decimal(port);
    DecimalIsPlain(port);
    PortRoundTrip(port);
    var family: Text := "AF_INET";
    PlainIsSomething(family);
    WrittenFamily(family);
    WrittenIp(ip);
    WrittenPort(p);
    WrittenPath(path);
    WrittenLines(ip, p, path);
    FourSettings("<family>" + family + "</family>" + "\n", "<ip>" + ip + "</ip>" + "\n", "<port>" + p + "</port>" + "\n",
                 "<localPath>" + path + "</localPath>" + "\n", ip, port, p, path);
    PlainIsSomething(ip);
    PlainIsSomething(path);
  }

  lemma PlainIsSomething(v: Text)
    ensures Plain(v) ==> v != []
    ensures v == "AF_INET" ==> Plain(v) && |v| == 7
  {
  }

  lemma WrittenLines(ip: Text, p: Text, path: Text)
    requires Plain(ip) && |ip| <= 63 && Plain(p) && |p| <= 63 && Plain(path) && |path| <= 487
    ensures Lines("<family>" + "AF_INET" + "</family>" + "\n"
                  + ("<ip>" + ip + "</ip>" + "\n"
                     + ("<port>" + p + "</port>" + "\n"
                        + ("<localPath>" + path + "</localPath>" + "\n"))))
         == ["<family>" + "AF_INET" + "</family>" + "\n", "<ip>" + ip + "</ip>" + "\n", "<port>" + p + "</port>" + "\n",
             "<localPath>" + path + "</localPath>" + "\n"]
  {
    hide Lines;
    var l1 := FamilyTagLine();
    var l2 := IpTagLine(ip);
    var l3 := PortTagLine(p);
    var l4 := PathTagLine(path);
    FourLines(l1, l2, l3, l4);
  }

  lemma TagLine(open: Text, v: Text, close: Text) returns (l: Text)
    requires '\n' !in open && '\n' !in v && '\n' !in close && |open| + |v| + |close| <= 510
    ensures l == open + v + close && '\n' !in l && |l| <= 510
  {
    l := open + v + close;
  }

  lemma FamilyTagLine() returns (l: Text)
    ensures l == "<family>" + "AF_INET" + "</family>" && '\n' !in l && |l| <= 510
  {
    l := TagLine("<family>", "AF_INET", "</family>");
  }

  lemma IpTagLine(v: Text) returns (l: Text)
    requires '\n' !in v && |v| <= 63
    ensures l == "<ip>" + v + "</ip>" && '\n' !in l && |l| <= 510
  {
    l := TagLine("<ip>", v, "</ip>");
  }

  lemma PortTagLine(v: Text) returns (l: Text)
    requires '\n' !in v && |v| <= 63
    ensures l == "<port>" + v + "</port>" && '\n' !in l && |l| <= 510
  {
    l := TagLine("<port>", v, "</port>");
  }

  lemma PathTagLine(v: Text) returns (l: Text)
    requires '\n' !in v && |v| <= 487
    ensures l == "<localPath>" + v + "</localPath>" && '\n' !in l && |l| <= 510
  {
    l := TagLine("<localPath>", v, "</localPath>");
  }

  /** Config: the loop over the lines of the file, each tried for every tag in turn. */
  method Config(file: Bytes, validIp: Bytes -> bool) returns (outcome: Outcome)
    ensures outcome == ConfigOf(file, validIp)
  {
    hide Extract, ParsePort, Truncated, Finish;
    var rest := file;
    var f := NO_FIELDS;
    var valueBuf := new Byte[VALUE_SIZE];
    while rest != []
      invariant LoadAll(NO_FIELDS, Lines(file)) == LoadAll(f, Lines(rest))
      decreases |rest|
    {
      var n := FGetsCount(rest, LINE_SIZE - 1);
      var line := CStr(rest[..n]);
      assert Lines(rest) == [line] + Lines(rest[n..]);
      rest := rest[n..];
      var r := ExtractXmlTagValue(line, TagOf(Family), valueBuf, VALUE_SIZE);
      if r == 1 {
        f := f.(family := Truncated(CStr(valueBuf[..]), FAMILY_SIZE));
        continue;
      }
      r := ExtractXmlTagValue(line, TagOf(Ip), valueBuf, VALUE_SIZE);
      if r == 1 {
        f := f.(ip := Truncated(CStr(valueBuf[..]), IP_SIZE));
        continue;
      }
      r := ExtractXmlTagValue(line, TagOf(Port), valueBuf, VALUE_SIZE);
      if r == 1 {
        var parsedPort := ParsePort(CStr(valueBuf[..]));
        if parsedPort.None? {
          return Rejected;
        }
        f := f.(port := parsedPort.value);
        continue;
      }
      r := ExtractXmlTagValue(line, TagOf(LocalPath), valueBuf, VALUE_SIZE);
      if r == 1 {
        f := f.(path := Truncated(CStr(valueBuf[..]), PATH_SIZE));
        continue;
      }
    }
    return Finish(f, validIp);
  }
}
