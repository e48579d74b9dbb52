/** From the typed line to the dispatched command: tokenising and checking
    (client/cmdOpt.c), the command packet (shared/protocol.h), its transfer
    (client/fileOpt.c, server/recvCmd.c) and the server's switch. */
module Command {
  import opened CTypes
  import opened SocketIO
  import opened Frames

  // ---------- tokens ----------

  predicate IsDelim(c: Byte) { c == ' ' || c == '\t' || c == '\r' || c == '\n' }

  /** strspn: how many delimiters the string starts with. */
  function Span(s: Bytes): (n: nat)
    ensures n <= |s| && (n < |s| ==> !IsDelim(s[n]))
  {
    if s == [] || !IsDelim(s[0]) then 0 else 1 + Span(s[1..])
  }

  /** strcspn: how many other bytes the string starts with. */
  function CSpan(s: Bytes): (n: nat)
    ensures n <= |s| && (n < |s| ==> IsDelim(s[n])) && (s != [] && !IsDelim(s[0]) ==> n > 0)
  {
    if s == [] || IsDelim(s[0]) then 0 else 1 + CSpan(s[1..])
  }

  /** The words of a line. */
  function Tokens(s: Bytes): seq<Bytes>
    decreases |s|
  {
    var t := s[Span(s)..];
    if t == [] then [] else [t[..CSpan(t)]] + Tokens(t[CSpan(t)..])
  }

  predicate Padding(s: Bytes) { forall c | c in s :: IsDelim(c) }

  predicate Word(s: Bytes) { s != [] && '\0' !in s && forall c | c in s :: !IsDelim(c) }

  lemma {:induction false} SpanPadding(pad: Bytes, s: Bytes)
    requires Padding(pad)
    ensures Span(pad + s) == |pad| + Span(s)
  {
    if pad == [] {
      assert pad + s == s;
    } else {
      assert (pad + s)[1..] == pad[1..] + s;
      SpanPadding(pad[1..], s);
    }
  }

  lemma {:induction false} CSpanWord(w: Bytes, s: Bytes)
    requires (forall c | c in w :: !IsDelim(c)) && (s == [] || IsDelim(s[0]))
    ensures CSpan(w + s) == |w|
  {
    if w == [] {
      assert w + s == s;
    } else {
      assert (w + s)[1..] == w[1..] + s;
      CSpanWord(w[1..], s);
    }
  }

  /** Only what follows the leading delimiters matters. */
  lemma SameWords(a: Bytes, b: Bytes)
    requires a[Span(a)..] == b[Span(b)..]
    ensures Tokens(a) == Tokens(b)
  {
    hide Span, CSpan;
  }

  lemma TokensOfPadded(pad: Bytes, s: Bytes)
    requires Padding(pad)
    ensures Tokens(pad + s) == Tokens(s)
  {
    hide Tokens, Span;
    SpanPadding(pad, s);
    assert (pad + s)[|pad| + Span(s)..] == s[Span(s)..];
    SameWords(pad + s, s);
  }

  lemma TokensOfWord(w: Bytes, s: Bytes)
    requires Word(w) && (s == [] || IsDelim(s[0]))
    ensures Tokens(w + s) == [w] + Tokens(s)
  {
    assert !IsDelim(w[0]);
    assert Span(w + s) == 0;
    CSpanWord(w, s);
    assert (w + s)[0..] == w + s && (w + s)[..|w|] == w && (w + s)[|w|..] == s;
  }

  // ---------- the protocol ----------

  const REQ_INVALID: nat := 0
  const REQ_CD: nat := 1
  const REQ_LS: nat := 2
  const REQ_PWD: nat := 3
  const REQ_RM: nat := 4
  const REQ_PUT: nat := 5
  const REQ_GET: nat := 6
  const REQ_MKDIR: nat := 7

  /** str_to_cmdcode */
  function CodeOf(word: Bytes): (code: nat)
    ensures code <= 7
  {
    if word == "cd" then REQ_CD
    else if word == "ls" then REQ_LS
    else if word == "mkdir" then REQ_MKDIR
    else if word == "rm" then REQ_RM
    else if word == "put" then REQ_PUT
    else if word == "get" then REQ_GET
    else if word == "pwd" then REQ_PWD
    else REQ_INVALID
  }

  const KEYWORDS: set<Bytes> := {"cd", "ls", "pwd", "rm", "put", "get", "mkdir"}

  const ARG_SIZE: nat := 1024

  /** What a packet says; `arg` is the C string in its data. */
  datatype Request = Request(code: nat, argFlag: nat, length: int, arg: Bytes)

  const NO_REQUEST: Request := Request(REQ_INVALID, 0, 0, [])

  /** The request that a line of words spells. */
  function RequestOf(words: seq<Bytes>): Request
    requires words != []
  {
    if |words| == 1 then Request(CodeOf(words[0]), 0, 0, [])
    else Request(CodeOf(words[0]), 1, |words[1]|, words[1])
  }

  /** The lines that are commands: a keyword and at most one argument, which must fit
      the packet and which `pwd` must not have. */
  predicate IsCommand(words: seq<Bytes>) {
    && (|words| == 1 || |words| == 2)
    && words[0] in KEYWORDS
    && (|words| == 2 ==> |words[1]| < ARG_SIZE && words[0] != "pwd")
  }

  class PacketCmd {
    var cmdCode_: nat
    var argFlag_: nat
    var length_: int
    const data_: array<Byte>

    constructor ()
      ensures fresh(data_) && data_.Length == ARG_SIZE
    {
      data_ := new Byte[ARG_SIZE];
    }

    /** What the packet says (its bytes after the argument's NUL may be anything). */
    ghost function Meaning(): Request
      reads this, data_
    {
      Request(cmdCode_, argFlag_, length_, CStr(data_[..]))
    }
  }

  /** A buffer that holds a C string from `at` on. */
  predicate Terminated(buf: Bytes, at: nat) { at < |buf| && StrLen(buf[at..]) < |buf| - at }

  lemma StringInSlice(buf: Bytes, at: nat, end: nat)
    requires at <= end < |buf| && buf[end] == '\0' && '\0' !in buf[at..end]
    ensures Terminated(buf, at) && CStr(buf[at..]) == buf[at..end]
  {
    assert buf[at..][..end - at] == buf[at..end];
    CStrIs(buf[at..], end - at);
  }

  lemma TokensOfDelim(u: Bytes)
    requires u == [] || IsDelim(u[0])
    ensures u == [] ==> Tokens(u) == []
    ensures u != [] ==> Tokens(u) == Tokens(u[1..])
  {
    if u != [] {
      assert u == [u[0]] + u[1..];
      TokensOfPadded([u[0]], u[1..]);
    }
  }

  function FirstWord(s: Bytes): Bytes { var t := s[Span(s)..]; t[..CSpan(t)] }

  /** What is left of the line after its first word and the delimiter that ends it. */
  function AfterWord(s: Bytes): Bytes {
    var t := s[Span(s)..];
    var n := CSpan(t);
    if n == |t| then [] else t[n + 1..]
  }

  lemma FirstToken(s: Bytes)
    requires Span(s) < |s|
    ensures |FirstWord(s)| > 0 && Tokens(s) == [FirstWord(s)] + Tokens(AfterWord(s))
  {
    var t := s[Span(s)..];
    var n := CSpan(t);
    assert t[0] == s[Span(s)];
    TokensOfDelim(t[n..]);
    if n < |t| {
      assert t[n..][1..] == t[n + 1..];
    }
  }

  lemma SliceOfSlice(s: Bytes, a: nat, b: nat, c: nat, d: nat)
    requires a <= b <= |s| && c <= d <= b - a
    ensures s[a..b][c..d] == s[a + c..a + d]
  {
    forall i | 0 <= i < d - c
      ensures s[a..b][c..d][i] == s[a + c..a + d][i]
    {
      assert s[a..b][c + i] == s[a + c + i];
    }
  }

  /** What writing a NUL at `end`, inside the string at `start`, makes of it. */
  lemma CutString(before: Bytes, after: Bytes, start: nat, t: nat, end: nat, last: nat)
    requires start <= t <= end < last < |before| && after == before[end := '\0']
    requires before[last] == '\0' && '\0' !in before[start..last]
    ensures Terminated(after, t) && CStr(after[t..]) == before[start..last][t - start..end - start]
    ensures Terminated(after, end + 1) && CStr(after[end + 1..]) == before[start..last][end + 1 - start..]
  {
    var s := before[start..last];
    SliceOfSlice(before, start, last, t - start, end - start);
    SliceOfSlice(before, start, last, end + 1 - start, last - start);
    assert after[t..end] == before[t..end] == s[t - start..end - start];
    StringInSlice(after, t, end);
    assert after[end + 1..last] == before[end + 1..last] == s[end + 1 - start..];
    StringInSlice(after, end + 1, last);
  }

  /** Cutting the first word out of the string at `start` leaves it and the rest of
      the line as two strings of their own. */
  lemma NextToken(before: Bytes, start: nat, last: nat, t: nat, end: nat, save: nat)
    requires Terminated(before, start) && last == start + StrLen(before[start..])
    requires t == start + Span(before[start..last]) && t < last
    requires end == t + CSpan(before[t..last]) && save == (if end == last then end else end + 1)
    ensures var s := CStr(before[start..]); var after := before[end := '\0'];
            && |FirstWord(s)| == end - t
            && Terminated(after, t) && CStr(after[t..]) == FirstWord(s)
            && Terminated(after, save) && CStr(after[save..]) == AfterWord(s)
  {
    hide Span, CSpan, Tokens, StrLen;
    var s, n := before[start..last], end - t;
    assert s == CStr(before[start..]) && before[start..][last - start] == before[last];
    SliceOfSlice(before, start, last, t - start, last - start);
    var rest := s[Span(s)..];
    assert before[t..last] == rest && end == t + CSpan(rest);
    assert FirstWord(s) == rest[..n];
    if end == last {
      assert before[end := '\0'] == before && rest[..n] == rest && AfterWord(s) == [];
      StringInSlice(before, t, last);
      StringInSlice(before, last, last);
    } else {
      assert AfterWord(s) == rest[n + 1..];
      CutString(before, before[end := '\0'], start, t, end, last);
      WordInLine(s, rest, t - start, n);
    }
  }

  lemma WordInLine(s: Bytes, rest: Bytes, at: nat, n: nat)
    requires at <= |s| && rest == s[at..] && n < |rest|
    ensures s[at..at + n] == rest[..n] && s[at + n + 1..] == rest[n + 1..]
  {
  }

  /** `strtok_r` with the delimiters " \t\r\n": cuts the next token out of the string at
      `start` by writing a NUL after it.  Nothing before `start` changes. */
  method StrTokR(buf: array<Byte>, start: nat) returns (token: Option<nat>, save: nat)
    requires Terminated(buf[..], start)
    modifies buf
    ensures start <= save < buf.Length && Terminated(buf[..], save)
    ensures buf[..start] == old(buf[..start])
    ensures var words := Tokens(CStr(old(buf[..])[start..]));
            && (token.None? <==> words == [])
            && (token.Some? ==>
                 && start <= token.value && token.value + |words[0]| <= save
                 && Terminated(buf[..], token.value)
                 && CStr(buf[..][token.value..]) == words[0]
                 && Tokens(CStr(buf[..][save..])) == words[1..])
  {
    ghost var before := buf[..];
    ghost var s := CStr(before[start..]);
    assert buf[start..] == before[start..];
    var last := start + StrLen(buf[start..]);
    assert buf[start..last] == before[start..last] == s;
    var t := start + Span(buf[start..last]);
    if t == last {
      assert before[start..][last - start] == before[last];
      StringInSlice(before, last, last);
      return None, t;
    }
    assert buf[t..last] == before[t..last];
    var end := t + CSpan(buf[t..last]);
    save := if end == last then end else end + 1;
    NextToken(before, start, last, t, end, save);
    FirstToken(s);
    buf[end] := '\0';
    assert buf[..] == before[end := '\0'];
    return Some(t), save;
  }

  // ---------- cutting and checking a line ----------

  lemma KeywordsHaveCodes(word: Bytes)
    ensures word in KEYWORDS <==> CodeOf(word) != REQ_INVALID
    ensures CodeOf(word) == REQ_PWD <==> word == "pwd"
    ensures word in ["", "cd", "ls", "pwd", "rm", "put", "get", "mkdir"] ==>
              0 <= CodeOf(word) <= 7 && ["", "cd", "ls", "pwd", "rm", "put", "get", "mkdir"][CodeOf(word)] == word
    ensures CodeOf(word) == 0 <==> word !in ["cd", "ls", "pwd", "rm", "put", "get", "mkdir"]
  {
  }

  /** cmdCut */
  method CmdCut(cmd: array<Byte>, p: PacketCmd) returns (ret: int)
    requires Terminated(cmd[..], 0) && p.data_.Length == ARG_SIZE && p.data_ != cmd
    modifies cmd, p, p.data_
    ensures var words := Tokens(CStr(old(cmd[..])));
            && ret == (if |words| == 1 || (|words| == 2 && |words[1]| < ARG_SIZE) then 0 else -1)
            && p.Meaning() == (if ret == 0 then RequestOf(words) else NO_REQUEST)
  {
    ghost var words := Tokens(CStr(cmd[..]));
    assert cmd[..][0..] == cmd[..];
    p.cmdCode_, p.argFlag_, p.length_ := REQ_INVALID, 0, 0;
    p.data_[0] := '\0';
    CStrIs(p.data_[..], 0);
    var token, saveptr := StrTokR(cmd, 0);
    if token.None? {
      return -1;
    }
    assert cmd[token.value..] == cmd[..][token.value..];
    p.cmdCode_ := CodeOf(CStr(cmd[token.value..]));
    token, saveptr := StrTokR(cmd, saveptr);
    if token.Some? {
      assert cmd[token.value..] == cmd[..][token.value..];
      var len := StrLen(cmd[token.value..]);
      if len >= ARG_SIZE {
        p.cmdCode_ := REQ_INVALID;
        return -1;
      }
      CopyArgument(p.data_, CStr(cmd[token.value..]));
      p.argFlag_, p.length_ := 1, len;
      token, saveptr := StrTokR(cmd, saveptr);
      if token.Some? {
        p.cmdCode_, p.argFlag_, p.length_ := REQ_INVALID, 0, 0;
        p.data_[0] := '\0';
        CStrIs(p.data_[..], 0);
        return -1;
      }
    }
    return 0;
  }

  /** memcpy of a string with its terminator. */
  method CopyArgument(data: array<Byte>, arg: Text)
    requires |arg| < data.Length
    modifies data
    ensures CStr(data[..]) == arg
  {
    CopyIn(data, 0, arg + ['\0']);
    assert data[..|arg| + 1] == arg + ['\0'];
    assert data[..][..|arg|] == data[..|arg| + 1][..|arg|] == arg;
    assert data[|arg|] == data[..|arg| + 1][|arg|];
    CStrIs(data[..], |arg|);
  }

  /** cmdVeri.  The test for mandatory arguments looks at the argument flag where the
      comment speaks of command codes 4 to 7. */
  function CmdVeri(r: Request): int {
    if r.code == REQ_INVALID then -1
    else if 4 <= r.argFlag <= 7 then
      (if r.argFlag != 1 || r.length <= 0 || r.arg == [] then -1 else 0)
    else if r.code == REQ_PWD then
      (if r.argFlag != 0 || r.length != 0 || r.arg != [] then -1 else 0)
    else 0
  }

  /** cmdCheck accepts exactly the command lines, and the packet says what was typed. */
  method CmdCheck(cmd: array<Byte>, p: PacketCmd) returns (ret: int)
    requires Terminated(cmd[..], 0) && p.data_.Length == ARG_SIZE && p.data_ != cmd
    modifies cmd, p, p.data_
    ensures ret == 0 || ret == -1
    ensures ret == 0 <==> IsCommand(Tokens(CStr(old(cmd[..]))))
    ensures ret == 0 ==> p.Meaning() == RequestOf(Tokens(CStr(old(cmd[..]))))
  {
    ghost var words := Tokens(CStr(cmd[..]));
    ret := CmdCut(cmd, p);
    if words != [] {
      KeywordsHaveCodes(words[0]);
    }
    if ret != 0 {
      return ret;
    }
    ret := CmdVeri(Request(p.cmdCode_, p.argFlag_, p.length_, CStr(p.data_[..])));
  }

  /** The rule that the comment at cmdVeri gives: rm, put, get and mkdir need an argument. */
  predicate DocumentedRule(words: seq<Bytes>) {
    IsCommand(words) && (4 <= CodeOf(words[0]) <= 7 ==> |words| == 2)
  }

  /** cmdCheck keeps to the documented rule on exactly the lines that are not a bare
      rm, put, get or mkdir; it accepts the bare "rm". */
  lemma BareCommandsSlipThrough(words: seq<Bytes>)
    ensures (IsCommand(words) <==> DocumentedRule(words))
        <==> !(|words| == 1 && words[0] in {"rm", "put", "get", "mkdir"})
    ensures Tokens("rm") == ["rm"] && IsCommand(["rm"]) && !DocumentedRule(["rm"])
  {
    var rm: Bytes := "rm";
    assert rm + [] == rm;
    TokensOfWord(rm, []);
    if words != [] { KeywordsHaveCodes(words[0]); }
  }

  lemma TokensOfPadding(pad: Bytes)
    requires Padding(pad)
    ensures Tokens(pad) == [] && (pad == [] || IsDelim(pad[0]))
  {
    assert pad + [] == pad && Tokens([]) == [];
    assert pad != [] ==> pad[0] in pad;
    TokensOfPadded(pad, []);
  }

  lemma PaddedWord(pad: Bytes, word: Bytes, tail: Bytes)
    requires Padding(pad) && Word(word) && (tail == [] || IsDelim(tail[0]))
    ensures Tokens(pad + word + tail) == [word] + Tokens(tail)
  {
    assert pad + word + tail == pad + (word + tail);
    TokensOfPadded(pad, word + tail);
    TokensOfWord(word, tail);
  }

  /** A line as it can be typed: before each word some of the four delimiters, at least one
      between two words, and some behind the last. */
  function Printed(gaps: seq<Bytes>, words: seq<Bytes>, tail: Bytes): Bytes
    requires |gaps| == |words|
  {
    if words == [] then tail else gaps[0] + words[0] + Printed(gaps[1..], words[1..], tail)
  }

  predicate Gap(s: Bytes) { forall i :: 0 <= i < |s| ==> s[i] in {' ', '\t', '\r', '\n'} }

  predicate Solid(s: Bytes) {
    s != [] && forall i :: 0 <= i < |s| ==> s[i] !in {' ', '\t', '\r', '\n', '\0'}
  }

  lemma GapsAndWords(s: Bytes)
    ensures Gap(s) <==> Padding(s)
    ensures Solid(s) <==> Word(s)
  {
    assert Gap(s) <==> forall i :: 0 <= i < |s| ==> IsDelim(s[i]);
    assert Solid(s) ==> forall c | c in s :: c !in {' ', '\t', '\r', '\n', '\0'};
    assert Word(s) ==> forall i :: 0 <= i < |s| ==> s[i] in s;
    assert Padding(s) ==> forall i :: 0 <= i < |s| ==> s[i] in s;
  }

  /** Words printed with any padding are cut back into the words. */
  lemma {:induction false} TokensOfPrinted(gaps: seq<Bytes>, words: seq<Bytes>, tail: Bytes)
    requires |gaps| == |words| && Gap(tail)
    requires forall i :: 0 <= i < |words| ==> Gap(gaps[i]) && Solid(words[i]) && (i > 0 ==> gaps[i] != [])
    ensures Tokens(Printed(gaps, words, tail)) == words
    decreases |words|
  {
    hide Tokens, Padding, Word, Gap, Solid;
    GapsAndWords(tail);
    if words == [] {
      TokensOfPadding(tail);
    } else {
      var rest := Printed(gaps[1..], words[1..], tail);
      TokensOfPrinted(gaps[1..], words[1..], tail);
      GapsAndWords(gaps[0]);
      GapsAndWords(words[0]);
      StartsWithGap(gaps[1..], words[1..], tail);
      PaddedWord(gaps[0], words[0], rest);
    }
  }

  lemma StartsWithGap(gaps: seq<Bytes>, words: seq<Bytes>, tail: Bytes)
    requires |gaps| == |words| && Gap(tail)
    requires forall i :: 0 <= i < |words| ==> Gap(gaps[i]) && gaps[i] != []
    ensures var s := Printed(gaps, words, tail); s == [] || IsDelim(s[0])
  {
    if words != [] {
      assert Printed(gaps, words, tail)[0] == gaps[0][0];
    }
  }

  ghost predicate PrintsAs(gaps: seq<Bytes>, words: seq<Bytes>, tail: Bytes, s: Bytes) {
    && |gaps| == |words| && s == Printed(gaps, words, tail) && Gap(tail)
    && forall i :: 0 <= i < |words| ==> Gap(gaps[i]) && Solid(words[i]) && (i > 0 ==> gaps[i] != [])
  }

  lemma OneMoreWord(gap: Bytes, word: Bytes, gaps: seq<Bytes>, words: seq<Bytes>, tail: Bytes, rest: Bytes)
    requires Gap(gap) && Solid(word) && PrintsAs(gaps, words, tail, rest) && (words != [] ==> gaps[0] != [])
    ensures PrintsAs([gap] + gaps, [word] + words, tail, gap + word + rest)
  {
    hide Gap, Solid;
    assert ([gap] + gaps)[1..] == gaps && ([word] + words)[1..] == words;
  }

  /** And every line without a NUL is printed words, so nothing else is ever read. */
  lemma {:induction false} EveryLineIsPrinted(s: Text) returns (gaps: seq<Bytes>, tail: Bytes)
    ensures PrintsAs(gaps, Tokens(s), tail, s)
    decreases |s|
  {
    hide Span, CSpan, Gap, Solid;
    SpanIsGap(s);
    var t: Text := s[Span(s)..];
    if t == [] {
      gaps, tail := [], s;
      assert s[..Span(s)] == s;
    } else {
      var n := CSpan(t);
      assert t[0] == s[Span(s)];
      CSpanIsSolid(t);
      var rest: Text := t[n..];
      gaps, tail := EveryLineIsPrinted(rest);
      GapBeforeWord(rest, gaps, Tokens(rest), tail);
      assert s == s[..Span(s)] + t[..n] + rest;
      assert Tokens(s) == [t[..n]] + Tokens(rest);
      OneMoreWord(s[..Span(s)], t[..n], gaps, Tokens(rest), tail, rest);
      gaps := [s[..Span(s)]] + gaps;
    }
  }

  lemma {:induction false} SpanIsGap(s: Bytes)
    ensures Gap(s[..Span(s)])
  {
    if s != [] && IsDelim(s[0]) {
      SpanIsGap(s[1..]);
      assert s[..Span(s)] == [s[0]] + s[1..][..Span(s[1..])];
    }
  }

  lemma {:induction false} CSpanIsSolid(s: Text)
    ensures s != [] && !IsDelim(s[0]) ==> Solid(s[..CSpan(s)])
    decreases |s|
  {
    if s != [] && !IsDelim(s[0]) {
      var rest: Text := s[1..];
      CSpanIsSolid(rest);
      assert s[..CSpan(s)] == [s[0]] + rest[..CSpan(rest)];
      assert s[0] in s;
    }
  }

  lemma HeadOfPrinted(gap: Bytes, word: Bytes, rest: Bytes)
    requires Solid(word)
    ensures gap == [] ==> !IsDelim((gap + word + rest)[0])
  {
    assert (gap + word + rest)[|gap|] == word[0];
  }

  /** What is left behind a word starts with a delimiter, so the gap before the next is not empty. */
  lemma GapBeforeWord(rest: Text, gaps: seq<Bytes>, words: seq<Bytes>, tail: Bytes)
    requires PrintsAs(gaps, words, tail, rest) && (rest != [] ==> IsDelim(rest[0]))
    ensures words != [] ==> gaps[0] != []
  {
    if words != [] {
      assert Solid(words[0]);
      HeadOfPrinted(gaps[0], words[0], Printed(gaps[1..], words[1..], tail));
    }
  }

  /** A command printed with any padding is read back, and accepted: a keyword alone, or,
      but for pwd, followed by an argument of less than 1024 bytes. */
  lemma PrintedCommandReadsBack(before: Bytes, word: Bytes, between: Bytes, arg: Bytes, after: Bytes)
    requires Gap(before) && Gap(between) && Gap(after) && between != []
    requires Solid(word) && Solid(arg)
    ensures Tokens(before + word + after) == [word]
    ensures Tokens(before + word + (between + arg + after)) == [word, arg]
    ensures IsCommand(Tokens(before + word + after))
       <==> word in {"cd", "ls", "pwd", "rm", "put", "get", "mkdir"}
    ensures IsCommand(Tokens(before + word + (between + arg + after)))
       <==> word in {"cd", "ls", "rm", "put", "get", "mkdir"} && |arg| <= 1023
  {
    hide Tokens, Gap, Solid;
    TokensOfPrinted([before], [word], after);
    TokensOfPrinted([before, between], [word, arg], after);
    OnePrinted(before, word, after);
    OnePrinted(between, arg, after);
    assert [before, between][1..] == [between] && [word, arg][1..] == [arg];
  }

  lemma OnePrinted(gap: Bytes, word: Bytes, tail: Bytes)
    ensures Printed([gap], [word], tail) == gap + word + tail
  {
  }

  /** The words of "cd docs". */
  lemma CdDocs()
    ensures Tokens("cd docs") == ["cd", "docs"] && IsCommand(["cd", "docs"])
  {
    hide Tokens;
    var cd: Bytes, gap: Bytes, docs: Bytes := "cd", " ", "docs";
    PrintedCommandReadsBack([], cd, gap, docs, []);
    assert [] + cd + (gap + docs + []) == "cd docs";
  }

  /** So distinct commands never print alike: the words determine the request, and the
      request of a command determines its words. */
  lemma RequestsAreDistinct(v: seq<Bytes>, w: seq<Bytes>)
    requires IsCommand(v) && IsCommand(w)
    ensures RequestOf(v) == RequestOf(w) <==> v == w
  {
    if RequestOf(v) == RequestOf(w) {
      assert CodeOf(v[0]) == CodeOf(w[0]);
      assert v == if |v| == 1 then [v[0]] else [v[0], v[1]];
      assert w == if |w| == 1 then [w[0]] else [w[0], w[1]];
    }
  }

  // ---------- packets on the wire ----------

  type UInt32 = n: int | 0 <= n < 0x1_0000_0000

  const PACKET_SIZE: nat := 12 + ARG_SIZE

  datatype Packet = Packet(code: UInt32, argFlag: UInt32, length: Int32, data: Bytes)

  predicate IsPacket(p: Packet) { |p.data| == ARG_SIZE }

  /** What a packet says. */
  function Says(p: Packet): Request { Request(p.code, p.argFlag, p.length, CStr(p.data)) }

  function EncodePacket(p: Packet): (b: Bytes)
    requires IsPacket(p)
    ensures |b| == PACKET_SIZE
  {
    EncodeLE(p.code, 4) + EncodeLE(p.argFlag, 4) + EncodeInt(p.length) + p.data
  }

  function DecodePacket(b: Bytes): (p: Packet)
    requires |b| == PACKET_SIZE
    ensures IsPacket(p)
  {
    Pow256Values();
    Packet(DecodeLE(b[..4]), DecodeLE(b[4..8]), DecodeInt(b[8..12]), b[12..])
  }

  lemma PacketRoundTrip(p: Packet)
    requires IsPacket(p)
    ensures DecodePacket(EncodePacket(p)) == p
  {
    var b := EncodePacket(p);
    Pow256Values();
    LERoundTrip(p.code, 4);
    LERoundTrip(p.argFlag, 4);
    IntRoundTrip(p.length, EncodeInt(p.length));
    assert b[..4] == EncodeLE(p.code, 4) && b[4..8] == EncodeLE(p.argFlag, 4);
    assert b[8..12] == EncodeInt(p.length) && b[12..] == p.data;
  }

  /** The layout of a packet: 1036 bytes, code, flag and length in four each, least
      significant first, then the data. */
  lemma PacketLayout(p: Packet)
    requires |p.data| == 1024
    ensures var b := EncodePacket(p);
            && |b| == 1036 && b[12..] == p.data
            && Weighed(b, 0) == p.code && Weighed(b, 4) == p.argFlag
            && p.length == Weighed(b, 8) - (if b[11] as int < 0x80 then 0 else 0x1_0000_0000)
  {
    Pow256Values();
    LERoundTrip(p.code, 4);
    LERoundTrip(p.argFlag, 4);
    IntRoundTrip(p.length, EncodeInt(p.length));
    FourBytes(EncodeLE(p.code, 4));
    FourBytes(EncodeLE(p.argFlag, 4));
    IntBytes(EncodeInt(p.length));
    PacketParts(EncodeLE(p.code, 4), EncodeLE(p.argFlag, 4), EncodeInt(p.length), p.data);
  }

  lemma PacketParts(a: Bytes, b: Bytes, c: Bytes, d: Bytes)
    requires |a| == 4 && |b| == 4 && |c| == 4
    ensures var s := a + b + c + d;
            && Weighed(s, 0) == Weighed(a, 0) && Weighed(s, 4) == Weighed(b, 0) && Weighed(s, 8) == Weighed(c, 0)
            && s[11] == c[3] && s[12..] == d
  {
  }

  function EncodePackets(ps: seq<Packet>): Bytes
    requires forall p | p in ps :: IsPacket(p)
  {
    if ps == [] then [] else EncodePackets(ps[..|ps| - 1]) + EncodePacket(ps[|ps| - 1])
  }

  /** Packets are all of one size, so the k-th one sits at k times that size. */
  lemma {:induction false} PacketsInPlace(ps: seq<Packet>, k: nat)
    requires (forall p | p in ps :: IsPacket(p)) && k < |ps|
    ensures |EncodePackets(ps)| == |ps| * PACKET_SIZE
    ensures EncodePackets(ps)[k * PACKET_SIZE..(k + 1) * PACKET_SIZE] == EncodePacket(ps[k])
  {
    var init := ps[..|ps| - 1];
    if init == [] {
      assert EncodePackets(init) == [];
    } else if k < |init| {
      PacketsInPlace(init, k);
    } else {
      PacketsInPlace(init, 0);
    }
  }

  datatype Handler =
    | ChangeDir | ListDir | MakeDir | RemoveFile | PutFile | GetFile | PrintWorkingDir | NoHandler

  /** The switch of the server's cmdParse. */
  function Dispatch(code: nat): Handler {
    if code == REQ_CD then ChangeDir
    else if code == REQ_LS then ListDir
    else if code == REQ_MKDIR then MakeDir
    else if code == REQ_RM then RemoveFile
    else if code == REQ_PUT then PutFile
    else if code == REQ_GET then GetFile
    else if code == REQ_PWD then PrintWorkingDir
    else NoHandler
  }

  /** The command that a user means by a word. */
  function Meant(word: Bytes): Handler {
    if word == "cd" then ChangeDir
    else if word == "ls" then ListDir
    else if word == "mkdir" then MakeDir
    else if word == "rm" then RemoveFile
    else if word == "put" then PutFile
    else if word == "get" then GetFile
    else if word == "pwd" then PrintWorkingDir
    else NoHandler
  }

  lemma DispatchIsMeant(word: Bytes)
    ensures Dispatch(CodeOf(word)) == Meant(word)
  {
  }

  /** The switch by the numbers of the protocol. */
  lemma DispatchByNumber(code: nat)
    ensures code <= 7 ==>
              Dispatch(code) == [NoHandler, ChangeDir, ListDir, PrintWorkingDir, RemoveFile, PutFile, GetFile, MakeDir][code]
    ensures code > 7 ==> Dispatch(code) == NoHandler
  {
  }

  /** A `put` with an argument: the client goes on to send the name, and then ends, because
      it opens the command's number as if it were the address of a name. */
  predicate EndsClient(words: seq<Bytes>) { |words| == 2 && words[0] == "put" }

  /** The commands that become packets, in order, and whether the last ended the client. */
  datatype Sending = Sending(commands: seq<seq<Bytes>>, ended: bool)

  function Sent(lines: seq<Text>): (r: Sending)
    ensures r.ended ==> r.commands != [] && EndsClient(r.commands[|r.commands| - 1])
    ensures forall i :: 0 <= i < |r.commands| ==> IsCommand(r.commands[i])
  {
    if lines == [] then Sending([], false)
    else
      var before, words := Sent(lines[..|lines| - 1]), Tokens(lines[|lines| - 1]);
      if before.ended || !IsCommand(words) then before
      else Sending(before.commands + [words], EndsClient(words))
  }

  /** The command lines among some lines, in order. */
  function CommandLines(lines: seq<Text>): seq<seq<Bytes>> {
    if lines == [] then []
    else (if IsCommand(Tokens(lines[0])) then [Tokens(lines[0])] else []) + CommandLines(lines[1..])
  }

  lemma {:induction false} CommandLinesMore(lines: seq<Text>, line: Text)
    ensures CommandLines(lines + [line])
         == CommandLines(lines) + (if IsCommand(Tokens(line)) then [Tokens(line)] else [])
  {
    hide Tokens, IsCommand;
    if lines == [] {
      assert [] + [line] == [line] && [line][1..] == [];
    } else {
      assert (lines + [line])[1..] == lines[1..] + [line];
      CommandLinesMore(lines[1..], line);
    }
  }

  lemma {:induction false} SentBeforePut(lines: seq<Text>)
    requires forall i :: 0 <= i < |lines| ==> !(IsCommand(Tokens(lines[i])) && EndsClient(Tokens(lines[i])))
    ensures Sent(lines) == Sending(CommandLines(lines), false)
  {
    hide Tokens, IsCommand, EndsClient;
    if lines != [] {
      var init, last := lines[..|lines| - 1], lines[|lines| - 1];
      assert lines == init + [last];
      SentBeforePut(init);
      CommandLinesMore(init, last);
    }
  }

  /** What is sent are the command lines, all of them and in order, up to and including the
      first `put` with an argument, which is the last. */
  lemma SentAreTheCommandLines(lines: seq<Text>, k: nat)
    requires k <= |lines|
    requires forall i :: 0 <= i < k ==> var w := Tokens(lines[i]); !(|w| == 2 && w[0] == "put" && |w[1]| <= 1023)
    requires k < |lines| ==> var w := Tokens(lines[k]); |w| == 2 && w[0] == "put" && |w[1]| <= 1023
    ensures Sent(lines) == if k == |lines| then Sending(CommandLines(lines), false)
                           else Sending(CommandLines(lines[..k]) + [Tokens(lines[k])], true)
  {
    hide Tokens, Sent, CommandLines;
    forall i | 0 <= i < k
      ensures !(IsCommand(Tokens(lines[..k][i])) && EndsClient(Tokens(lines[..k][i])))
    {
      assert lines[..k][i] == lines[i];
    }
    SentBeforePut(lines[..k]);
    if k == |lines| {
      assert lines[..k] == lines;
    } else {
      OneMoreLine(lines, k);
      EndedStays(lines, k + 1);
    }
  }

  /** What the client sends for its commands: the packets, and the name after a `put`. */
  function Transmission(packets: seq<Packet>, sent: Sending): Bytes
    requires forall p | p in packets :: IsPacket(p)
    requires sent.ended ==> sent.commands != [] && IsCommand(sent.commands[|sent.commands| - 1])
                            && EndsClient(sent.commands[|sent.commands| - 1])
  {
    EncodePackets(packets)
    + (if sent.ended then Frame(sent.commands[|sent.commands| - 1][1]) else [])
  }

  /** Packets that say what these command lines spell. */
  predicate Say(ps: seq<Packet>, commands: seq<seq<Bytes>>) {
    && |ps| == |commands|
    && (forall i :: 0 <= i < |ps| ==> IsPacket(ps[i]))
    && (forall i :: 0 <= i < |ps| ==> commands[i] != [] && Says(ps[i]) == RequestOf(commands[i]))
  }

  /** What the packet of a command holds, field by field: the command's number, 1 if it has
      an argument, the argument's length and the argument. */
  predicate Spells(p: Packet, words: seq<Bytes>) {
    && (|words| == 1 || |words| == 2)
    && p.code <= 7 && ["", "cd", "ls", "pwd", "rm", "put", "get", "mkdir"][p.code] == words[0]
    && p.argFlag == |words| - 1
    && CStr(p.data) == (if |words| == 2 then words[1] else [])
    && p.length == |CStr(p.data)|
  }

  lemma CommandIsSpelled(p: Packet, words: seq<Bytes>)
    requires IsCommand(words) && Says(p) == RequestOf(words)
    ensures Spells(p, words)
  {
    KeywordsHaveCodes(words[0]);
  }

  /** client.c handle_stdin_event: the packet in memory after the check of one line. */
  method CheckLine(line: Text) returns (ret: int, memory: Packet)
    ensures IsPacket(memory)
    ensures ret == 0 <==> IsCommand(Tokens(line))
    ensures ret == 0 ==> Says(memory) == RequestOf(Tokens(line))
    ensures ret == 0 ==> Spells(memory, Tokens(line))
  {
    var buf := new Byte[|line| + 1];
    CopyArgument(buf, line);
    assert buf[..][0..] == buf[..];
    var p := new PacketCmd();
    ret := CmdCheck(buf, p);
    memory := Packet(0, 0, 0, p.data_[..]);
    if ret == 0 {
      assert p.Meaning() == RequestOf(Tokens(line));
      memory := Packet(p.cmdCode_, p.argFlag_, p.length_, p.data_[..]);
      CommandIsSpelled(memory, Tokens(line));
    }
  }

  /** cmdParse for one line, with complete sends: the packet, whatever garbage its unused
      data holds, and the name that a `put` sends after it. */
  method SendLine(sock: Socket, line: Text) returns (sends: bool, ends: bool, ghost packet: Packet)
    requires sock.sendScript == []
    modifies sock`outgoing, sock`sendScript
    ensures sock.sendScript == [] && IsPacket(packet)
    ensures sends <==> IsCommand(Tokens(line))
    ensures ends <==> sends && EndsClient(Tokens(line))
    ensures sends ==> Says(packet) == RequestOf(Tokens(line)) && Spells(packet, Tokens(line))
    ensures sock.outgoing == if ends then old(sock.outgoing) + EncodePacket(packet) + Frame(Tokens(line)[1])
                             else if sends then old(sock.outgoing) + EncodePacket(packet)
                             else old(sock.outgoing)
  {
    hide EncodePacket, Tokens;
    var ret, memory := CheckLine(line);
    packet := memory;
    if ret != 0 {
      return false, false, packet;
    }
    SendWhole(sock, EncodePacket(memory));
    if memory.code == REQ_PUT && memory.argFlag == 1 {
      SendWhole(sock, Frame(CStr(memory.data)));
      return true, true, packet;
    }
    return true, false, packet;
  }

  method SendWhole(sock: Socket, data: Bytes)
    requires sock.sendScript == [] && data != []
    modifies sock`outgoing, sock`sendScript
    ensures sock.sendScript == [] && sock.outgoing == old(sock.outgoing) + data
  {
    var sret, errno := sock.Send(data);
    assert data[..|data|] == data;
  }

  lemma OneMorePacket(ps: seq<Packet>, commands: seq<seq<Bytes>>, p: Packet, words: seq<Bytes>)
    requires Say(ps, commands) && IsPacket(p) && words != [] && Says(p) == RequestOf(words)
    ensures Say(ps + [p], commands + [words])
    ensures EncodePackets(ps + [p]) == EncodePackets(ps) + EncodePacket(p)
  {
    assert (ps + [p])[..|ps|] == ps;
  }

  lemma OneMoreLine(lines: seq<Text>, k: nat)
    requires k < |lines| && !Sent(lines[..k]).ended
    ensures var words := Tokens(lines[k]);
            Sent(lines[..k + 1]) == if IsCommand(words) then Sending(Sent(lines[..k]).commands + [words], EndsClient(words))
                                    else Sent(lines[..k])
  {
    assert lines[..k + 1][..k] == lines[..k];
  }

  lemma {:induction false} EndedStays(lines: seq<Text>, k: nat)
    requires k <= |lines| && Sent(lines[..k]).ended
    ensures Sent(lines) == Sent(lines[..k])
    decreases |lines|
  {
    if k == |lines| {
      assert lines[..k] == lines;
    } else {
      var init := lines[..|lines| - 1];
      assert init[..k] == lines[..k];
      EndedStays(init, k);
    }
  }

  /** The client's input loop over any lines: the packets of their commands leave in order,
      up to a `put` with an argument, whose name follows and which ends the client. */
  method SendLines(sock: Socket, lines: seq<Text>) returns (ghost packets: seq<Packet>)
    requires sock.sendScript == []
    modifies sock`outgoing, sock`sendScript
    ensures Say(packets, Sent(lines).commands)
    ensures sock.outgoing == old(sock.outgoing) + Transmission(packets, Sent(lines))
  {
    hide EncodePackets, EncodePacket, Tokens, Sent, RequestOf, Says;
    packets := [];
    NothingSent(lines);
    for k := 0 to |lines|
      invariant sock.sendScript == [] && Say(packets, Sent(lines[..k]).commands) && !Sent(lines[..k]).ended
      invariant sock.outgoing == old(sock.outgoing) + EncodePackets(packets)
    {
      OneMoreLine(lines, k);
      var sends, ends, packet := SendLine(sock, lines[k]);
      if sends {
        ghost var before := packets;
        OneMorePacket(packets, Sent(lines[..k]).commands, packet, Tokens(lines[k]));
        packets := packets + [packet];
        Associative(old(sock.outgoing), EncodePackets(before), EncodePacket(packet));
        if ends {
          Associative(old(sock.outgoing), EncodePackets(packets), Frame(Tokens(lines[k])[1]));
          EndedStays(lines, k + 1);
          return;
        }
      }
    }
    assert lines[..|lines|] == lines && EncodePackets(packets) + [] == EncodePackets(packets);
  }

  lemma NothingSent(lines: seq<Text>)
    ensures Sent(lines[..0]) == Sending([], false) && EncodePackets([]) == []
  {
  }

  /** recvCmd: the byte count, 0 at the end of the stream, or -1. */
  method RecvCmd(sock: Socket) returns (r: int, packet: Option<Packet>)
    modifies sock`incoming, sock`recvScript
    ensures packet.Some? <==> r > 0
    ensures r > 0 ==>
              && r == 1036 && |old(sock.incoming)| >= PACKET_SIZE
              && packet == Some(DecodePacket(old(sock.incoming)[..PACKET_SIZE]))
              && sock.incoming == old(sock.incoming)[PACKET_SIZE..]
    ensures r == 0 ==> |old(sock.incoming)| < PACKET_SIZE && sock.incoming == []
    ensures r < 0 ==> r == -1 && EndsInFailure(old(sock.recvScript), sock.recvScript)
    ensures Failed !in old(sock.recvScript) ==>
              Failed !in sock.recvScript && r == if |old(sock.incoming)| >= PACKET_SIZE then PACKET_SIZE else 0
  {
    var header := new Byte[PACKET_SIZE];
    ghost var got, ending;
    r, got, ending := RecvN(sock, header, PACKET_SIZE);
    if r > 0 {
      assert header[..] == header[..PACKET_SIZE];
      return r, Some(DecodePacket(header[..]));
    }
    return r, None;
  }

  lemma StreamLength(ps: seq<Packet>)
    requires forall p | p in ps :: IsPacket(p)
    ensures |EncodePackets(ps)| == |ps| * PACKET_SIZE
  {
    if ps != [] { PacketsInPlace(ps, 0); }
  }

  lemma FrontOfTail(s: Bytes, at: nat, n: nat, later: Bytes)
    requires at + n <= |s|
    ensures (s[at..] + later)[..n] == s[at..at + n]
    ensures (s[at..] + later)[n..] == s[at + n..] + later
  {
  }

  lemma NextPacket(ps: seq<Packet>, k: nat, later: Bytes)
    requires (forall p | p in ps :: IsPacket(p)) && k < |ps|
    ensures (k + 1) * PACKET_SIZE <= |EncodePackets(ps)|
    ensures var stream := EncodePackets(ps)[k * PACKET_SIZE..] + later;
            && |stream| >= PACKET_SIZE && DecodePacket(stream[..PACKET_SIZE]) == ps[k]
            && stream[PACKET_SIZE..] == EncodePackets(ps)[(k + 1) * PACKET_SIZE..] + later
  {
    hide EncodePacket, DecodePacket, EncodePackets;
    PacketsInPlace(ps, k);
    PacketRoundTrip(ps[k]);
    FrontOfTail(EncodePackets(ps), k * PACKET_SIZE, PACKET_SIZE, later);
  }
}
