/** The path string used as a stack of directory names (server/filePath.c). */
module FilePath {
  import opened CTypes

  /** The path and the stack index `top_`, which starts at 1 for the root. */
  datatype PathState = PathState(path: Text, top: int)

  const ROOT: PathState := PathState("/", 1)

  // ---------- what push and pop do to the string ----------

  function StripLeading(s: Text): (r: Text)
    ensures r != [] ==> r[0] != '/'
  {
    if s != [] && s[0] == '/' then StripLeading(s[1..]) else s
  }

  function StripTrailing(s: Text): (r: Text)
    ensures r != [] ==> r[|r| - 1] != '/'
    ensures r <= s
  {
    if s != [] && s[|s| - 1] == '/' then StripTrailing(s[..|s| - 1]) else s
  }

  /** The name without its leading and trailing slashes. */
  function Strip(name: Text): Text { StripTrailing(StripLeading(name)) }

  function Extend(path: Text, name: Text): Text {
    if path == "/" then path + name else path + "/" + name
  }

  /** strrchr */
  function FindLast(s: Bytes, c: Byte): (n: Option<nat>)
    ensures n.Some? ==> n.value < |s| && s[n.value] == c && c !in s[n.value + 1..]
    ensures n.None? <==> c !in s
  {
    if s == [] then None
    else if s[|s| - 1] == c then Some(|s| - 1)
    else
      assert s == s[..|s| - 1] + [s[|s| - 1]];
      FindLast(s[..|s| - 1], c)
  }

  /** None: the call returns -1 and changes nothing. */
  function Pushed(p: PathState, name: Text): Option<PathState> {
    if Strip(name) == [] then None else Some(PathState(Extend(p.path, Strip(name)), p.top + 1))
  }

  function Popped(p: PathState): Option<PathState> {
    if p.top <= 1 || p.path == "/" then None
    else match FindLast(p.path, '/')
      case None => None
      case Some(k) => Some(PathState(if k == 0 then p.path[..1] else p.path[..k], p.top - 1))
  }

  datatype Op = PushOp(name: Text) | PopOp

  function Apply(p: PathState, op: Op): PathState {
    match (match op case PushOp(name) => Pushed(p, name) case PopOp => Popped(p))
    case Some(q) => q
    case None => p
  }

  function Run(p: PathState, ops: seq<Op>): PathState {
    if ops == [] then p else Apply(Run(p, ops[..|ops| - 1]), ops[|ops| - 1])
  }

  // ---------- the invariant of arbitrary runs ----------

  function Slashes(s: Bytes): nat {
    if s == [] then 0 else Slashes(s[..|s| - 1]) + (if s[|s| - 1] == '/' then 1 else 0)
  }

  /** How many components the path shows; none for the root. */
  function Depth(path: Text): nat { if path == "/" then 0 else Slashes(path) }

  predicate WellFormed(path: Text) {
    |path| >= 1 && path[0] == '/' && (|path| >= 2 ==> path[1] != '/')
  }

  predicate Sound(p: PathState) { WellFormed(p.path) && 1 <= p.top <= Depth(p.path) + 1 }

  lemma {:induction false} SlashesConcat(a: Bytes, b: Bytes)
    ensures Slashes(a + b) == Slashes(a) + Slashes(b)
  {
    if b == [] {
      assert a + b == a;
    } else {
      assert (a + b)[..|a + b| - 1] == a + b[..|b| - 1];
      SlashesConcat(a, b[..|b| - 1]);
    }
  }

  lemma {:induction false} NoSlashes(s: Bytes)
    ensures Slashes(s) == 0 <==> '/' !in s
  {
    if s != [] {
      NoSlashes(s[..|s| - 1]);
      assert s == s[..|s| - 1] + [s[|s| - 1]];
    }
  }

  lemma ExtendDepth(path: Text, name: Text)
    requires WellFormed(path) && name != [] && name[0] != '/'
    ensures WellFormed(Extend(path, name))
    ensures Depth(Extend(path, name)) == Depth(path) + 1 + Slashes(name)
  {
    SlashesConcat(path, name);
    SlashesConcat(path + "/", name);
    SlashesConcat(path, "/");
  }

  lemma {:induction false} StripTrailingHead(s: Text)
    ensures s != [] && s[0] != '/' ==> StripTrailing(s) != []
  {
    if |s| > 1 { StripTrailingHead(s[..|s| - 1]); }
  }

  lemma {:induction false} StripLeadingAll(s: Text)
    ensures StripLeading(s) == [] <==> forall i :: 0 <= i < |s| ==> s[i] == '/'
  {
    if s != [] && s[0] == '/' { StripLeadingAll(s[1..]); }
  }

  /** A push fails exactly for a name of nothing but slashes; any other name is
      stored without slashes at its ends. */
  lemma StripNonEmpty(name: Text)
    ensures Strip(name) == [] <==> forall i :: 0 <= i < |name| ==> name[i] == '/'
    ensures Strip(name) != [] ==> Strip(name)[0] != '/' && Strip(name)[|Strip(name)| - 1] != '/'
  {
    StripTrailingHead(StripLeading(name));
    StripLeadingAll(name);
  }

  predicate AllSlashes(s: Text) { forall i :: 0 <= i < |s| ==> s[i] == '/' }

  /** Only slashes are stripped. */
  lemma StripSplits(name: Text) returns (front: Text, back: Text)
    ensures name == front + Strip(name) + back && AllSlashes(front) && AllSlashes(back)
  {
    var rest := StripLeading(name);
    LeadingSplits(name);
    TrailingSplits(rest);
    front, back := name[..|name| - |rest|], rest[|Strip(name)|..];
  }

  lemma {:induction false} LeadingSplits(s: Text)
    ensures var r := StripLeading(s);
            |r| <= |s| && s[|s| - |r|..] == r && AllSlashes(s[..|s| - |r|])
  {
    if s != [] && s[0] == '/' {
      LeadingSplits(s[1..]);
      var n := |s| - |StripLeading(s)|;
      assert s[..n] == [s[0]] + s[1..][..n - 1];
    }
  }

  lemma {:induction false} TrailingSplits(s: Text)
    ensures AllSlashes(s[|StripTrailing(s)|..])
  {
    if s != [] && s[|s| - 1] == '/' {
      TrailingSplits(s[..|s| - 1]);
      var n := |StripTrailing(s)|;
      assert s[n..] == s[..|s| - 1][n..] + [s[|s| - 1]];
    }
  }

  /** Cutting at the last slash takes one component away. */
  lemma PopDepth(p: PathState)
    requires Sound(p) && Popped(p).Some?
    ensures WellFormed(Popped(p).value.path) && Depth(Popped(p).value.path) == Depth(p.path) - 1
  {
    var k := FindLast(p.path, '/').value;
    var head, tail := p.path[..k], p.path[k + 1..];
    assert p.path == (head + "/") + tail;
    SlashesConcat(head + "/", tail);
    SlashesConcat(head, "/");
    NoSlashes(tail);
  }

  /** Every run keeps the path rooted, without a double slash in front, and the index
      between 1 and the number of components plus one.  So in `popFilePath` the search
      for a slash never fails, and the test for the root path follows from the test of
      the index. */
  lemma {:induction false} RunsAreSound(p: PathState, ops: seq<Op>)
    requires Sound(p)
    ensures var q := Run(p, ops);
            && Sound(q)
            && FindLast(q.path, '/').Some?
            && (q.path == "/" ==> q.top <= 1)
            && (Popped(q).None? <==> q.top <= 1)
  {
    if ops != [] {
      var q := Run(p, ops[..|ops| - 1]);
      RunsAreSound(p, ops[..|ops| - 1]);
      match ops[|ops| - 1]
      case PushOp(name) =>
        StripNonEmpty(name);
        if Strip(name) != [] { ExtendDepth(q.path, Strip(name)); }
      case PopOp =>
        if Popped(q).Some? { PopDepth(q); }
    }
  }

  /** Every pushed name is one path component, whatever slashes surround it. */
  predicate SingleNames(ops: seq<Op>) {
    forall op | op in ops && op.PushOp? :: '/' !in Strip(op.name)
  }

  /** With single names the index is exactly the number of components plus one. */
  lemma {:induction false} IndexIsDepth(ops: seq<Op>)
    requires SingleNames(ops)
    ensures Run(ROOT, ops).top == Depth(Run(ROOT, ops).path) + 1
  {
    if ops != [] {
      var q := Run(ROOT, ops[..|ops| - 1]);
      IndexIsDepth(ops[..|ops| - 1]);
      RunsAreSound(ROOT, ops[..|ops| - 1]);
      match ops[|ops| - 1]
      case PushOp(name) =>
        StripNonEmpty(name);
        assert ops[|ops| - 1] in ops;
        NoSlashes(Strip(name));
        if Strip(name) != [] { ExtendDepth(q.path, Strip(name)); }
      case PopOp =>
        if Popped(q).Some? { PopDepth(q); }
    }
  }

  // ---------- refinement of a stack of names ----------

  function StackApply(stack: seq<Text>, op: Op): seq<Text> {
    match op
    case PushOp(name) => if Strip(name) == [] then stack else stack + [Strip(name)]
    case PopOp => if stack == [] then [] else stack[..|stack| - 1]
  }

  function StackRun(ops: seq<Op>): seq<Text> {
    if ops == [] then [] else StackApply(StackRun(ops[..|ops| - 1]), ops[|ops| - 1])
  }

  /** The names one after the other, a slash before each. */
  function Slashed(stack: seq<Text>): Text {
    if stack == [] then [] else Slashed(stack[..|stack| - 1]) + "/" + stack[|stack| - 1]
  }

  /** The path of a stack of names on top of a base: the root's own slash goes when there
      are names. */
  function Render(base: Text, stack: seq<Text>): Text {
    if stack == [] then base else if base == "/" then Slashed(stack) else base + Slashed(stack)
  }

  /** No pop of the sequence finds the stack of its own pushes empty. */
  predicate StaysAbove(ops: seq<Op>) {
    ops == [] || (StaysAbove(ops[..|ops| - 1]) && (ops[|ops| - 1].PopOp? ==> StackRun(ops[..|ops| - 1]) != []))
  }

  lemma FindLastIs(s: Bytes, c: Byte, at: nat)
    requires at < |s| && s[at] == c && c !in s[at + 1..]
    ensures FindLast(s, c) == Some(at)
  {
    var k := FindLast(s, c).value;
    assert forall i | at < i < |s| :: s[i] == s[at + 1..][i - at - 1];
    assert forall i | k < i < |s| :: s[i] == s[k + 1..][i - k - 1];
  }

  /** The last slash of an extended path is the one before the new name. */
  lemma LastSlashOfExtended(path: Text, name: Text)
    requires WellFormed(path) && '/' !in name
    ensures FindLast(Extend(path, name), '/') == Some(if path == "/" then 0 else |path|)
    ensures Extend(path, name)[..|path|] == path
  {
    var at := if path == "/" then 0 else |path|;
    assert Extend(path, name)[at + 1..] == name;
    FindLastIs(Extend(path, name), '/', at);
  }

  lemma PopUndoesPush(p: PathState, name: Text)
    requires WellFormed(p.path) && p.top >= 1 && name != [] && '/' !in name
    ensures Popped(PathState(Extend(p.path, name), p.top + 1)) == Some(p)
  {
    hide Extend, FindLast, WellFormed;
    LastSlashOfExtended(p.path, name);
    ExtendIsLonger(p.path, name);
  }

  lemma ExtendIsLonger(path: Text, name: Text)
    requires WellFormed(path) && name != []
    ensures |Extend(path, name)| > |path| >= 1 && Extend(path, name) != "/"
  {
  }

  /** A pop takes back the push before it if and only if the pushed name was one
      component: of "a/b" it leaves "a" behind. */
  lemma PopUndoesPushExactly(p: PathState, dirName: Text)
    requires Sound(p) && Pushed(p, dirName).Some?
    ensures Popped(Pushed(p, dirName).value) == Some(p) <==> '/' !in Strip(dirName)
  {
    hide Strip, Extend, FindLast, WellFormed, Depth;
    StripNonEmpty(dirName);
    if '/' !in Strip(dirName) {
      PopUndoesPush(p, Strip(dirName));
    } else {
      LastSlashInName(p.path, Strip(dirName));
    }
  }

  /** A push of "a/b" and a pop leave "/a" behind, with the index back at 1. */
  lemma PopAfterTwoComponents()
    ensures Pushed(ROOT, "a/b") == Some(PathState("/a/b", 2))
    ensures Popped(PathState("/a/b", 2)) == Some(PathState("/a", 1)) && PathState("/a", 1) != ROOT
  {
    var name: Text, path: Text := "a/b", "/a/b";
    assert Strip(name) == name;
    assert path == ROOT.path + name;
    FindLastIs(path, '/', 2);
    assert path[..2] == "/a";
  }

  /** A slash inside the new name is where the path is cut, so more is left than was there. */
  lemma LastSlashInName(path: Text, name: Text)
    requires WellFormed(path) && name != [] && name[0] != '/' && '/' in name
    ensures FindLast(Extend(path, name), '/').Some? && FindLast(Extend(path, name), '/').value > |path|
  {
    var s := Extend(path, name);
    var i :| 0 < i < |name| && name[i] == '/';
    var at := |s| - |name| + i;
    assert s[at] == '/';
    var k := FindLast(s, '/').value;
    assert forall j | k < j < |s| :: s[j] == s[k + 1..][j - k - 1];
  }

  predicate Names(stack: seq<Text>) {
    forall i :: 0 <= i < |stack| ==> stack[i] != [] && '/' !in stack[i]
  }

  lemma {:induction false} RenderWellFormed(base: Text, stack: seq<Text>)
    requires WellFormed(base) && Names(stack)
    ensures WellFormed(Render(base, stack))
  {
    if stack != [] {
      var below, name := stack[..|stack| - 1], stack[|stack| - 1];
      RenderWellFormed(base, below);
      assert name[0] in name;
      assert stack == below + [name];
      RenderOneMore(base, below, name);
      ExtendDepth(Render(base, below), name);
    }
  }

  lemma RenderOneMore(base: Text, stack: seq<Text>, name: Text)
    requires Names(stack)
    ensures Render(base, stack + [name]) == Extend(Render(base, stack), name)
  {
    assert (stack + [name])[..|stack|] == stack;
    assert Slashed(stack + [name]) == Slashed(stack) + "/" + name;
    if stack == [] {
      assert Slashed([]) == [];
    } else {
      assert |Slashed(stack)| >= 2;
      assert base + (Slashed(stack) + "/" + name) == base + Slashed(stack) + "/" + name;
    }
  }

  /** The path state of a stack of names on top of a path. */
  function OnTop(p: PathState, stack: seq<Text>): PathState {
    PathState(Render(p.path, stack), p.top + |stack|)
  }

  lemma PushIsStackPush(p: PathState, stack: seq<Text>, name: Text)
    requires Names(stack) && '/' !in Strip(name)
    ensures Names(StackApply(stack, PushOp(name)))
    ensures Apply(OnTop(p, stack), PushOp(name)) == OnTop(p, StackApply(stack, PushOp(name)))
  {
    hide Strip, Extend, Render;
    RenderOneMore(p.path, stack, Strip(name));
  }

  lemma PopIsStackPop(p: PathState, stack: seq<Text>)
    requires WellFormed(p.path) && p.top >= 1 && Names(stack) && (stack != [] || p == ROOT)
    ensures Names(StackApply(stack, PopOp))
    ensures Apply(OnTop(p, stack), PopOp) == OnTop(p, StackApply(stack, PopOp))
  {
    hide Extend, Render, WellFormed, Popped;
    if stack == [] {
      EmptyStack(p);
    } else {
      var below, name := stack[..|stack| - 1], stack[|stack| - 1];
      assert stack == below + [name];
      RenderWellFormed(p.path, below);
      RenderOneMore(p.path, below, name);
      PopUndoesPush(OnTop(p, below), name);
    }
  }

  lemma EmptyStack(p: PathState)
    ensures OnTop(p, []) == p && Popped(ROOT) == None
  {
  }

  /** From any sound path, single names pushed and popped without going below the start
      act on the string exactly as on a stack of names. */
  lemma {:induction false} RunIsStack(p: PathState, ops: seq<Op>)
    requires Sound(p) && SingleNames(ops) && (StaysAbove(ops) || p == ROOT)
    ensures Names(StackRun(ops)) && Run(p, ops) == OnTop(p, StackRun(ops))
  {
    if ops == [] {
      EmptyStack(p);
    } else {
      hide Strip, OnTop, Names, StackApply, Apply, WellFormed;
      var init, last := ops[..|ops| - 1], ops[|ops| - 1];
      RunIsStack(p, init);
      assert last in ops;
      match last
      case PushOp(name) => PushIsStackPush(p, StackRun(init), name);
      case PopOp => PopIsStackPop(p, StackRun(init));
    }
  }

  /** A sequence of single-name pushes and as many pops, never going below its start,
      restores the path and the index, whatever sound path it started from. */
  lemma BalancedRunRestores(p: PathState, ops: seq<Op>)
    requires Sound(p) && SingleNames(ops) && StaysAbove(ops) && StackRun(ops) == []
    ensures Run(p, ops) == p
  {
    RunIsStack(p, ops);
    EmptyStack(p);
  }

  // ---------- the components of a path ----------

  /** A text cut at its slashes; two slashes in a row have an empty piece between them. */
  function Split(s: Text): (pieces: seq<Text>)
    ensures pieces != [] && forall i :: 0 <= i < |pieces| ==> '/' !in pieces[i]
  {
    match FindLast(s, '/')
    case None => [s]
    case Some(k) => Split(s[..k]) + [s[k + 1..]]
  }

  /** The pieces with a slash between any two. */
  function Glue(pieces: seq<Text>): Text
    requires pieces != []
  {
    if |pieces| == 1 then pieces[0] else Glue(pieces[..|pieces| - 1]) + "/" + pieces[|pieces| - 1]
  }

  /** Cutting loses nothing. */
  lemma {:induction false} SplitGlues(s: Text)
    ensures Glue(Split(s)) == s
  {
    match FindLast(s, '/')
    case None =>
    case Some(k) =>
      SplitGlues(s[..k]);
      assert Split(s)[..|Split(s)| - 1] == Split(s[..k]);
      assert s == s[..k] + "/" + s[k + 1..];
  }

  lemma {:induction false} SplitOfTwo(a: Text, b: Text)
    ensures Split(a + "/" + b) == Split(a) + Split(b)
    decreases |b|
  {
    hide FindLast, Split;
    match FindLast(b, '/')
    case None =>
      SplitOnce(a + "/" + b, |a|, a, b);
      SplitWhole(b);
    case Some(k) =>
      SplitOnce(a + "/" + b, |a| + 1 + k, a + "/" + b[..k], b[k + 1..]);
      SplitOnce(b, k, b[..k], b[k + 1..]);
      SplitOfTwo(a, b[..k]);
  }

  lemma SplitOnce(s: Text, at: nat, front: Text, last: Text)
    requires at < |s| && s[at] == '/' && '/' !in last && s[..at] == front && s[at + 1..] == last
    ensures Split(s) == Split(front) + [last]
  {
    hide FindLast;
    FindLastIs(s, '/', at);
  }

  lemma SplitWhole(s: Text)
    requires '/' !in s
    ensures Split(s) == [s]
  {
    hide FindLast;
  }

  /** What a path shows below the root. */
  function Components(path: Text): seq<Text> { if |path| <= 1 then [] else Split(path[1..]) }

  /** A successful push, spelled out: the name without the slashes around it is appended
      after one slash, which the root already has. */
  lemma PushSpelledOut(p: PathState, front: Text, name: Text, back: Text)
    requires AllSlashes(front) && AllSlashes(back) && name != [] && name[0] != '/' && name[|name| - 1] != '/'
    ensures Pushed(p, front + name + back)
         == Some(PathState(if p.path == "/" then "/" + name else p.path + "/" + name, p.top + 1))
  {
    StripLeadingIs(front + name + back, |front|);
    StripTrailingIs(name + back, |name|);
    assert (front + name + back)[|front|..] == name + back && (name + back)[..|name|] == name;
  }

  /** And a pop: the last component goes with its slash, but for the root's. */
  lemma PopSpelledOut(base: Text, last: Text, top: int)
    requires '/' !in last && (base != [] || last != [])
    ensures Popped(PathState(base + "/" + last, top))
         == if top <= 1 then None else Some(PathState(if base == [] then "/" else base, top - 1))
  {
    var path: Text := base + "/" + last;
    assert path[|base| + 1..] == last && path[..|base|] == base;
    FindLastIs(path, '/', |base|);
    assert base == [] ==> path[..1] == "/";
  }

  /** Whatever slashes are inside the name, a push adds the components it has. */
  lemma PushAddsComponents(p: PathState, dirName: Text)
    requires Sound(p) && Pushed(p, dirName).Some?
    ensures Components(Pushed(p, dirName).value.path) == Components(p.path) + Split(Strip(dirName))
  {
    hide Strip, Split;
    var name := Strip(dirName);
    var path := Pushed(p, dirName).value.path;
    if p.path == "/" {
      assert path[1..] == name;
      assert [] + Split(name) == Split(name);
    } else {
      assert p.path == "/" + p.path[1..];
      assert path[1..] == p.path[1..] + "/" + name;
      SplitOfTwo(p.path[1..], name);
    }
  }

  lemma PopDropsComponent(p: PathState)
    requires Sound(p) && Popped(p).Some?
    ensures Components(p.path) != []
    ensures Components(Popped(p).value.path) == Components(p.path)[..|Components(p.path)| - 1]
  {
    hide Depth;
    var k, below := FindLast(p.path, '/').value, p.path[1..];
    if k == 0 {
      assert below == p.path[k + 1..];
      assert Split(below) == [below];
    } else {
      assert below[k - 1 + 1..] == p.path[k + 1..] && below[..k - 1] == p.path[..k][1..];
      FindLastIs(below, '/', k - 1);
    }
  }

  /** The names and the index that a run comes to, with no string in between. */
  datatype Listing = Listing(names: seq<Text>, top: int)

  function ListRun(ops: seq<Op>): Listing {
    if ops == [] then Listing([], 1)
    else
      var l := ListRun(ops[..|ops| - 1]);
      match ops[|ops| - 1]
      case PushOp(name) =>
        if AllSlashes(name) then l
        else Listing(l.names + Split(Strip(name)), l.top + 1)
      case PopOp =>
        if l.top <= 1 || l.names == [] then l else Listing(l.names[..|l.names| - 1], l.top - 1)
  }

  /** Every run, with any names, acts on the string as on the list of its components: a push
      adds the name's, a pop above the index 1 drops the last. */
  lemma {:induction false} RunIsList(ops: seq<Op>)
    ensures Listing(Components(Run(ROOT, ops).path), Run(ROOT, ops).top) == ListRun(ops)
  {
    if ops != [] {
      hide Strip, Split, Components, Pushed, Popped;
      var q, last := Run(ROOT, ops[..|ops| - 1]), ops[|ops| - 1];
      RunIsList(ops[..|ops| - 1]);
      RunsAreSound(ROOT, ops[..|ops| - 1]);
      match last
      case PushOp(name) =>
        StripNonEmpty(name);
        PushedOrNot(q, name);
        if Pushed(q, name).Some? { PushAddsComponents(q, name); }
      case PopOp =>
        PoppedIndex(q);
        if Popped(q).Some? { PopDropsComponent(q); }
    } else {
      RootIsEmpty();
    }
  }

  lemma RootIsEmpty()
    ensures Components("/") == []
  {
  }

  lemma PushedOrNot(p: PathState, name: Text)
    ensures Pushed(p, name).None? <==> Strip(name) == []
    ensures Pushed(p, name).Some? ==> Pushed(p, name).value.top == p.top + 1
  {
  }

  lemma PoppedIndex(p: PathState)
    ensures Popped(p).Some? ==> Popped(p).value.top == p.top - 1
  {
  }

  /** For single names that is the stack of the names pushed. */
  lemma {:induction false} SingleNamesAreComponents(ops: seq<Op>)
    requires SingleNames(ops)
    ensures Components(Run(ROOT, ops).path) == StackRun(ops) && Run(ROOT, ops).top == |StackRun(ops)| + 1
  {
    RunIsList(ops);
    if ops != [] {
      hide Strip;
      var init, last := ops[..|ops| - 1], ops[|ops| - 1];
      SingleNamesAreComponents(init);
      RunIsList(init);
      assert last in ops;
      if last.PushOp? { StripNonEmpty(last.name); }
    }
  }

  // ---------- the object ----------

  lemma {:induction false} StripLeadingIs(s: Text, k: nat)
    requires k <= |s| && (forall i :: 0 <= i < k ==> s[i] == '/') && (k < |s| ==> s[k] != '/')
    ensures StripLeading(s) == s[k..]
  {
    if k > 0 {
      StripLeadingIs(s[1..], k - 1);
    }
  }

  lemma {:induction false} StripTrailingIs(s: Text, k: nat)
    requires k <= |s| && (forall i :: k <= i < |s| ==> s[i] == '/') && (k > 0 ==> s[k - 1] != '/')
    ensures StripTrailing(s) == s[..k]
  {
    if k < |s| {
      StripTrailingIs(s[..|s| - 1], k);
    }
  }

  /** Lines 34-41 */
  method SkipLeading(dirName: Text) returns (name: Text)
    ensures name == StripLeading(dirName)
  {
    var start := 0;
    while start < |dirName| && dirName[start] == '/'
      invariant start <= |dirName| && forall i :: 0 <= i < start ==> dirName[i] == '/'
    {
      start := start + 1;
    }
    StripLeadingIs(dirName, start);
    return dirName[start..];
  }

  /** Lines 43-51 */
  method DropTrailing(name: Text) returns (shorter: Text)
    ensures shorter == StripTrailing(name)
  {
    var dirLen := |name|;
    while dirLen > 0 && name[dirLen - 1] == '/'
      invariant 0 <= dirLen <= |name| && forall i :: dirLen <= i < |name| ==> name[i] == '/'
    {
      dirLen := dirLen - 1;
    }
    StripTrailingIs(name, dirLen);
    return name[..dirLen];
  }

  /** Lines 53-71: the path and the name in a new buffer. */
  method BuildPath(path: Text, name: Text) returns (newPath: array<Byte>)
    ensures fresh(newPath) && StrLen(newPath[..]) < newPath.Length
    ensures CStr(newPath[..]) == if path == "/" then "/" + name else path + "/" + name
  {
    var isRoot := |path| == 1 && path[0] == '/';
    assert isRoot <==> path == "/";
    var newLen := |path| + (if isRoot then 0 else 1) + |name|;
    newPath := new Byte[newLen + 1];
    CopyIn(newPath, 0, path);
    var offset := |path|;
    if !isRoot {
      CopyIn(newPath, offset, "/");
      offset := offset + 1;
    }
    CopyIn(newPath, offset, name);
    newPath[newLen] := '\0';
    assert newPath[..newLen] == Extend(path, name);
    assert newPath[..][..newLen] == newPath[..newLen];
    CStrIs(newPath[..], newLen);
  }

  class FilePath {
    var path_: array<Byte>
    var top_: int

    ghost predicate Valid()
      reads this, path_
    {
      StrLen(path_[..]) < path_.Length
    }

    ghost function State(): PathState
      reads this, path_
    {
      PathState(CStr(path_[..]), top_)
    }

    /** initFilePath */
    constructor ()
      ensures Valid() && State() == ROOT && fresh(path_)
    {
      var buf := new Byte[2];
      buf[0], buf[1] := '/', '\0';
      path_, top_ := buf, 1;
      new;
      assert path_[..][..1] == "/";
      CStrIs(path_[..], 1);
    }

    /** pushFilePath: 0, or -1 for a name of nothing but slashes. */
    method Push(dirName: Text) returns (ret: int)
      requires Valid()
      modifies this, path_
      ensures Valid() && (path_ == old(path_) || fresh(path_))
      ensures ret == if Pushed(old(State()), dirName).Some? then 0 else -1
      ensures State() == Apply(old(State()), PushOp(dirName))
      // the path grows by a slash, unless it is the root, and by the stripped name
      ensures ret == if AllSlashes(dirName) then -1 else 0
      ensures ret == -1 ==> State() == old(State())
      ensures ret == 0 ==> State().top == old(State()).top + 1
      ensures ret == 0 ==>
                State().path == if old(State()).path == "/" then "/" + Strip(dirName)
                                else old(State()).path + "/" + Strip(dirName)
    {
      var name := SkipLeading(dirName);
      name := DropTrailing(name);
      StripNonEmpty(dirName);
      if name == [] {
        return -1;
      }
      path_ := BuildPath(CStr(path_[..]), name);
      top_ := top_ + 1;
      return 0;
    }

    /** popFilePath: 0, or -1 at the bottom of the stack. */
    method Pop() returns (ret: int)
      requires Valid()
      modifies this, path_
      ensures Valid() && path_ == old(path_)
      ensures ret == if Popped(old(State())).Some? then 0 else -1
      ensures State() == Apply(old(State()), PopOp)
      ensures ret == -1 ==> State() == old(State())
      ensures ret == 0 ==> State().top == old(State()).top - 1 && old(State()).top > 1
    {
      var pathLen := StrLen(path_[..]);
      ghost var path := CStr(path_[..]);
      assert pathLen > 0 ==> path_[0] == path[0];
      if top_ <= 1 || (pathLen > 0 && path_[0] == '/' && path_[1] == '\0') {
        assert top_ > 1 ==> path_[..][1] == '\0' && pathLen == 1 && path == "/" by {
          if top_ > 1 {
            assert path_[..][..1] == [path_[0]];
            CStrIs(path_[..], 1);
          }
        }
        return -1;
      }
      var lastSlash := FindLast(path_[..pathLen], '/');
      assert path_[..pathLen] == path;
      match lastSlash
      case None => return -1;
      case Some(k) =>
        var cut := if k == 0 then 1 else k;
        path_[cut] := '\0';
        assert path_[..][..cut] == path[..cut];
        CStrIs(path_[..], cut);
        top_ := top_ - 1;
        return 0;
    }
  }
}
