/**
 * Reading virt-xml arguments back: from the comma-separated argument to the leaves of the
 * tree it was made of, and the trees for which that is impossible.
 */
module VirtXmlReading {
  import opened Options
  import opened Numerals
  import opened VirtXmlArgs

  // ----- Which paths can be read back -----

  /** No '=' or '.', and not ending in a digit. */
  predicate NameOk(k: string) {
    k != "" && '=' !in k && '.' !in k && !IsDigit(k[|k| - 1], 10)
  }

  /** At least one step, good names, and no index right behind an index. */
  predicate PathOk(path: seq<Step>) {
    && path != []
    && (forall i :: 0 <= i < |path| && path[i].Key? ==> NameOk(path[i].name))
    && (forall i :: 0 < i < |path| && path[i].Index? ==> path[i - 1].Key?)
  }

  // ----- The reader -----

  function TrailingDigits(c: string): (n: nat)
    ensures n <= |c| && forall i :: |c| - n <= i < |c| ==> IsDigit(c[i], 10)
  {
    if c == "" || !IsDigit(c[|c| - 1], 10) then 0 else TrailingDigits(c[..|c| - 1]) + 1
  }

  /** A name, an index, or a name with an index behind it. */
  function ReadComponent(c: string): seq<Step> {
    var n := TrailingDigits(c);
    (if n < |c| then [Key(c[..|c| - n])] else []) + (if n > 0 then [Index(Read(c[|c| - n..], 10))] else [])
  }

  function LastDot(s: string): (d: Option<nat>)
    ensures d.Some? ==> d.value < |s|
  {
    if s == "" then None
    else if s[|s| - 1] == '.' then Some(|s| - 1)
    else LastDot(s[..|s| - 1])
  }

  function ReadPath(s: string): seq<Step>
    decreases |s|
  {
    match LastDot(s)
    case None => ReadComponent(s)
    case Some(d) => ReadPath(s[..d]) + ReadComponent(s[d + 1..])
  }

  function FirstEquals(s: string): (e: nat)
    ensures e <= |s| && (e < |s| ==> s[e] == '=')
    ensures forall i :: 0 <= i < e ==> s[i] != '='
  {
    if s == "" || s[0] == '=' then 0 else FirstEquals(s[1..]) + 1
  }

  /** A piece is a path, an equals sign and a text; or a text alone, if it has no equals sign or
      nothing before it. */
  function ReadPiece(s: string): Leaf {
    var e := FirstEquals(s);
    if e == 0 || e == |s| then Leaf([], s) else Leaf(ReadPath(s[..e]), s[e + 1..])
  }

  function ReadPieces(words: seq<string>): seq<Leaf> {
    if words == [] then [] else [ReadPiece(words[0])] + ReadPieces(words[1..])
  }

  /** From the arguments for one option to the leaves. */
  function ReadArgs(args: seq<string>): Option<seq<Leaf>> {
    if args == [] then Some([])
    else
      match Split(args[0], Plain, "")
      case Some(words) => Some(ReadPieces(words))
      case None => None
  }

  // ----- It undoes the printing -----

  lemma {:induction false} TrailingDigitsOf(k: string, digits: string)
    requires AllDigits(digits, 10)
    requires k == "" || !IsDigit(k[|k| - 1], 10)
    ensures TrailingDigits(k + digits) == |digits|
    decreases |digits|
  {
    if digits == "" {
      assert k + digits == k;
    } else {
      TrailingDigitsOf(k, digits[..|digits| - 1]);
      assert (k + digits)[..|k + digits| - 1] == k + digits[..|digits| - 1];
    }
  }

  lemma DecimalChars(i: nat)
    ensures Decimal(i) != "" && AllDigits(Decimal(i), 10) && Read(Decimal(i), 10) == i
    ensures '.' !in Decimal(i) && '=' !in Decimal(i)
  {
    ReadPrint(i, 10);
  }

  lemma ReadName(k: string)
    requires NameOk(k)
    ensures ReadComponent(k) == [Key(k)]
  {
    TrailingDigitsOf(k, "");
    assert k + "" == k && k[..|k|] == k;
  }

  lemma ReadIndexed(k: string, i: nat)
    requires k == "" || NameOk(k)
    ensures ReadComponent(k + Decimal(i)) == (if k == "" then [] else [Key(k)]) + [Index(i)]
  {
    DecimalChars(i);
    TrailingDigitsOf(k, Decimal(i));
    assert (k + Decimal(i))[|k|..] == Decimal(i);
    assert (k + Decimal(i))[..|k|] == k;
  }

  lemma {:induction false} NoLastDot(s: string)
    requires '.' !in s
    ensures LastDot(s) == None
  {
    if s != "" {
      NoLastDot(s[..|s| - 1]);
    }
  }

  lemma {:induction false} LastDotOf(t: string, c: string)
    requires '.' !in c
    ensures LastDot(t + "." + c) == Some(|t|)
    decreases |c|
  {
    var s := t + "." + c;
    if c != "" {
      assert s[|s| - 1] == c[|c| - 1];
      assert s[..|s| - 1] == t + "." + c[..|c| - 1];
      LastDotOf(t, c[..|c| - 1]);
    }
  }

  lemma ReadPathAppend(t: string, c: string)
    requires '.' !in c
    ensures ReadPath(t + "." + c) == ReadPath(t) + ReadComponent(c)
  {
    LastDotOf(t, c);
    assert (t + "." + c)[..|t|] == t;
    assert (t + "." + c)[|t| + 1..] == c;
  }

  /** A written path reads back as the path, and holds no equals sign. */
  lemma {:induction false} ReadPathText(path: seq<Step>)
    requires PathOk(path)
    ensures PathText(path) != "" && '=' !in PathText(path)
    ensures ReadPath(PathText(path)) == path
    decreases |path|, 0
  {
    hide ReadPath, ReadComponent, Decimal, PathText;
    var n := |path|;
    var last := path[n - 1];
    assert path == path[..n - 1] + [last];
    PathTextSnoc(path[..n - 1], last);
    match last
    case Key(k) =>
      ReadName(k);
      ReadAfter(path[..n - 1], k, [last]);
    case Index(i) =>
      DecimalChars(i);
      if n == 1 {
        ReadIndexed("", i);
        ReadAfter([], "" + Decimal(i), [last]);
        PathTextEmpty();
      } else {
        var k, front := path[n - 2].name, path[..n - 2];
        assert path[..n - 1] == front + [Key(k)];
        PathTextSnoc(front, Key(k));
        ReadIndexed(k, i);
        ReadAfter(front, k + Decimal(i), [Key(k), last]);
        assert path == front + [Key(k), last];
        MemberKeyAppend(PathText(front), k, Decimal(i));
      }
  }

  lemma PathTextEmpty()
    ensures PathText([]) == ""
  {
  }

  lemma MemberKeyAppend(key: string, k: string, digits: string)
    requires k != ""
    ensures MemberKey(key, k) + digits == MemberKey(key, k + digits)
  {
  }

  /** The induction step: one more dotted component at the end. */
  lemma {:induction false} ReadAfter(front: seq<Step>, c: string, steps: seq<Step>)
    requires front != [] ==> PathOk(front)
    requires c != "" && '.' !in c && '=' !in c && ReadComponent(c) == steps
    ensures ReadPath(MemberKey(PathText(front), c)) == front + steps
    ensures MemberKey(PathText(front), c) != "" && '=' !in MemberKey(PathText(front), c)
    decreases |front|, 1
  {
    if front == [] {
      NoLastDot(c);
      assert front + steps == steps;
    } else {
      ReadPathText(front);
      ReadPathAppend(PathText(front), c);
    }
  }

  lemma FirstEqualsOf(t: string, text: string)
    requires '=' !in t
    ensures FirstEquals(t + "=" + text) == |t|
  {
    var s := t + "=" + text;
    assert s[|t|] == '=' && forall i :: 0 <= i < |t| ==> s[i] == t[i];
  }

  /** No equals sign, or nothing before it. */
  predicate BareOk(text: string) {
    FirstEquals(text) == 0 || FirstEquals(text) == |text|
  }

  /** The leaf has a path that can be read back, or none and a text that shows no name. */
  predicate LeafOk(leaf: Leaf) {
    PathOk(leaf.path) || (leaf.path == [] && BareOk(leaf.text))
  }

  lemma ReadLeafPiece(leaf: Leaf)
    requires LeafOk(leaf)
    ensures ReadPiece(LeafPiece(leaf)) == leaf
  {
    hide ReadPath, PathText;
    var t := PathText(leaf.path);
    if leaf.path == [] {
      NoPathText();
    } else {
      ReadPathText(leaf.path);
      FirstEqualsOf(t, leaf.text);
      assert LeafPiece(leaf) == t + "=" + leaf.text;
      assert (t + "=" + leaf.text)[..|t|] == t;
      assert (t + "=" + leaf.text)[|t| + 1..] == leaf.text;
    }
  }

  lemma {:induction false} ReadLeafPieces(leaves: seq<Leaf>)
    requires forall l :: l in leaves ==> LeafOk(l)
    ensures ReadPieces(LeafPieces(leaves)) == leaves
  {
    hide LeafOk, LeafPiece, ReadPiece;
    if leaves != [] {
      var first, rest := leaves[0], leaves[1..];
      ReadLeafPiece(first);
      ReadLeafPieces(rest);
      assert LeafPieces(leaves) == [LeafPiece(first)] + LeafPieces(rest);
      assert LeafPieces(leaves)[1..] == LeafPieces(rest);
      assert leaves == [first] + rest;
    }
  }

  lemma NothingRead()
    ensures ReadPieces(LeafPieces([])) == []
  {
  }

  /** Every leaf of the tree can be read back. */
  predicate Readable(v: Value) {
    forall l :: l in Leaves([], v) ==> LeafOk(l)
  }

  /** The arguments are read as what their pieces are read as; a bare number is not quoted. */
  lemma ReadArgsPieces(v: Value)
    ensures ReadArgs(ValueArgs(v)) == Some(ReadPieces(LeafPieces(Leaves([], v))))
  {
    hide Split, LeafPieces, QuoteAll, ReadPieces;
    var leaves := Leaves([], v);
    NoPathText();
    if v.Number? {
      BareNumber(v.n);
    } else {
      PiecesAreLeaves([], v);
      LeafPiecesSize(leaves);
      NothingRead();
      if leaves != [] {
        SplitJoined(LeafPieces(leaves));
      }
    }
  }

  /** The whole way: encoding, quoting, joining; splitting, unquoting, reading. It ends where it
      began exactly for the readable trees. */
  lemma ReadValueArgs(v: Value)
    ensures ReadArgs(ValueArgs(v)) == Some(Leaves([], v)) <==> Readable(v)
  {
    hide LeafOk;
    var leaves := Leaves([], v);
    ReadArgsPieces(v);
    if Readable(v) {
      ReadLeafPieces(leaves);
    } else if ReadPieces(LeafPieces(leaves)) == leaves {
      AllReadBackOk(leaves);
    }
  }

  // ----- No other tree comes back -----

  function Keys(path: seq<Step>): nat {
    if path == [] then 0 else Keys(path[..|path| - 1]) + if path[|path| - 1].Key? then 1 else 0
  }

  function Dots(s: string): nat {
    if s == "" then 0 else Dots(s[..|s| - 1]) + if s[|s| - 1] == '.' then 1 else 0
  }

  predicate GoodNames(path: seq<Step>) {
    forall i :: 0 <= i < |path| && path[i].Key? ==> NameOk(path[i].name)
  }

  predicate Spaced(path: seq<Step>) {
    forall i :: 0 < i < |path| && path[i].Index? ==> path[i - 1].Key?
  }

  lemma {:induction false} LastDotCut(s: string)
    ensures LastDot(s).None? ==> '.' !in s && Dots(s) == 0
    ensures LastDot(s).Some? ==> var d := LastDot(s).value;
                                 s[d] == '.' && '.' !in s[d + 1..] && Dots(s) == Dots(s[..d]) + 1
  {
    if s != "" && s[|s| - 1] != '.' {
      var front := s[..|s| - 1];
      LastDotCut(front);
      assert s == front + [s[|s| - 1]];
      if LastDot(front).Some? {
        var d := LastDot(front).value;
        assert s[d + 1..] == front[d + 1..] + [s[|s| - 1]] && s[..d] == front[..d];
      }
    }
  }

  /** A component gives a good name, an index, or both in this order. */
  lemma ComponentSteps(c: string)
    requires '.' !in c && '=' !in c
    ensures var p := ReadComponent(c);
            && GoodNames(p) && Spaced(p) && Keys(p) <= 1
            && (Keys(p) == 1 <==> p != [] && p[0].Key?)
  {
    var n := TrailingDigits(c);
    NotADigit(c);
    assert Keys([]) == 0;
    var p := ReadComponent(c);
    if n < |c| {
      var k := c[..|c| - n];
      assert k[|k| - 1] == c[|c| - n - 1];
      if n > 0 {
        assert p[..1] == [Key(k)] && p[..1][..0] == [];
      } else {
        assert p[..0] == [];
      }
    } else if n > 0 {
      assert p[..0] == [];
    }
  }

  lemma {:induction false} NotADigit(c: string)
    ensures TrailingDigits(c) < |c| ==> !IsDigit(c[|c| - TrailingDigits(c) - 1], 10)
  {
    if c != "" && IsDigit(c[|c| - 1], 10) {
      NotADigit(c[..|c| - 1]);
    }
  }

  lemma {:induction false} KeysConcat(a: seq<Step>, b: seq<Step>)
    ensures Keys(a + b) == Keys(a) + Keys(b)
  {
    if b == [] {
      assert a + b == a;
    } else {
      KeysConcat(a, b[..|b| - 1]);
      assert (a + b)[..|a + b| - 1] == a + b[..|b| - 1];
    }
  }

  /** What is read has good names, at most one in each component; and if all components, or all
      but an index at the start, have one, no index follows an index. */
  lemma {:induction false} ReadSteps(s: string)
    requires '=' !in s
    ensures var p := ReadPath(s);
            && GoodNames(p) && Keys(p) <= Dots(s) + 1
            && (Keys(p) == Dots(s) + 1 ==> Spaced(p) && p != [] && p[0].Key?)
            && (Keys(p) == Dots(s) && p != [] && p[0].Index? ==> Spaced(p))
    decreases |s|
  {
    hide ReadComponent, NameOk;
    LastDotCut(s);
    match LastDot(s) {
      case None =>
        ComponentSteps(s);
      case Some(d) =>
        ReadSteps(s[..d]);
        ComponentSteps(s[d + 1..]);
        KeysConcat(ReadPath(s[..d]), ReadComponent(s[d + 1..]));
        Joined(ReadPath(s[..d]), ReadComponent(s[d + 1..]));
        assert Keys([]) == 0;
    }
  }

  lemma Joined(p: seq<Step>, c: seq<Step>)
    requires GoodNames(p) && GoodNames(c)
    ensures GoodNames(p + c)
    ensures Spaced(p) && Spaced(c) && (c != [] ==> c[0].Key?) ==> Spaced(p + c)
  {
    hide NameOk;
  }

  lemma {:induction false} DotsConcat(a: string, b: string)
    ensures Dots(a + b) == Dots(a) + Dots(b)
  {
    if b == "" {
      assert a + b == a;
    } else {
      DotsConcat(a, b[..|b| - 1]);
      assert (a + b)[..|a + b| - 1] == a + b[..|b| - 1];
    }
  }

  lemma {:induction false} NoDots(s: string)
    requires '.' !in s
    ensures Dots(s) == 0
  {
    if s != "" {
      NoDots(s[..|s| - 1]);
    }
  }

  /** A path is written with one dot before each name that is not at its start. */
  lemma {:induction false} WrittenDots(path: seq<Step>)
    requires GoodNames(path)
    ensures path != [] ==> PathText(path) != ""
    ensures Dots(PathText(path)) == Keys(path) - if path != [] && path[0].Key? then 1 else 0
    decreases |path|
  {
    hide GoodNames, PathText, Keys, Dots;
    NoPathText();
    if path != [] {
      GoodFront(path);
      WrittenDots(path[..|path| - 1]);
      LastStep(path);
    }
  }

  lemma GoodFront(path: seq<Step>)
    requires path != [] && GoodNames(path)
    ensures GoodNames(path[..|path| - 1])
  {
    hide NameOk;
  }

  /** What the last step adds to the text and to the counts. */
  lemma LastStep(path: seq<Step>)
    requires path != [] && GoodNames(path)
    ensures var front, key := path[..|path| - 1], path[|path| - 1].Key?;
            && PathText(path) != ""
            && Dots(PathText(path)) == Dots(PathText(front)) + (if key && PathText(front) != "" then 1 else 0)
            && Keys(path) == Keys(front) + (if key then 1 else 0)
  {
    hide NameOk, Decimal, Dots;
    var front, last := path[..|path| - 1], path[|path| - 1];
    StepDots(PathText(front), last);
  }

  lemma NoPathText()
    ensures PathText([]) == "" && Dots("") == 0 && Keys([]) == 0
  {
  }

  lemma StepDots(front: string, step: Step)
    requires step.Key? ==> NameOk(step.name)
    ensures StepText(front, step) != ""
    ensures Dots(StepText(front, step)) == Dots(front) + if step.Key? && front != "" then 1 else 0
  {
    match step
    case Key(k) =>
      NoDots(k);
      assert Dots(".") == 1;
      DotsConcat(front + ".", k);
      DotsConcat(front, ".");
    case Index(i) =>
      DecimalChars(i);
      NoDots(Decimal(i));
      DotsConcat(front, Decimal(i));
  }

  /** A piece that is read as the leaf it was written for has a readable path, or none. */
  lemma ReadBackOk(leaf: Leaf)
    requires ReadPiece(LeafPiece(leaf)) == leaf
    ensures LeafOk(leaf)
  {
    var s, t := LeafPiece(leaf), PathText(leaf.path);
    var e := FirstEquals(s);
    NoPathText();
    if 0 < e < |s| {
      assert leaf.path == ReadPath(s[..e]) && leaf.text == s[e + 1..];
      assert t != "" ==> |s| == |t| + 1 + |leaf.text|;
      assert |s| == e + 1 + |leaf.text|;
      if leaf.path != [] {
        ReadSteps(s[..e]);
        WrittenDots(leaf.path);
        assert s == t + "=" + leaf.text;
        assert s[..e] == t;
      }
    }
  }

  lemma {:induction false} AllReadBackOk(leaves: seq<Leaf>)
    requires ReadPieces(LeafPieces(leaves)) == leaves
    ensures forall l :: l in leaves ==> LeafOk(l)
  {
    if leaves != [] {
      hide ReadPiece, LeafPiece, LeafOk;
      assert LeafPieces(leaves)[1..] == LeafPieces(leaves[1..]);
      assert leaves == [leaves[0]] + leaves[1..];
      ReadBackOk(leaves[0]);
      AllReadBackOk(leaves[1..]);
    }
  }

  lemma {:induction false} LeafPiecesSize(leaves: seq<Leaf>)
    ensures LeafPieces(leaves) == [] <==> leaves == []
    ensures QuoteAll(LeafPieces(leaves)) == [] <==> leaves == []
  {
  }

  /** A bare number has nothing to unquote and no equals sign, so it is read as a text. */
  lemma BareNumber(n: int)
    ensures ReadArgs([NumberText(n)]) == Some(ReadPieces(LeafPieces([Leaf([], NumberText(n))])))
  {
    hide ReadPieces;
    var s := NumberText(n);
    DecimalPlain(if n < 0 then -n else n);
    forall c | c in s ensures c !in SPECIAL {
      if c != '-' {
        assert c in Decimal(if n < 0 then -n else n);
      }
    }
    SplitUnquoted(s, "");
    assert "" + s == s;
    NoPathText();
    assert LeafPieces([Leaf([], s)]) == [s];
  }

  const SPECIAL := "'\",\\"

  lemma DecimalPlain(n: nat)
    ensures forall c :: c in Decimal(n) ==> c !in SPECIAL
  {
    var s := Decimal(n);
    PrintChars(n, 10);
    forall c | c in s ensures c !in SPECIAL {
      var i :| 0 <= i < |s| && s[i] == c;
      assert c in DIGITS[..10];
    }
  }

  lemma {:induction false} SplitUnquoted(s: string, word: string)
    requires forall c :: c in s ==> c !in SPECIAL
    ensures Split(s, Plain, word) == Some([word + s])
    decreases |s|
  {
    if s == "" {
      assert word + s == word;
    } else {
      assert s[0] in s;
      SplitUnquoted(s[1..], word + [s[0]]);
      assert word + [s[0]] + s[1..] == word + s;
    }
  }

  // ----- The leaves say what the tree holds -----

  ghost predicate InLeaves(leaves: seq<Leaf>, base: seq<Step>, path: seq<Step>, text: string) {
    Leaf(base + path, text) in leaves
  }

  /** (path, text) is among the leaves below base exactly when the tree has that text there. */
  lemma {:induction false} LeavesExact(base: seq<Step>, v: Value, path: seq<Step>, text: string)
    ensures InLeaves(Leaves(base, v), base, path, text) <==> HasLeaf(v, path, text)
    decreases v, 1
  {
    match v
    case Absent =>
    case Array(items) => ItemLeavesExact(base, items, 0, path, text);
    case Object(entries) => EntryLeavesExact(base, entries, path, text);
    case _ =>
      if base + path == base {
        assert |path| == 0;
      }
      if path == [] {
        assert base + path == base;
      }
  }

  /** All leaves below a base start with it. */
  lemma {:induction false} LeavesBelow(base: seq<Step>, v: Value, l: Leaf)
    requires l in Leaves(base, v)
    ensures base <= l.path
    decreases v, 1
  {
    match v
    case Array(items) => ItemLeavesBelow(base, items, 0, l);
    case Object(entries) => EntryLeavesBelow(base, entries, l);
    case _ =>
  }

  lemma {:induction false} ItemLeavesBelow(base: seq<Step>, items: seq<Value>, i: nat, l: Leaf)
    requires l in ItemLeaves(base, items, i)
    ensures base < l.path && l.path[|base|].Index? && l.path[|base|].i >= i
    decreases items, 0
  {
    if l in Leaves(base + [Index(i)], items[0]) {
      LeavesBelow(base + [Index(i)], items[0], l);
      assert (base + [Index(i)])[|base|] == l.path[|base|];
    } else {
      ItemLeavesBelow(base, items[1..], i + 1, l);
    }
  }

  lemma {:induction false} EntryLeavesBelow(base: seq<Step>, entries: seq<Entry>, l: Leaf)
    requires l in EntryLeaves(base, entries)
    ensures base <= l.path
    decreases entries, 0
  {
    var e := entries[0];
    if l in Leaves(MemberPath(base, e.key), e.value) {
      LeavesBelow(MemberPath(base, e.key), e.value, l);
    } else {
      EntryLeavesBelow(base, entries[1..], l);
    }
  }

  lemma FirstStep(base: seq<Step>, step: Step, path: seq<Step>)
    requires base + [step] <= base + path
    ensures path != [] && path[0] == step
  {
    assert (base + [step])[|base|] == (base + path)[|base|];
  }

  lemma {:induction false} ItemLeavesExact(base: seq<Step>, items: seq<Value>, i: nat, path: seq<Step>, text: string)
    ensures InLeaves(ItemLeaves(base, items, i), base, path, text)
       <==> path != [] && path[0].Index? && i <= path[0].i < i + |items| && HasLeaf(items[path[0].i - i], path[1..], text)
    decreases items, 0
  {
    var l := Leaf(base + path, text);
    if items != [] {
      var inner := base + [Index(i)];
      ItemLeavesExact(base, items[1..], i + 1, path, text);
      if path != [] && path[0] == Index(i) {
        LeavesExact(inner, items[0], path[1..], text);
        assert inner + path[1..] == base + path;
      } else if l in Leaves(inner, items[0]) {
        LeavesBelow(inner, items[0], l);
        FirstStep(base, Index(i), path);
      }
    }
  }

  lemma {:induction false} EntryLeavesExact(base: seq<Step>, entries: seq<Entry>, path: seq<Step>, text: string)
    ensures InLeaves(EntryLeaves(base, entries), base, path, text)
       <==> exists e :: e in entries && EntryHasLeaf(e, path, text)
    decreases entries, 0
  {
    var l := Leaf(base + path, text);
    if entries != [] {
      var e := entries[0];
      assert entries == [e] + entries[1..];
      EntryLeavesExact(base, entries[1..], path, text);
      MemberLeavesExact(base, e, path, text);
    }
  }

  lemma {:induction false} MemberLeavesExact(base: seq<Step>, e: Entry, path: seq<Step>, text: string)
    ensures Leaf(base + path, text) in Leaves(MemberPath(base, e.key), e.value) <==> EntryHasLeaf(e, path, text)
    decreases e
  {
    var l := Leaf(base + path, text);
    var inner := MemberPath(base, e.key);
    if e.key == "" {
      LeavesExact(base, e.value, path, text);
    } else if path != [] && path[0] == Key(e.key) {
      LeavesExact(inner, e.value, path[1..], text);
      assert inner + path[1..] == base + path;
    } else if l in Leaves(inner, e.value) {
      LeavesBelow(inner, e.value, l);
      FirstStep(base, Key(e.key), path);
    }
  }

  /** Two readable trees with the same arguments hold the same texts at the same paths: they
      differ at most in dropped values, empty containers and the order of members. */
  lemma SameArgsSameTree(v: Value, w: Value, path: seq<Step>, text: string)
    requires Readable(v) && Readable(w) && ValueArgs(v) == ValueArgs(w)
    ensures HasLeaf(v, path, text) <==> HasLeaf(w, path, text)
  {
    ReadValueArgs(v);
    ReadValueArgs(w);
    LeavesExact([], v, path, text);
    LeavesExact([], w, path, text);
  }

  // ----- Where reading back is impossible -----

  ghost predicate LikeMember(t: string, k: string, x: string) {
    k != "" && '=' !in k && ValueArgs(Text(t)) == ValueArgs(Object([Entry(k, Text(x))]))
  }

  /** A bare text is written like a text with a name exactly if it is not read back. */
  lemma BareTextAmbiguous(t: string)
    ensures (exists k, x :: LikeMember(t, k, x)) <==> !Readable(Text(t))
  {
    var e := FirstEquals(t);
    BareReadable(t);
    if !BareOk(t) {
      var k, x := t[..e], t[e + 1..];
      assert t == k + "=" + x;
      MemberArgs(k, x);
      assert LikeMember(t, k, x);
    }
    forall k, x | LikeMember(t, k, x) ensures !BareOk(t) {
      MemberArgs(k, x);
      BareArgs(t);
      BareArgs(k + "=" + x);
      FirstEqualsOf(k, x);
    }
  }

  lemma BareReadable(t: string)
    ensures Readable(Text(t)) <==> BareOk(t)
  {
    var l := Leaf([], t);
    assert Leaves([], Text(t)) == [l] && l in [l];
  }

  lemma MemberArgs(k: string, x: string)
    requires k != ""
    ensures ValueArgs(Object([Entry(k, Text(x))])) == ValueArgs(Text(k + "=" + x))
  {
    assert PieceText("", k + "=" + x) == PieceText(k, x);
    OneEntry(k, Text(x));
  }

  lemma BareArgs(t: string)
    ensures ValueArgs(Text(t)) == [Quote(t)] && Split(Quote(t), Plain, "") == Some([t])
  {
    SplitJoined([t]);
    assert PieceText("", t) == t;
    assert QuoteAll([t]) == [Quote(t)];
  }

  /** A name that ends in a number is written like an array below the shorter name, whatever it
      names: a value, or an array in an array. */
  lemma NumberedNameAmbiguous(k: string, dropped: seq<Value>, v: Value)
    requires k != "" && forall d :: d in dropped ==> d.Absent?
    ensures ValueArgs(Object([Entry(k, Array(dropped + [v]))])) == ValueArgs(Object([Entry(k + Decimal(|dropped|), v)]))
  {
    LastItem(k, dropped + [v], v);
    OneEntry(k, Array(dropped + [v]));
    OneEntry(k + Decimal(|dropped|), v);
  }

  /** A name with a dot between two names is written like an object below the first. */
  lemma DottedNameAmbiguous(j: string, k: string, v: Value)
    requires j != "" && k != ""
    ensures ValueArgs(Object([Entry(j, Object([Entry(k, v)]))])) == ValueArgs(Object([Entry(j + "." + k, v)]))
  {
    OneEntry(j, Object([Entry(k, v)]));
    OneEntry(j + "." + k, v);
    assert [Entry(k, v)][1..] == [];
    assert EntryPieces(j, [Entry(k, v)]) == Pieces(j + "." + k, v) + [];
  }

  /** A name with an equals sign is written like the name before it, with a longer text. */
  lemma EqualsNameAmbiguous(k: string, rest: string, x: string)
    requires k != ""
    ensures ValueArgs(Object([Entry(k + "=" + rest, Text(x))])) == ValueArgs(Object([Entry(k, Text(rest + "=" + x))]))
  {
    MemberArgs(k + "=" + rest, x);
    MemberArgs(k, rest + "=" + x);
    assert k + "=" + rest + "=" + x == k + "=" + (rest + "=" + x);
  }

  /** An array in an array loses the boundary between its indices: port[1][0] and port[10]
      are written the same. */
  lemma NestedArraysAmbiguous(x: string)
    ensures var nested := Array([Absent, Array([Text(x)])]);
            var flat := Array([Absent, Absent, Absent, Absent, Absent, Absent, Absent, Absent, Absent, Absent, Text(x)]);
            && ValueArgs(Object([Entry("port", nested)])) == ValueArgs(Object([Entry("port", flat)]))
            && HasLeaf(flat, [Index(10)], x) && !HasLeaf(nested, [Index(10)], x)
  {
    var inner := Array([Text(x)]);
    var nestedItems := [Absent, inner];
    var flatItems := [Absent, Absent, Absent, Absent, Absent, Absent, Absent, Absent, Absent, Absent, Text(x)];
    TenWritten();
    LastItem("port", nestedItems, inner);
    LastItem("port1", [Text(x)], Text(x));
    LastItem("port", flatItems, Text(x));
    OneEntry("port", Array(nestedItems));
    OneEntry("port", Array(flatItems));
    ItemAt(flatItems, 10, x);
  }

  lemma TenWritten()
    ensures "port" + Decimal(1) == "port1" && "port1" + Decimal(0) == "port" + Decimal(10)
  {
    assert Print(10, 10) == Print(1, 10) + [DIGITS[0]];
  }

  lemma ItemAt(items: seq<Value>, i: nat, x: string)
    requires i < |items| && items[i] == Text(x)
    ensures HasLeaf(Array(items), [Index(i)], x)
  {
    assert [Index(i)][1..] == [] && HasLeaf(items[i], [], x);
  }

  /** An array of dropped values with one last value has the pieces of that value. */
  lemma LastItem(key: string, items: seq<Value>, v: Value)
    requires items != [] && items[|items| - 1] == v && forall j :: 0 <= j < |items| - 1 ==> items[j].Absent?
    ensures Pieces(key, Array(items)) == Pieces(key + Decimal(|items| - 1), v)
  {
    var n := |items| - 1;
    SkipAbsent(key, items, 0, n);
    assert items[n..] == [v] && [v][1..] == [];
    assert ItemPieces(key, [v], n) == Pieces(key + Decimal(n), v) + ItemPieces(key, [v][1..], n + 1);
  }

  lemma {:induction false} SkipAbsent(key: string, items: seq<Value>, i: nat, n: nat)
    requires n <= |items| && forall j :: 0 <= j < n ==> items[j].Absent?
    ensures ItemPieces(key, items, i) == ItemPieces(key, items[n..], i + n)
  {
    if n == 0 {
      assert items[0..] == items;
    } else {
      SkipAbsent(key, items[1..], i + 1, n - 1);
      assert items[1..][n - 1..] == items[n..];
      assert ItemPieces(key, items, i) == [] + ItemPieces(key, items[1..], i + 1);
    }
  }
}
