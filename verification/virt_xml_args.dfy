/**
 * The arguments built for virt-xml: a value tree flattened into dotted paths, shell-quoted
 * and joined with commas; and the reader that undoes each of these steps.
 */
module VirtXmlArgs {
  import opened Options
  import opened Numerals

  // ----- Quoting -----

  /** `str.replaceAll("'", "'\"'\"'")` */
  function EscapeQuotes(s: string): string {
    if s == "" then ""
    else (if s[0] == '\'' then "'\"'\"'" else [s[0]]) + EscapeQuotes(s[1..])
  }

  /** shlex_quote */
  function Quote(s: string): string {
    "'" + EscapeQuotes(s) + "'"
  }

  /** `pieces.join(",")` */
  function JoinCommas(pieces: seq<string>): string {
    if pieces == [] then ""
    else if |pieces| == 1 then pieces[0]
    else pieces[0] + "," + JoinCommas(pieces[1..])
  }

  /** The quoting states of the Shell Command Language, sections 2.2.2 and 2.2.3 of
      IEEE Std 1003.1-2017. */
  datatype Mode = Plain | SingleQuoted | DoubleQuoted

  /** Splits at unquoted commas and removes the quotes; None if a quote is left open.
      word is what has been read of the current piece. */
  function Split(s: string, mode: Mode, word: string): Option<seq<string>>
    decreases |s|
  {
    if s == "" then
      if mode.Plain? then Some([word]) else None
    else
      var c, rest := s[0], s[1..];
      match mode
      case SingleQuoted =>
        if c == '\'' then Split(rest, Plain, word) else Split(rest, SingleQuoted, word + [c])
      case DoubleQuoted =>
        if c == '"' then Split(rest, Plain, word)
        else if c == '\\' && rest != "" && rest[0] in "$`\"\\" then Split(rest[1..], DoubleQuoted, word + [rest[0]])
        else if c == '\\' && rest != "" && rest[0] == '\n' then Split(rest[1..], DoubleQuoted, word)
        else Split(rest, DoubleQuoted, word + [c])
      case Plain =>
        if c == '\'' then Split(rest, SingleQuoted, word)
        else if c == '"' then Split(rest, DoubleQuoted, word)
        else if c == '\\' then
          if rest == "" then None else Split(rest[1..], Plain, word + [rest[0]])
        else if c == ',' then
          match Split(rest, Plain, "")
          case Some(words) => Some([word] + words)
          case None => None
        else Split(rest, Plain, word + [c])
  }

  lemma SplitEscaped(rest: string, word: string)
    ensures Split("'\"'\"'" + rest, SingleQuoted, word) == Split(rest, SingleQuoted, word + "'")
  {
    assert ("'\"'\"'" + rest)[1..] == "\"'\"'" + rest;
    assert ("\"'\"'" + rest)[1..] == "'\"'" + rest;
    assert ("'\"'" + rest)[1..] == "\"'" + rest;
    assert ("\"'" + rest)[1..] == "'" + rest;
    assert ("'" + rest)[1..] == rest;
    assert Split("'\"'\"'" + rest, SingleQuoted, word) == Split("\"'\"'" + rest, Plain, word);
    assert Split("\"'\"'" + rest, Plain, word) == Split("'\"'" + rest, DoubleQuoted, word);
    assert Split("'\"'" + rest, DoubleQuoted, word) == Split("\"'" + rest, DoubleQuoted, word + "'");
    assert Split("\"'" + rest, DoubleQuoted, word + "'") == Split("'" + rest, Plain, word + "'");
  }

  lemma SplitLiteral(c: char, rest: string, word: string)
    requires c != '\''
    ensures Split([c] + rest, SingleQuoted, word) == Split(rest, SingleQuoted, word + [c])
  {
    assert ([c] + rest)[1..] == rest;
  }

  lemma SplitClosed(rest: string, word: string)
    ensures Split("'" + rest, SingleQuoted, word) == Split(rest, Plain, word)
  {
    assert ("'" + rest)[1..] == rest;
  }

  lemma {:induction false} SplitInQuotes(s: string, rest: string, word: string)
    ensures Split(EscapeQuotes(s) + "'" + rest, SingleQuoted, word) == Split(rest, Plain, word + s)
    decreases |s|
  {
    hide Split;
    if s == "" {
      assert EscapeQuotes(s) + "'" + rest == "'" + rest;
      SplitClosed(rest, word);
      assert word + s == word;
    } else {
      var tail := EscapeQuotes(s[1..]) + "'" + rest;
      if s[0] == '\'' {
        assert EscapeQuotes(s) + "'" + rest == "'\"'\"'" + tail;
        SplitEscaped(tail, word);
      } else {
        assert EscapeQuotes(s) + "'" + rest == [s[0]] + tail;
        SplitLiteral(s[0], tail, word);
      }
      SplitInQuotes(s[1..], rest, word + [s[0]]);
      assert word + [s[0]] + s[1..] == word + s;
    }
  }

  /** A quoted string is read back whole, whatever it contains. */
  lemma SplitQuoted(s: string, rest: string, word: string)
    ensures Split(Quote(s) + rest, Plain, word) == Split(rest, Plain, word + s)
  {
    var inner := EscapeQuotes(s) + "'" + rest;
    assert Quote(s) + rest == "'" + inner;
    assert ("'" + inner)[1..] == inner;
    SplitInQuotes(s, rest, word);
  }

  function QuoteAll(words: seq<string>): seq<string> {
    if words == [] then [] else [Quote(words[0])] + QuoteAll(words[1..])
  }

  /** Quoting, joining and splitting again gives back exactly the list. */
  lemma {:induction false} SplitJoined(words: seq<string>)
    requires words != []
    ensures Split(JoinCommas(QuoteAll(words)), Plain, "") == Some(words)
  {
    var first, rest := words[0], words[1..];
    assert "" + first == first;
    if rest == [] {
      assert Quote(first) + "" == Quote(first);
      SplitQuoted(first, "", "");
      assert words == [first];
    } else {
      var tail := JoinCommas(QuoteAll(rest));
      assert QuoteAll(words)[1..] == QuoteAll(rest);
      assert JoinCommas(QuoteAll(words)) == Quote(first) + ("," + tail);
      SplitQuoted(first, "," + tail, "");
      assert ("," + tail)[1..] == tail;
      SplitJoined(rest);
      assert words == [first] + rest;
    }
  }

  // ----- Value trees -----

  datatype Entry = Entry(key: string, value: Value)

  /** The JavaScript values accepted. Absent is null, undefined and false; the entries of an
      object are in the order in which they are enumerated. */
  datatype Value =
    | Absent
    | Text(text: string)
    | Number(n: int)
    | True
    | Array(items: seq<Value>)
    | Object(entries: seq<Entry>)
  {
    predicate IsLeaf() {
      Text? || Number? || True?
    }

    function LeafText(): string
      requires IsLeaf()
    {
      match this
      case Text(t) => t
      case Number(n) => NumberText(n)
      case True => "yes"
    }
  }

  function NumberText(n: int): string {
    if n < 0 then "-" + Decimal(-n) else Decimal(n)
  }

  /** A number is written with its digits, behind a minus sign if it is negative. */
  lemma NumberWritten(n: int)
    ensures n >= 0 ==> ToNumber(NumberText(n)) == Some(n as nat)
    ensures n < 0 ==> NumberText(n) != "" && NumberText(n)[0] == '-' && ToNumber(NumberText(n)[1..]) == Some(-n)
  {
    ToNumberDecimal(if n < 0 then -n else n);
    if n < 0 {
      assert ("-" + Decimal(-n))[1..] == Decimal(-n);
    }
  }

  function MemberKey(key: string, k: string): string {
    if key != "" && k != "" then key + "." + k else if key != "" then key else k
  }

  function PieceText(key: string, text: string): string {
    (if key != "" then key + "=" else "") + text
  }

  /** What encode_into appends to the arguments. */
  function Pieces(key: string, v: Value): seq<string>
    decreases v, 1
  {
    match v
    case Absent => []
    case Array(items) => ItemPieces(key, items, 0)
    case Object(entries) => EntryPieces(key, entries)
    case _ => [Quote(PieceText(key, v.LeafText()))]
  }

  function ItemPieces(key: string, items: seq<Value>, i: nat): seq<string>
    decreases items, 0
  {
    if items == [] then [] else Pieces(key + Decimal(i), items[0]) + ItemPieces(key, items[1..], i + 1)
  }

  function EntryPieces(key: string, entries: seq<Entry>): seq<string>
    decreases entries, 0
  {
    if entries == [] then []
    else Pieces(MemberKey(key, entries[0].key), entries[0].value) + EntryPieces(key, entries[1..])
  }

  class Args {
    var items: seq<string>

    constructor ()
      ensures items == []
    {
      items := [];
    }

    method Push(s: string)
      modifies this
      ensures items == old(items) + [s]
    {
      items := items + [s];
    }
  }

  method EncodeInto(args: Args, key: string, val: Value)
    modifies args
    ensures args.items == old(args.items) + Pieces(key, val)
    decreases val
  {
    hide Pieces, ItemPieces, EntryPieces, Quote, Decimal, MemberKey, PieceText;
    PiecesCases(key, val);
    if val.IsLeaf() {
      args.Push(Quote(PieceText(key, val.LeafText())));
    } else if val.Array? {
      var i := 0;
      assert val.items[0..] == val.items;
      while i < |val.items|
        invariant 0 <= i <= |val.items|
        invariant args.items + ItemPieces(key, val.items[i..], i) == old(args.items) + Pieces(key, val)
      {
        ItemStep(key, val.items, i);
        EncodeInto(args, key + Decimal(i), val.items[i]);
        i := i + 1;
      }
      ItemEnd(key, val.items[i..], i);
    } else if val.Object? {
      var i := 0;
      assert val.entries[0..] == val.entries;
      while i < |val.entries|
        invariant 0 <= i <= |val.entries|
        invariant args.items + EntryPieces(key, val.entries[i..]) == old(args.items) + Pieces(key, val)
      {
        EntryStep(key, val.entries, i);
        EncodeInto(args, MemberKey(key, val.entries[i].key), val.entries[i].value);
        i := i + 1;
      }
      EntryEnd(key, val.entries[i..]);
    }
  }

  lemma PiecesCases(key: string, v: Value)
    ensures v.IsLeaf() ==> Pieces(key, v) == [Quote(PieceText(key, v.LeafText()))]
    ensures v.Absent? ==> Pieces(key, v) == []
    ensures v.Array? ==> Pieces(key, v) == ItemPieces(key, v.items, 0)
    ensures v.Object? ==> Pieces(key, v) == EntryPieces(key, v.entries)
  {
  }

  lemma ItemStep(key: string, items: seq<Value>, i: nat)
    requires i < |items|
    ensures ItemPieces(key, items[i..], i) == Pieces(key + Decimal(i), items[i]) + ItemPieces(key, items[i + 1..], i + 1)
  {
    assert items[i..][1..] == items[i + 1..];
  }

  lemma ItemEnd(key: string, items: seq<Value>, i: nat)
    requires items == []
    ensures ItemPieces(key, items, i) == []
  {
  }

  lemma EntryStep(key: string, entries: seq<Entry>, i: nat)
    requires i < |entries|
    ensures EntryPieces(key, entries[i..])
         == Pieces(MemberKey(key, entries[i].key), entries[i].value) + EntryPieces(key, entries[i + 1..])
  {
    assert entries[i..][1..] == entries[i + 1..];
  }

  lemma EntryEnd(key: string, entries: seq<Entry>)
    requires entries == []
    ensures EntryPieces(key, entries) == []
  {
  }

  /** The arguments for one value: a bare number unquoted, and nothing if all was dropped. */
  function ValueArgs(val: Value): seq<string> {
    if val.Number? then [NumberText(val.n)]
    else if Pieces("", val) == [] then []
    else [JoinCommas(Pieces("", val))]
  }

  method AddValues(args: Args, val: Value)
    modifies args
    ensures args.items == old(args.items) + ValueArgs(val)
  {
    if val.Number? {
      args.Push(NumberText(val.n));
    } else {
      var a := new Args();
      EncodeInto(a, "", val);
      assert a.items == Pieces("", val);
      if |a.items| > 0 {
        args.Push(JoinCommas(a.items));
      } else {
        assert args.items == args.items + [];
      }
    }
  }

  /** A text is written as it is and true as "yes", behind the name; absent values are not written. */
  lemma MemberWritten(k: string, t: string)
    requires k != ""
    ensures ValueArgs(Object([Entry(k, Text(t))])) == [Quote(k + "=" + t)]
    ensures ValueArgs(Object([Entry(k, True)])) == [Quote(k + "=" + "yes")]
    ensures ValueArgs(Object([Entry(k, Absent)])) == []
  {
    assert forall v :: [Entry(k, v)][1..] == [];
    OneEntry(k, Text(t));
    OneEntry(k, True);
    OneEntry(k, Absent);
  }

  lemma OneEntry(k: string, v: Value)
    requires k != ""
    ensures Pieces("", Object([Entry(k, v)])) == Pieces(k, v)
  {
    assert [Entry(k, v)][1..] == [];
    assert EntryPieces("", [Entry(k, v)]) == Pieces(k, v) + [];
  }

  // ----- What the pieces mean -----

  datatype Step = Key(name: string) | Index(i: nat)
  datatype Leaf = Leaf(path: seq<Step>, text: string)

  /** The leaf with this text is found in v by following the path; an empty name is no step. */
  ghost predicate HasLeaf(v: Value, path: seq<Step>, text: string)
    decreases v
  {
    match v
    case Absent => false
    case Array(items) =>
      path != [] && path[0].Index? && path[0].i < |items| && HasLeaf(items[path[0].i], path[1..], text)
    case Object(entries) =>
      exists e :: e in entries && EntryHasLeaf(e, path, text)
    case _ => path == [] && text == v.LeafText()
  }

  ghost predicate EntryHasLeaf(e: Entry, path: seq<Step>, text: string)
    decreases e
  {
    if e.key == "" then HasLeaf(e.value, path, text)
    else path != [] && path[0] == Key(e.key) && HasLeaf(e.value, path[1..], text)
  }

  /** The leaves of a tree, depth first, below a path. */
  function Leaves(path: seq<Step>, v: Value): seq<Leaf>
    decreases v, 1
  {
    match v
    case Absent => []
    case Array(items) => ItemLeaves(path, items, 0)
    case Object(entries) => EntryLeaves(path, entries)
    case _ => [Leaf(path, v.LeafText())]
  }

  function ItemLeaves(path: seq<Step>, items: seq<Value>, i: nat): seq<Leaf>
    decreases items, 0
  {
    if items == [] then [] else Leaves(path + [Index(i)], items[0]) + ItemLeaves(path, items[1..], i + 1)
  }

  function MemberPath(path: seq<Step>, k: string): seq<Step> {
    if k == "" then path else path + [Key(k)]
  }

  function EntryLeaves(path: seq<Step>, entries: seq<Entry>): seq<Leaf>
    decreases entries, 0
  {
    if entries == [] then []
    else Leaves(MemberPath(path, entries[0].key), entries[0].value) + EntryLeaves(path, entries[1..])
  }

  function StepText(front: string, step: Step): string {
    match step
    case Key(k) => MemberKey(front, k)
    case Index(i) => front + Decimal(i)
  }

  /** How a path is written: names after dots, indices right behind. */
  function PathText(path: seq<Step>): string {
    if path == [] then "" else StepText(PathText(path[..|path| - 1]), path[|path| - 1])
  }

  function LeafPiece(leaf: Leaf): string {
    PieceText(PathText(leaf.path), leaf.text)
  }

  function LeafPieces(leaves: seq<Leaf>): seq<string> {
    if leaves == [] then [] else [LeafPiece(leaves[0])] + LeafPieces(leaves[1..])
  }

  lemma {:induction false} LeafPiecesConcat(a: seq<Leaf>, b: seq<Leaf>)
    ensures QuoteAll(LeafPieces(a + b)) == QuoteAll(LeafPieces(a)) + QuoteAll(LeafPieces(b))
  {
    hide LeafPiece, Quote;
    if a == [] {
      assert a + b == b;
    } else {
      LeafPiecesConcat(a[1..], b);
      assert a + b == [a[0]] + (a[1..] + b);
      QuoteCons(a[0], a[1..]);
      QuoteCons(a[0], a[1..] + b);
      assert a == [a[0]] + a[1..];
    }
  }

  lemma QuoteCons(leaf: Leaf, rest: seq<Leaf>)
    ensures QuoteAll(LeafPieces([leaf] + rest)) == [Quote(LeafPiece(leaf))] + QuoteAll(LeafPieces(rest))
  {
    assert ([leaf] + rest)[1..] == rest;
    assert LeafPieces([leaf] + rest)[1..] == LeafPieces(rest);
  }

  lemma PathTextSnoc(path: seq<Step>, step: Step)
    ensures PathText(path + [step]) == StepText(PathText(path), step)
  {
    assert (path + [step])[..|path|] == path;
  }

  /** The pieces are exactly the leaves, one each and in depth-first order, under their paths. */
  lemma {:induction false} PiecesAreLeaves(path: seq<Step>, v: Value)
    ensures Pieces(PathText(path), v) == QuoteAll(LeafPieces(Leaves(path, v)))
    decreases v, 1
  {
    match v
    case Absent =>
    case Array(items) => ItemPiecesAreLeaves(path, items, 0);
    case Object(entries) => EntryPiecesAreLeaves(path, entries);
    case _ =>
      var leaf := Leaf(path, v.LeafText());
      assert LeafPieces([leaf]) == [LeafPiece(leaf)];
      assert QuoteAll([LeafPiece(leaf)]) == [Quote(LeafPiece(leaf))];
  }

  lemma {:induction false} ItemPiecesAreLeaves(path: seq<Step>, items: seq<Value>, i: nat)
    ensures ItemPieces(PathText(path), items, i) == QuoteAll(LeafPieces(ItemLeaves(path, items, i)))
    decreases items, 0
  {
    if items != [] {
      PathTextSnoc(path, Index(i));
      PiecesAreLeaves(path + [Index(i)], items[0]);
      ItemPiecesAreLeaves(path, items[1..], i + 1);
      LeafPiecesConcat(Leaves(path + [Index(i)], items[0]), ItemLeaves(path, items[1..], i + 1));
    }
  }

  lemma {:induction false} EntryPiecesAreLeaves(path: seq<Step>, entries: seq<Entry>)
    ensures EntryPieces(PathText(path), entries) == QuoteAll(LeafPieces(EntryLeaves(path, entries)))
    decreases entries, 0
  {
    if entries != [] {
      var k := entries[0].key;
      PathTextSnoc(path, Key(k));
      PiecesAreLeaves(MemberPath(path, k), entries[0].value);
      EntryPiecesAreLeaves(path, entries[1..]);
      LeafPiecesConcat(Leaves(MemberPath(path, k), entries[0].value), EntryLeaves(path, entries[1..]));
    }
  }
}
