/**
 * Port forwards of an interface, as they are defined and as the dialog edits them.
 */
module PortForwards {
  import opened Options
  import opened Sequences
  import opened Texts
  import Numerals

  datatype Range = Range(start: OptString, end: OptString, to: OptString, exclude: OptString)

  datatype Rule = Rule(address: OptString, dev: OptString, proto: OptString, range: seq<Range>)

  datatype DialogRule =
    | Simple(address: string, proto: string, host: string, guest: string)
    | Complex(config: Rule)

  const DASH := '-'

  /** `"" + s` */
  function Shown(s: OptString): string {
    s.GetOr("undefined")
  }

  predicate IsSimple(r: Rule) {
    !Truthy(r.dev) && |r.range| == 1 && r.range[0].exclude != Some("yes")
  }

  function HostText(r: Range): string {
    Shown(r.start) + if Truthy(r.end) then [DASH] + r.end.value else ""
  }

  // ----- The conversions, rule by rule -----

  function ToDialog(r: Rule): DialogRule {
    if IsSimple(r)
    then Simple(OrEmpty(r.address), OrEmpty(r.proto), HostText(r.range[0]), OrEmpty(r.range[0].to))
    else Complex(r)
  }

  function FromDialog(d: DialogRule): Rule {
    match d
    case Complex(config) => config
    case Simple(address, proto, host, guest) =>
      var range := Split(host, DASH);
      Rule(Some(address), Some(""), Some(proto),
           [Range(Some(range[0]), Some(if |range| > 1 then range[1] else ""), Some(guest), Some(""))])
  }

  function InterfaceToDialog(rules: seq<Rule>): seq<DialogRule> {
    Map(rules, ToDialog)
  }

  function DialogToInterface(rules: seq<DialogRule>): seq<Rule> {
    Map(rules, FromDialog)
  }

  // ----- Interface to dialog and back -----

  /** A rule is edited field by field exactly if it names no device and has one range, which is
      not excluded; missing fields are then empty. */
  lemma SimpleExactly(r: Rule)
    ensures ToDialog(r).Simple?
       <==> (r.dev == None || r.dev == Some("")) && |r.range| == 1 && r.range[0].exclude != Some("yes")
    ensures ToDialog(r).Simple? ==>
              && ToDialog(r).address == r.address.GetOr("") && ToDialog(r).proto == r.proto.GetOr("")
              && ToDialog(r).guest == r.range[0].to.GetOr("")
    ensures ToDialog(r).Complex? ==> ToDialog(r).config == r
  {
  }

  /** A simple rule with all fields set: missing ones are empty, and so is an exclusion other than "yes". */
  function Normalise(r: Rule): Rule {
    if IsSimple(r)
    then
      var x := r.range[0];
      Rule(Some(OrEmpty(r.address)), Some(""), Some(OrEmpty(r.proto)),
           [Range(Some(OrEmpty(x.start)), Some(OrEmpty(x.end)), Some(OrEmpty(x.to)), Some(""))])
    else r
  }

  predicate Undashed(s: OptString) {
    s.Some? ==> DASH !in s.value
  }

  /** The ports of a simple rule: a start there is, and no dash in start or end. */
  predicate PlainPorts(r: Rule) {
    IsSimple(r) ==> r.range[0].start.Some? && Undashed(r.range[0].start) && Undashed(r.range[0].end)
  }

  lemma SplitHost(r: Range)
    requires DASH !in Shown(r.start)
    ensures Split(HostText(r), DASH) == [Shown(r.start)] + if Truthy(r.end) then Split(r.end.value, DASH) else []
  {
    var start := Shown(r.start);
    if Truthy(r.end) {
      SplitFirst(start, r.end.value, DASH);
      assert start + ([DASH] + r.end.value) == start + [DASH] + r.end.value;
    } else {
      SplitNone(start, DASH);
      assert start + "" == start;
    }
  }

  /** What the dialog makes of the first port never has a dash. */
  lemma StartHasNoDash(host: string)
    ensures DASH !in Split(host, DASH)[0] && (|Split(host, DASH)| > 1 ==> DASH !in Split(host, DASH)[1])
  {
    SplitPieces(host, DASH);
  }

  /** A rule comes back as it was, but for missing or empty fields, exactly if its ports are plain. */
  lemma RuleReturns(r: Rule)
    ensures FromDialog(ToDialog(r)) == Normalise(r) <==> PlainPorts(r)
  {
    hide Split;
    if IsSimple(r) {
      var x := r.range[0];
      StartHasNoDash(HostText(x));
      if DASH !in Shown(x.start) {
        SplitHost(x);
        if Truthy(x.end) {
          StartHasNoDash(x.end.value);
          if DASH !in x.end.value {
            SplitNone(x.end.value, DASH);
          }
        }
      }
    }
  }

  /** All rules of an interface survive being edited without a change exactly if all have plain ports. */
  lemma InterfaceReturns(rules: seq<Rule>)
    ensures DialogToInterface(InterfaceToDialog(rules)) == Map(rules, Normalise) <==> forall r :: r in rules ==> PlainPorts(r)
  {
    hide FromDialog, ToDialog, Normalise, PlainPorts;
    var back, normal := DialogToInterface(InterfaceToDialog(rules)), Map(rules, Normalise);
    forall i | 0 <= i < |rules| ensures back[i] == normal[i] <==> PlainPorts(rules[i]) {
      RuleReturns(rules[i]);
    }
    if back == normal {
      forall r | r in rules ensures PlainPorts(r) {
        var i :| 0 <= i < |rules| && rules[i] == r;
      }
    }
  }

  /** A rule without a start port comes back with the port "undefined". */
  lemma MissingStart(r: Rule)
    requires IsSimple(r) && r.range[0].start.None? && r.range[0].end.None?
    ensures FromDialog(ToDialog(r)).range[0].start == Some("undefined")
  {
    SplitHost(r.range[0]);
  }

  // ----- Dialog to interface and back -----

  /** A port, or two ports with one dash between them. */
  predicate IsPortRange(host: string) {
    Count(host, DASH) <= 1 && (host != "" ==> host[|host| - 1] != DASH)
  }

  /** Only rules that need it are edited as complex ones. */
  predicate ProperlyComplex(d: DialogRule) {
    d.Complex? ==> !IsSimple(d.config)
  }

  lemma HostOfTwo(host: string)
    requires |Split(host, DASH)| == 2
    ensures var range := Split(host, DASH); host == range[0] + [DASH] + range[1]
  {
    SplitPieces(host, DASH);
    var range := Split(host, DASH);
    assert range == [range[0], range[1]] && range[1..] == [range[1]];
  }

  lemma HostOfMore(host: string)
    requires |Split(host, DASH)| > 2
    ensures var range := Split(host, DASH); |host| > |range[0] + [DASH] + range[1]|
  {
    SplitPieces(host, DASH);
    var range := Split(host, DASH);
    assert range[1..][1..] == range[2..];
    assert Join(range, DASH) == range[0] + [DASH] + (range[1] + [DASH] + Join(range[2..], DASH));
  }

  /** A rule of the dialog is shown unchanged after saving exactly if its host ports are a port
      or a range, and it is complex only where it has to be. */
  lemma DialogReturns(d: DialogRule)
    ensures ToDialog(FromDialog(d)) == d <==> if d.Simple? then IsPortRange(d.host) else ProperlyComplex(d)
  {
    hide Split;
    if d.Simple? {
      var host, range := d.host, Split(d.host, DASH);
      SplitPieces(host, DASH);
      if |range| == 1 {
        CountIn(host, DASH);
        assert range == [host] && host + "" == host;
        LastOf(host);
      } else if |range| == 2 {
        HostOfTwo(host);
        LastOf(range[1]);
        assert range[0] + ([DASH] + range[1]) == host;
      } else {
        HostOfMore(host);
        assert |range[0] + ([DASH] + range[1])| == |range[0] + [DASH] + range[1]|;
      }
    }
  }

  lemma LastOf(s: string)
    ensures s != "" && DASH !in s ==> s[|s| - 1] != DASH
  {
  }

  // ----- The text of a rule -----

  /** `Number(s)`, with None for NaN. */
  function Num(s: OptString): Option<nat> {
    if s.None? then None else Numerals.ToNumber(s.value)
  }

  function IntText(n: int): string {
    if n < 0 then "-" + Numerals.Decimal(-n) else Numerals.Decimal(n)
  }

  function GuestStart(r: Range): OptString {
    if Truthy(r.to) then r.to else r.start
  }

  function GuestEnd(r: Range): string
    requires Truthy(r.end)
  {
    var a, b, c := Num(GuestStart(r)), Num(r.end), Num(r.start);
    if a.None? || b.None? || c.None? then "NaN" else IntText(a.value + b.value - c.value)
  }

  /** One range; the first of a rule has no comma before it. */
  function RangeText(r: Range, first: bool): string {
    (if first then "" else ",")
    + (if r.exclude == Some("yes") then " excluding " else "")
    + Shown(r.start)
    + (if Truthy(r.end) then "-" + r.end.value else "")
    + (if Truthy(r.exclude) then ""
       else " → " + Shown(GuestStart(r)) + if Truthy(r.end) then "-" + GuestEnd(r) else "")
  }

  function RangesText(ranges: seq<Range>, first: bool): string {
    if ranges == [] then "" else RangeText(ranges[0], first) + RangesText(ranges[1..], false)
  }

  predicate OnlyExclusions(ranges: seq<Range>) {
    forall r :: r in ranges ==> r.exclude == Some("yes")
  }

  function Heading(pf: Rule): string {
    (if Truthy(pf.address) then pf.address.value + ":" else "")
    + (if Truthy(pf.dev) then pf.dev.value + ":" else "")
    + (if OnlyExclusions(pf.range) then "all" else "")
  }

  function RuleText(pf: Rule): string {
    Heading(pf) + RangesText(pf.range, true) + "/" + Shown(pf.proto)
  }

  method PortForwardText(pf: Rule) returns (text: string)
    ensures text == RuleText(pf)
  {
    hide RangesText;
    text := "";
    if Truthy(pf.address) {
      text := text + (pf.address.value + ":");
    }
    if Truthy(pf.dev) {
      text := text + (pf.dev.value + ":");
    }
    var all := FindIndex(pf.range, (r: Range) => r.exclude != Some("yes"));
    OnlyExclusionsFound(pf.range);
    if all.None? {
      text := text + "all";
    }
    ghost var before := text;
    assert before == Heading(pf);
    var i := 0;
    assert pf.range[0..] == pf.range;
    while i < |pf.range|
      invariant 0 <= i <= |pf.range|
      invariant text + RangesText(pf.range[i..], i == 0) == before + RangesText(pf.range, true)
    {
      var r := pf.range[i];
      RangesStep(pf.range, i);
      var part := OneRange(r, i);
      assert text + (part + RangesText(pf.range[i + 1..], false)) == (text + part) + RangesText(pf.range[i + 1..], false);
      text := text + part;
      i := i + 1;
    }
    NoRanges(pf.range);
    assert text == Heading(pf) + RangesText(pf.range, true);
    text := text + "/" + Shown(pf.proto);
  }

  method OneRange(r: Range, i: nat) returns (text: string)
    ensures text == RangeText(r, i == 0)
  {
    text := "";
    if i > 0 {
      text := text + ",";
    }
    if r.exclude == Some("yes") {
      text := text + " excluding ";
    }
    text := text + Shown(r.start);
    if Truthy(r.end) {
      text := text + ("-" + r.end.value);
    }
    if !Truthy(r.exclude) {
      text := text + (" → " + Shown(GuestStart(r)) + if Truthy(r.end) then "-" + GuestEnd(r) else "");
    }
  }

  lemma OnlyExclusionsFound(ranges: seq<Range>)
    ensures OnlyExclusions(ranges) <==> FindIndex(ranges, (r: Range) => r.exclude != Some("yes")).None?
  {
    var p := (r: Range) => r.exclude != Some("yes");
    var at := FindIndex(ranges, p);
    if at.Some? {
      assert p(ranges[at.value]) && ranges[at.value] in ranges;
    } else {
      forall r | r in ranges ensures r.exclude == Some("yes") {
        var i :| 0 <= i < |ranges| && ranges[i] == r;
        assert !p(ranges[i]);
      }
    }
  }

  lemma RangesStep(ranges: seq<Range>, i: nat)
    requires i < |ranges|
    ensures RangesText(ranges[i..], i == 0) == RangeText(ranges[i], i == 0) + RangesText(ranges[i + 1..], false)
  {
    assert ranges[i..][1..] == ranges[i + 1..];
  }

  lemma NoRanges(ranges: seq<Range>)
    ensures RangesText(ranges[|ranges|..], |ranges| == 0) == ""
  {
  }

  /** The guest port of a range: the one it names, or else its host port. */
  predicate GoesTo(r: Range, port: OptString) {
    if r.to == None || r.to == Some("") then port == r.start else port == r.to
  }

  /** The last guest port shown for a range is as far from the first one as the host ports are
      apart, with a minus sign if it is negative. */
  lemma GuestRangeAsWide(r: Range, first: OptString)
    requires GoesTo(r, first) && Truthy(r.end)
    requires Num(first).Some? && Num(r.start).Some? && Num(r.end).Some?
    ensures var last := Num(first).value as int + Num(r.end).value as int - Num(r.start).value as int;
            if last >= 0 then Numerals.ToNumber(GuestEnd(r)) == Some(last)
            else |GuestEnd(r)| > 1 && GuestEnd(r)[0] == DASH && Numerals.ToNumber(GuestEnd(r)[1..]) == Some(-last)
  {
    hide GuestEnd, GoesTo, Num, IntText, Numerals.ToNumber;
    GuestEndIs(r, first);
    IntTextReads(Num(first).value as int + Num(r.end).value as int - Num(r.start).value as int);
  }

  lemma GuestEndIs(r: Range, first: OptString)
    requires GoesTo(r, first) && Truthy(r.end)
    requires Num(first).Some? && Num(r.start).Some? && Num(r.end).Some?
    ensures GuestEnd(r) == IntText(Num(first).value as int + Num(r.end).value as int - Num(r.start).value as int)
  {
    hide Num, IntText;
  }

  lemma IntTextReads(n: int)
    ensures n >= 0 ==> Numerals.ToNumber(IntText(n)) == Some(n)
    ensures n < 0 ==> |IntText(n)| > 1 && IntText(n)[0] == DASH && Numerals.ToNumber(IntText(n)[1..]) == Some(-n)
  {
    hide Numerals.Decimal, Numerals.ToNumber;
    Numerals.ToNumberDecimal(if n < 0 then -n else n);
    NonEmptyNumeral(if n < 0 then -n else n);
    if n < 0 {
      assert ("-" + Numerals.Decimal(-n))[1..] == Numerals.Decimal(-n);
    }
  }

  /** If one of the ports is not a number, neither is the last guest port. */
  lemma GuestEndNoNumber(r: Range, first: OptString)
    requires GoesTo(r, first) && Truthy(r.end)
    requires Num(first).None? || Num(r.start).None? || Num(r.end).None?
    ensures GuestEnd(r) == "NaN"
  {
  }

  // ----- What the text says -----

  const COMMA := ','

  predicate NoCommas(s: OptString) {
    s.Some? ==> COMMA !in s.value
  }

  predicate PlainRange(r: Range) {
    NoCommas(r.start) && NoCommas(r.end) && NoCommas(r.to)
  }

  lemma {:induction false} PrintedNoComma(n: nat)
    ensures COMMA !in Numerals.Decimal(n) && DASH !in Numerals.Decimal(n)
  {
    var s := Numerals.Decimal(n);
    Numerals.PrintChars(n, 10);
    forall c | c in s ensures c != COMMA && c != DASH {
      var i :| 0 <= i < |s| && s[i] == c;
      assert c in Numerals.DIGITS[..10];
    }
  }

  lemma GuestEndNoComma(r: Range)
    requires Truthy(r.end)
    ensures COMMA !in GuestEnd(r)
  {
    hide Numerals.Decimal, Num;
    var a, b, c := Num(GuestStart(r)), Num(r.end), Num(r.start);
    if a.Some? && b.Some? && c.Some? {
      var n := a.value as int + b.value as int - c.value as int;
      PrintedNoComma(if n < 0 then -n else n);
    }
  }

  lemma RangeTextNoComma(r: Range)
    requires PlainRange(r)
    ensures COMMA !in RangeText(r, true)
  {
    hide GuestEnd;
    if Truthy(r.end) {
      GuestEndNoComma(r);
    }
  }

  lemma LaterRange(r: Range)
    ensures RangeText(r, false) == [COMMA] + RangeText(r, true)
  {
    hide GuestEnd;
    var body := (if r.exclude == Some("yes") then " excluding " else "")
                + Shown(r.start)
                + (if Truthy(r.end) then "-" + r.end.value else "")
                + (if Truthy(r.exclude) then ""
                   else " → " + Shown(GuestStart(r)) + if Truthy(r.end) then "-" + GuestEnd(r) else "");
    OneText(r, body);
  }

  lemma OneText(r: Range, body: string)
    requires body == (if r.exclude == Some("yes") then " excluding " else "")
                     + Shown(r.start)
                     + (if Truthy(r.end) then "-" + r.end.value else "")
                     + (if Truthy(r.exclude) then ""
                        else " → " + Shown(GuestStart(r)) + if Truthy(r.end) then "-" + GuestEnd(r) else "")
    ensures RangeText(r, true) == body && RangeText(r, false) == "," + body
  {
    hide GuestEnd, Shown, GuestStart;
    var a := if r.exclude == Some("yes") then " excluding " else "";
    var b := Shown(r.start);
    var c := if Truthy(r.end) then "-" + r.end.value else "";
    var d := if Truthy(r.exclude) then ""
             else " → " + Shown(GuestStart(r)) + if Truthy(r.end) then "-" + GuestEnd(r) else "";
    FourTexts("", a, b, c, d);
    FourTexts(",", a, b, c, d);
    assert "" + body == body;
  }

  lemma FourTexts(x: string, a: string, b: string, c: string, d: string)
    ensures x + a + b + c + d == x + (a + b + c + d)
  {
  }

  /** Cut at its commas, the part of a text that lists the ranges gives the ranges, one by one. */
  lemma {:induction false} RangesSeparated(ranges: seq<Range>)
    requires ranges != [] && forall r :: r in ranges ==> PlainRange(r)
    ensures Split(RangesText(ranges, true), COMMA) == Map(ranges, (r: Range) => RangeText(r, true))
  {
    hide RangeText, Split, PlainRange;
    var first, rest := ranges[0], ranges[1..];
    RangeTextNoComma(first);
    if rest == [] {
      assert RangesText([], false) == "";
      assert RangesText(ranges, true) == RangeText(first, true) + "" == RangeText(first, true);
      SplitNone(RangeText(first, true), COMMA);
    } else {
      RangesSeparated(rest);
      LaterRange(rest[0]);
      LaterRanges(rest);
      SplitFirst(RangeText(first, true), RangesText(rest, true), COMMA);
      assert RangeText(first, true) + ([COMMA] + RangesText(rest, true))
          == RangeText(first, true) + [COMMA] + RangesText(rest, true);
    }
  }

  lemma LaterRanges(ranges: seq<Range>)
    requires ranges != []
    ensures RangesText(ranges, false) == [COMMA] + RangesText(ranges, true)
  {
    hide RangeText;
    LaterRange(ranges[0]);
    var a, b := RangeText(ranges[0], true), RangesText(ranges[1..], false);
    assert [COMMA] + a + b == [COMMA] + (a + b);
  }

  /** What is shown of a range: the host ports, and guest ports as many. */
  function PortsShown(start: nat, end: nat, guest: nat): string
    requires start <= end
  {
    Numerals.Decimal(start) + "-" + Numerals.Decimal(end) + " → "
    + Numerals.Decimal(guest) + "-" + Numerals.Decimal(guest + (end - start))
  }

  predicate PlainRule(pf: Rule) {
    NoCommas(pf.address) && NoCommas(pf.dev) && NoCommas(pf.proto) && forall r :: r in pf.range ==> PlainRange(r)
  }

  lemma EndsNoComma(pf: Rule)
    requires PlainRule(pf)
    ensures COMMA !in Heading(pf) && COMMA !in "/" + Shown(pf.proto)
  {
  }

  /** The text with its heading and its protocol. */
  lemma TextPieces(pf: Rule)
    requires pf.range != [] && PlainRule(pf)
    ensures Split(RuleText(pf), COMMA)
         == Glue(Glue([Heading(pf)], Map(pf.range, (r: Range) => RangeText(r, true))), ["/" + Shown(pf.proto)])
  {
    hide RangesText, Split, Heading, RangeText, Glue;
    EndsNoComma(pf);
    RangesSeparated(pf.range);
    SplitNone(Heading(pf), COMMA);
    SplitNone("/" + Shown(pf.proto), COMMA);
    SplitConcat(Heading(pf), RangesText(pf.range, true), COMMA);
    SplitConcat(Heading(pf) + RangesText(pf.range, true), "/" + Shown(pf.proto), COMMA);
    assert RuleText(pf) == (Heading(pf) + RangesText(pf.range, true)) + ("/" + Shown(pf.proto));
  }

  lemma GluedAt(head: string, pieces: seq<string>, tail: string, i: nat)
    requires i < |pieces|
    ensures var all := Glue(Glue([head], pieces), [tail]);
            |all| == |pieces|
            && all[i] == (if i == 0 then head else "") + pieces[i] + (if i == |pieces| - 1 then tail else "")
  {
    var front := Glue([head], pieces);
    assert [head][..0] == [];
    assert front == [head + pieces[0]] + pieces[1..];
    assert Glue(front, [tail]) == front[..|front| - 1] + [front[|front| - 1] + tail];
    assert "" + pieces[i] == pieces[i] && front[i] + "" == front[i];
  }

  /** Cut at its commas, the text of a rule has one piece for each range; the piece of a range
      with an end and without exclusion shows as many guest ports as host ports. */
  lemma TextSaysRanges(pf: Rule, i: nat, start: nat, end: nat, guest: nat)
    requires i < |pf.range| && start <= end && PlainRule(pf)
    requires pf.range[i].start == Some(Numerals.Decimal(start)) && pf.range[i].end == Some(Numerals.Decimal(end))
    requires !Truthy(pf.range[i].exclude) && GoesTo(pf.range[i], Some(Numerals.Decimal(guest)))
    ensures var pieces := Split(RuleText(pf), COMMA);
            && |pieces| == |pf.range|
            && pieces[i] == (if i == 0 then Heading(pf) else "") + PortsShown(start, end, guest)
                            + if i == |pf.range| - 1 then "/" + Shown(pf.proto) else ""
  {
    hide RuleText, RangeText, Split, Heading, Numerals.Decimal, Numerals.ToNumber, PlainRange, Glue;
    TextPieces(pf);
    GluedAt(Heading(pf), Map(pf.range, (r: Range) => RangeText(r, true)), "/" + Shown(pf.proto), i);
    RangeSays(pf.range[i], start, end, guest);
  }

  lemma RangeSays(r: Range, start: nat, end: nat, guest: nat)
    requires start <= end && r.start == Some(Numerals.Decimal(start)) && r.end == Some(Numerals.Decimal(end))
    requires !Truthy(r.exclude) && GoesTo(r, Some(Numerals.Decimal(guest)))
    ensures RangeText(r, true) == PortsShown(start, end, guest)
  {
    hide Numerals.Decimal, Numerals.ToNumber, RangeText;
    Numerals.ToNumberDecimal(start);
    Numerals.ToNumberDecimal(end);
    Numerals.ToNumberDecimal(guest);
    NonEmptyNumeral(end);
    OneText(r, "" + Shown(r.start) + ("-" + r.end.value) + (" → " + Shown(GuestStart(r)) + ("-" + GuestEnd(r))));
    var s, e, g := Numerals.Decimal(start), Numerals.Decimal(end), Numerals.Decimal(guest);
    var h := Numerals.Decimal(guest + (end - start));
    assert GuestEnd(r) == h;
    assert "" + s + ("-" + e) + (" → " + g + ("-" + h)) == s + "-" + e + " → " + g + "-" + h;
  }

  /** What is shown of the ranges of other forms: an exclusion without guest ports, and a single
      port with the guest port it goes to, or the same one. */
  lemma OtherRangesSay(r: Range, start: string)
    requires r.start == Some(start)
    ensures r.exclude == Some("yes") && r.end == None ==> RangeText(r, true) == " excluding " + start
    ensures r.exclude == Some("yes") && r.end.Some? && r.end.value != "" ==>
              RangeText(r, true) == " excluding " + start + "-" + r.end.value
    ensures r.exclude == None && r.end == None && r.to.Some? && r.to.value != "" ==>
              RangeText(r, true) == start + " → " + r.to.value
    ensures r.exclude == None && r.end == None && r.to == None ==> RangeText(r, true) == start + " → " + start
  {
    hide GuestEnd;
    if r.exclude == None && r.end == None {
      OneText(r, "" + start + "" + (" → " + Shown(GuestStart(r)) + ""));
      assert "" + start + "" + (" → " + Shown(GuestStart(r)) + "") == start + " → " + Shown(GuestStart(r));
    } else if r.exclude == Some("yes") && r.end == None {
      OneText(r, " excluding " + start + "" + "");
      assert " excluding " + start + "" + "" == " excluding " + start;
    } else if r.exclude == Some("yes") && Truthy(r.end) {
      OneText(r, " excluding " + start + ("-" + r.end.value) + "");
      assert " excluding " + start + ("-" + r.end.value) + "" == " excluding " + start + "-" + r.end.value;
    }
  }

  /** Before the ranges stand the address and the device, where they are given, and "all" if every
      range is an exclusion. */
  lemma HeadingSays(pf: Rule)
    ensures Heading(pf) == (if pf.address == None || pf.address == Some("") then "" else pf.address.value + ":")
                           + (if pf.dev == None || pf.dev == Some("") then "" else pf.dev.value + ":")
                           + (if exists r :: r in pf.range && r.exclude != Some("yes") then "" else "all")
  {
  }

  lemma NonEmptyNumeral(n: nat)
    ensures Truthy(Some(Numerals.Decimal(n)))
  {
    Numerals.ReadPrint(n, 10);
  }
}
