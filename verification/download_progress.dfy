/**
 * Progress of a download: the percentages that the download script prints, and the values that
 * come out of its output however it is cut into chunks.
 */
module DownloadProgress {
  import opened Options
  import opened Texts
  import Numerals

  const NEWLINE := '\n'

  // ----- The download script -----

  /** Python's round(a / b): to the nearest integer, ties to the even one. */
  function RoundedQuotient(a: nat, b: nat): nat
    requires b > 0
  {
    var q, r := a / b, a % b;
    if 2 * r < b || (2 * r == b && q % 2 == 0) then q else q + 1
  }

  /** It is within one half of the quotient, and even if just one half away. */
  lemma RoundedNear(a: nat, b: nat)
    requires b > 0
    ensures var n := RoundedQuotient(a, b);
            && 2 * (n * b) <= 2 * a + b && 2 * a <= 2 * (n * b) + b
            && (2 * (n * b) == 2 * a + b || 2 * a == 2 * (n * b) + b ==> n % 2 == 0)
  {
    var q, r := a / b, a % b;
    assert a == q * b + r;
    assert (q + 1) * b == q * b + b;
  }

  lemma ProductGap(p: nat, q: nat, b: nat)
    ensures p > q ==> p * b >= q * b + b
  {
    if p > q {
      assert p * b == (p - q - 1) * b + q * b + b;
      assert (p - q - 1) * b >= 0;
    }
  }

  lemma DivMonotone(a: nat, c: nat, b: nat)
    requires b > 0 && a <= c
    ensures a / b <= c / b
    ensures a / b == c / b ==> a % b <= c % b
  {
    var p, q := a / b, c / b;
    assert a == p * b + a % b && c == q * b + c % b;
    ProductGap(p, q, b);
  }

  lemma RoundedMonotone(a: nat, c: nat, b: nat)
    requires b > 0 && a <= c
    ensures RoundedQuotient(a, b) <= RoundedQuotient(c, b)
  {
    DivMonotone(a, c, b);
  }

  lemma RoundedExact(n: nat, b: nat)
    requires b > 0
    ensures RoundedQuotient(b * n, b) == n
  {
    DivExact(n, b);
  }

  lemma DivExact(n: nat, b: nat)
    requires b > 0
    ensures (b * n) / b == n && (b * n) % b == 0
  {
    var q, r := (b * n) / b, (b * n) % b;
    assert b * n == n * b && b * n == q * b + r;
    ProductGap(n, q, b);
    ProductGap(q, n, b);
  }

  function Percentage(done: nat, size: nat): nat
    requires size > 0
  {
    RoundedQuotient(done * 100, size)
  }

  lemma PercentageBounds(done: nat, size: nat)
    requires size > 0
    ensures done <= size ==> Percentage(done, size) <= 100
    ensures Percentage(size, size) == 100
  {
    RoundedExact(100, size);
    if done <= size {
      RoundedMonotone(done * 100, size * 100, size);
    }
  }

  function Sum(blocks: seq<nat>): nat {
    if blocks == [] then 0 else Sum(blocks[..|blocks| - 1]) + blocks[|blocks| - 1]
  }

  ghost predicate Increasing(s: seq<nat>) {
    forall i, j :: 0 <= i < j < |s| ==> s[i] < s[j]
  }

  /** A percentage that is reached at the end of a block. */
  ghost predicate Reached(p: nat, blocks: seq<nat>, size: nat) {
    size > 0 && exists k :: 0 < k <= |blocks| && p == Percentage(Sum(blocks[..k]), size)
  }

  /** It is within one half of a hundred times the quotient. */
  lemma PercentageNear(done: nat, size: nat)
    requires size > 0
    ensures var p := Percentage(done, size); 2 * (p * size) <= 200 * done + size && 200 * done <= 2 * (p * size) + size
  {
    RoundedNear(done * 100, size);
  }

  /** The loop of the script over the blocks it reads, until there is none left. It fails on a
      block of a file that is announced as empty. */
  method Download(blocks: seq<nat>, size: nat) returns (ok: bool, printed: seq<nat>)
    ensures ok <==> blocks == [] || size > 0
    ensures Increasing(printed)
    ensures ok && Sum(blocks) <= size ==> forall i :: 0 <= i < |printed| ==> printed[i] <= 100
    ensures ok && blocks != [] ==> printed != [] && printed[|printed| - 1] == Percentage(Sum(blocks), size)
    ensures ok && blocks != [] && Sum(blocks) == size ==> printed[|printed| - 1] == 100
    ensures ok ==> forall k :: 0 < k <= |blocks| ==> Percentage(Sum(blocks[..k]), size) in printed
    ensures ok ==> forall p :: p in printed ==> Reached(p, blocks, size)
    ensures !ok ==> printed == []
  {
    hide Percentage;
    printed := [];
    var done: nat, percentage: int := 0, -1;
    var i := 0;
    while i < |blocks|
      invariant 0 <= i <= |blocks| && done == Sum(blocks[..i])
      invariant i > 0 ==> size > 0
      invariant Increasing(printed) && (i == 0 ==> printed == [])
      invariant percentage == if printed == [] then -1 else printed[|printed| - 1]
      invariant i > 0 ==> percentage == Percentage(done, size)
      invariant forall k :: 0 < k <= i ==> Percentage(Sum(blocks[..k]), size) in printed
      invariant forall p :: p in printed ==> Reached(p, blocks, size)
    {
      assert blocks[..i + 1][..i] == blocks[..i];
      if size == 0 {
        return false, printed;
      }
      if i > 0 {
        PercentageMonotone(done, done + blocks[i], size);
      }
      done := done + blocks[i];
      var newPercentage := Percentage(done, size);
      if newPercentage > percentage {
        percentage := newPercentage;
        printed := printed + [percentage];
      }
      i := i + 1;
    }
    assert blocks[..i] == blocks;
    ok := true;
    if size > 0 {
      PercentageBounds(Sum(blocks), size);
    }
    LastIsLargest(printed);
  }

  lemma LastIsLargest(s: seq<nat>)
    requires Increasing(s)
    ensures forall i :: 0 <= i < |s| ==> s[i] <= s[|s| - 1]
  {
  }

  lemma PercentageMonotone(done: nat, more: nat, size: nat)
    requires size > 0 && done <= more
    ensures Percentage(done, size) <= Percentage(more, size)
  {
    RoundedMonotone(done * 100, more * 100, size);
  }

  /** What the script writes: one line for each percentage. */
  function Output(printed: seq<nat>): string {
    if printed == [] then "" else Numerals.Decimal(printed[0]) + [NEWLINE] + Output(printed[1..])
  }

  // ----- The stream handler -----

  /** The buffer, and all values reported so far. */
  datatype Reader = Reader(buffer: string, reported: seq<string>)

  function Receive(r: Reader, chunk: string): Reader {
    var chunks := Split(r.buffer + chunk, NEWLINE);
    var last := |chunks| - 1;
    Reader(chunks[last], if last > 0 then r.reported + [chunks[last - 1]] else r.reported)
  }

  function ReceiveAll(chunks: seq<string>): Reader {
    if chunks == [] then Reader("", []) else Receive(ReceiveAll(chunks[..|chunks| - 1]), chunks[|chunks| - 1])
  }

  function Concat(chunks: seq<string>): string {
    if chunks == [] then "" else Concat(chunks[..|chunks| - 1]) + chunks[|chunks| - 1]
  }

  class Stream {
    var buffer: string
    ghost var received: seq<string>
    var reported: seq<string>

    ghost predicate Valid()
      reads this
    {
      Reader(buffer, reported) == ReceiveAll(received)
    }

    constructor ()
      ensures Valid() && received == []
    {
      buffer, received, reported := "", [], [];
    }

    method OnChunk(progress: string)
      requires Valid()
      modifies this
      ensures Valid() && received == old(received) + [progress]
      ensures Reader(buffer, reported) == Receive(old(Reader(buffer, reported)), progress)
    {
      assert (received + [progress])[..|received|] == received;
      received := received + [progress];
      buffer := buffer + progress;
      var chunks := Split(buffer, NEWLINE);
      buffer := chunks[|chunks| - 1];
      chunks := chunks[..|chunks| - 1];
      if |chunks| > 0 {
        reported := reported + [chunks[|chunks| - 1]];
      }
    }
  }

  /** The complete lines of a text. */
  function Lines(text: string): seq<string> {
    var pieces := Split(text, NEWLINE);
    pieces[..|pieces| - 1]
  }

  /** What comes after the last newline. */
  function Rest(text: string): string {
    var pieces := Split(text, NEWLINE);
    pieces[|pieces| - 1]
  }

  lemma RestIsOpen(text: string)
    ensures Split(Rest(text), NEWLINE) == [Rest(text)]
  {
    SplitPieces(text, NEWLINE);
    SplitNone(Rest(text), NEWLINE);
  }

  /** More text completes the open line, and all lines but the last of what is added. */
  lemma MoreText(text: string, chunk: string)
    ensures var added := Split(Rest(text) + chunk, NEWLINE);
            Lines(text + chunk) == Lines(text) + added[..|added| - 1] && Rest(text + chunk) == added[|added| - 1]
  {
    hide Split;
    var p, q := Split(text, NEWLINE), Split(chunk, NEWLINE);
    SplitConcat(text, chunk, NEWLINE);
    SplitConcat(Rest(text), chunk, NEWLINE);
    RestIsOpen(text);
    GlueLast(p, q);
  }

  lemma GlueLast(p: seq<string>, q: seq<string>)
    requires p != [] && q != []
    ensures Glue([p[|p| - 1]], q) != []
    ensures var added := Glue([p[|p| - 1]], q); var whole := Glue(p, q);
            whole != [] && whole[..|whole| - 1] == p[..|p| - 1] + added[..|added| - 1] && whole[|whole| - 1] == added[|added| - 1]
  {
    var last := [p[|p| - 1]];
    assert last[..0] == [];
    assert Glue(last, q) == [p[|p| - 1] + q[0]] + q[1..];
    assert Glue(p, q) == p[..|p| - 1] + Glue(last, q);
  }

  /** However the output is cut, the buffer is the text after the last newline, and the value
      reported last is the last complete line, if there is one. */
  lemma {:induction false} Reassembly(chunks: seq<string>)
    ensures var r, text := ReceiveAll(chunks), Concat(chunks);
            && r.buffer == Rest(text)
            && (Lines(text) == [] <==> r.reported == [])
            && (r.reported != [] ==> r.reported[|r.reported| - 1] == Lines(text)[|Lines(text)| - 1])
  {
    if chunks != [] {
      var before := chunks[..|chunks| - 1];
      Reassembly(before);
      hide Split, Lines, Rest;
      MoreText(Concat(before), chunks[|chunks| - 1]);
    }
  }

  /** Which lines have been reported: a report is made when lines are completed, of the last of them. */
  function ReportedLines(chunks: seq<string>): seq<nat> {
    if chunks == [] then []
    else
      var before := chunks[..|chunks| - 1];
      var done, now := |Lines(Concat(before))|, |Lines(Concat(chunks))|;
      ReportedLines(before) + if now > done then [now - 1] else []
  }

  lemma ReportStep(chunks: seq<string>)
    requires chunks != []
    ensures var before, lines := chunks[..|chunks| - 1], Lines(Concat(chunks));
            var done := |Lines(Concat(before))|;
            && done <= |lines| && lines[..done] == Lines(Concat(before))
            && ReceiveAll(chunks).reported
               == ReceiveAll(before).reported + if |lines| > done then [lines[|lines| - 1]] else []
  {
    var before := chunks[..|chunks| - 1];
    Reassembly(before);
    hide Split, Lines, Rest;
    MoreText(Concat(before), chunks[|chunks| - 1]);
  }

  /** The values reported are complete lines of the output, each one later than the one before. */
  lemma {:induction false} ReportsInOrder(chunks: seq<string>)
    ensures var at, lines := ReportedLines(chunks), Lines(Concat(chunks));
            && |at| == |ReceiveAll(chunks).reported|
            && Increasing(at)
            && forall i :: 0 <= i < |at| ==> at[i] < |lines| && ReceiveAll(chunks).reported[i] == lines[at[i]]
  {
    if chunks == [] {
      assert ReceiveAll(chunks).reported == [];
    } else {
      var before := chunks[..|chunks| - 1];
      ReportsInOrder(before);
      ReportStep(chunks);
      hide Lines, ReceiveAll, Concat;
      var at, was := ReportedLines(chunks), ReportedLines(before);
      var lines, done := Lines(Concat(chunks)), |Lines(Concat(before))|;
      assert at == was + if |lines| > done then [|lines| - 1] else [];
      forall i | 0 <= i < |was| ensures lines[at[i]] == Lines(Concat(before))[was[i]] {
        assert lines[..done][was[i]] == lines[was[i]];
      }
    }
  }

  // ----- From the script to the reports -----

  lemma DecimalOnOneLine(n: nat)
    ensures NEWLINE !in Numerals.Decimal(n)
  {
    var s := Numerals.Decimal(n);
    Numerals.PrintChars(n, 10);
    assert NEWLINE !in Numerals.DIGITS;
    forall i | 0 <= i < |s| ensures s[i] != NEWLINE {
      assert s[i] in Numerals.DIGITS[..10];
    }
  }

  /** The lines of the script's output are its percentages. */
  lemma {:induction false} OutputLines(printed: seq<nat>)
    ensures |Lines(Output(printed))| == |printed|
    ensures forall i :: 0 <= i < |printed| ==> Lines(Output(printed))[i] == Numerals.Decimal(printed[i])
  {
    if printed != [] {
      var first := Numerals.Decimal(printed[0]);
      OutputLines(printed[1..]);
      DecimalOnOneLine(printed[0]);
      hide Split;
      SplitFirst(first, Output(printed[1..]), NEWLINE);
      assert Lines(Output(printed)) == [first] + Lines(Output(printed[1..]));
    }
  }

  /** What has been received at some moment has the first lines of the whole output. */
  lemma LinesOfPrefix(text: string, more: string)
    ensures |Lines(text)| <= |Lines(text + more)|
    ensures forall i :: 0 <= i < |Lines(text)| ==> Lines(text)[i] == Lines(text + more)[i]
  {
    hide Lines, Rest, Split;
    MoreText(text, more);
  }

  /** At every moment of the download, however its output is cut, the values reported are
      percentages that the script printed, and strictly increasing as numbers. */
  lemma {:induction false} ReportsIncrease(printed: seq<nat>, chunks: seq<string>, more: string)
    requires Increasing(printed) && Concat(chunks) + more == Output(printed)
    ensures var reported := ReceiveAll(chunks).reported;
            && (forall i :: 0 <= i < |reported| ==>
                  Numerals.ToNumber(reported[i]).Some? && Numerals.ToNumber(reported[i]).value in printed)
            && (forall i, j :: 0 <= i < j < |reported| ==>
                  Numerals.ToNumber(reported[i]).GetOr(0) < Numerals.ToNumber(reported[j]).GetOr(0))
  {
    hide Lines, ReceiveAll, Numerals.ToNumber, Numerals.Decimal, ReportedLines, Output;
    var at, reported := ReportedLines(chunks), ReceiveAll(chunks).reported;
    ReportsInOrder(chunks);
    LinesOfPrefix(Concat(chunks), more);
    OutputLines(printed);
    forall i | 0 <= i < |reported| ensures at[i] < |printed| && Numerals.ToNumber(reported[i]) == Some(printed[at[i]]) {
      Numerals.ToNumberDecimal(printed[at[i]]);
    }
  }

  /** When all has arrived, the value reported last is the last one printed. */
  lemma {:induction false} LastReport(printed: seq<nat>, chunks: seq<string>)
    requires printed != [] && Concat(chunks) == Output(printed)
    ensures var reported := ReceiveAll(chunks).reported;
            reported != [] && Numerals.ToNumber(reported[|reported| - 1]) == Some(printed[|printed| - 1])
  {
    hide Lines, ReceiveAll, Numerals.ToNumber, Numerals.Decimal, Output;
    Reassembly(chunks);
    OutputLines(printed);
    Numerals.ToNumberDecimal(printed[|printed| - 1]);
  }
}
