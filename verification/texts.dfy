/** Splitting text at a separator character. */
module Texts {

  /** `s.split(sep)` */
  function Split(s: string, sep: char): (r: seq<string>)
    ensures |r| >= 1
  {
    if s == "" then [""]
    else if s[0] == sep then [""] + Split(s[1..], sep)
    else Extend(s[0], Split(s[1..], sep))
  }

  /** One more character in front of the first piece. */
  function Extend(c: char, pieces: seq<string>): (r: seq<string>)
    requires pieces != []
    ensures |r| == |pieces|
  {
    [[c] + pieces[0]] + pieces[1..]
  }

  /** The pieces of a concatenation: the last piece of the first part grows by the first of the second. */
  function Glue(p: seq<string>, q: seq<string>): seq<string>
    requires p != [] && q != []
  {
    p[..|p| - 1] + [p[|p| - 1] + q[0]] + q[1..]
  }

  lemma GlueCons(x: string, p: seq<string>, q: seq<string>)
    requires p != [] && q != []
    ensures Glue([x] + p, q) == [x] + Glue(p, q)
  {
    assert ([x] + p)[..|p|] == [x] + p[..|p| - 1];
  }

  lemma GlueNothing(q: seq<string>)
    requires q != []
    ensures Glue([""], q) == q
  {
    assert "" + q[0] == q[0];
    assert [""][..0] == [] && [q[0]] + q[1..] == q;
  }

  /** A piece that nothing follows directly. */
  lemma GlueSeparated(a: string, q: seq<string>)
    ensures Glue([a], [""] + q) == [a] + q
  {
    assert a + "" == a;
    assert [a][..0] == [] && ([""] + q)[1..] == q;
  }

  lemma GlueExtend(c: char, p: seq<string>, q: seq<string>)
    requires p != [] && q != []
    ensures Glue(Extend(c, p), q) == Extend(c, Glue(p, q))
  {
    if |p| == 1 {
      assert Extend(c, p) == [[c] + p[0]];
      assert ([c] + p[0]) + q[0] == [c] + (p[0] + q[0]);
      assert Glue(p, q) == [p[0] + q[0]] + q[1..];
      assert Glue(p, q)[1..] == q[1..];
    } else {
      var e := Extend(c, p);
      assert e[..|p| - 1] == [[c] + p[0]] + p[1..|p| - 1];
      assert Glue(p, q)[1..] == p[1..|p| - 1] + [p[|p| - 1] + q[0]] + q[1..];
    }
  }

  /** `pieces.join(sep)` */
  function Join(pieces: seq<string>, sep: char): string {
    if pieces == [] then ""
    else if |pieces| == 1 then pieces[0]
    else pieces[0] + [sep] + Join(pieces[1..], sep)
  }

  function Count(s: string, c: char): nat {
    if s == "" then 0 else (if s[0] == c then 1 else 0) + Count(s[1..], c)
  }

  /** Splitting cuts at each separator: the pieces are free of it, and joining undoes it. */
  lemma {:induction false} SplitPieces(s: string, sep: char)
    ensures |Split(s, sep)| == Count(s, sep) + 1
    ensures forall i :: 0 <= i < |Split(s, sep)| ==> sep !in Split(s, sep)[i]
    ensures Join(Split(s, sep), sep) == s
  {
    if s != "" {
      var rest := Split(s[1..], sep);
      SplitPieces(s[1..], sep);
      if s[0] == sep {
        assert ([""] + rest)[1..] == rest;
        assert "" + [sep] + s[1..] == s;
      } else {
        var head := [s[0]] + rest[0];
        assert ([head] + rest[1..])[1..] == rest[1..];
        if |rest| > 1 {
          assert [s[0]] + (rest[0] + [sep] + Join(rest[1..], sep)) == head + [sep] + Join(rest[1..], sep);
        }
        assert [s[0]] + s[1..] == s;
      }
    }
  }

  lemma {:induction false} CountIn(s: string, c: char)
    ensures Count(s, c) == 0 <==> c !in s
  {
    if s != "" {
      CountIn(s[1..], c);
      assert s == [s[0]] + s[1..];
    }
  }

  lemma SplitNone(s: string, sep: char)
    requires sep !in s
    ensures Split(s, sep) == [s]
  {
    CountIn(s, sep);
    SplitPieces(s, sep);
  }

  lemma {:induction false} SplitConcat(a: string, b: string, sep: char)
    ensures Split(a + b, sep) == Glue(Split(a, sep), Split(b, sep))
  {
    var q := Split(b, sep);
    if a == "" {
      assert a + b == b;
      GlueNothing(q);
    } else {
      var rest := Split(a[1..], sep);
      SplitConcat(a[1..], b, sep);
      assert (a + b)[1..] == a[1..] + b;
      hide Glue, Extend;
      if a[0] == sep {
        GlueCons("", rest, q);
      } else {
        GlueExtend(a[0], rest, q);
      }
    }
  }

  /** Text before the first separator is the first piece. */
  lemma SplitFirst(a: string, b: string, sep: char)
    requires sep !in a
    ensures Split(a + [sep] + b, sep) == [a] + Split(b, sep)
  {
    hide Glue;
    SplitNone(a, sep);
    SplitSeparator(b, sep);
    SplitConcat(a, [sep] + b, sep);
    assert a + [sep] + b == a + ([sep] + b);
    GlueSeparated(a, Split(b, sep));
  }

  lemma SplitSeparator(b: string, sep: char)
    ensures Split([sep] + b, sep) == [""] + Split(b, sep)
  {
    assert ([sep] + b)[1..] == b;
  }
}
