/** Which keys of a history of requests were requested recently, counting distinct other keys. */
module RequestHistory {
  import Sequences

  type Key = string

  // ----- The history of requests -----

  /** The position of the last request for k. */
  ghost function LastRequest(h: seq<Key>, k: Key): (i: nat)
    requires k in h
    ensures i < |h| && h[i] == k
  {
    if h[|h| - 1] == k then |h| - 1 else LastRequest(h[..|h| - 1], k)
  }

  /** The keys requested after the last request for k. */
  ghost function RequestedSince(h: seq<Key>, k: Key): set<Key>
    requires k in h
  {
    Sequences.Elements(h[LastRequest(h, k) + 1..])
  }

  /** k was requested, and fewer than cap other keys since. */
  ghost predicate Recent(h: seq<Key>, k: Key, cap: nat) {
    k in h && |RequestedSince(h, k)| < cap
  }

  ghost function RecentKeys(h: seq<Key>, cap: nat): set<Key> {
    set k | k in h && Recent(h, k, cap)
  }

  lemma {:induction false} LastIsLast(h: seq<Key>, k: Key, i: nat)
    requires i < |h| && h[i] == k
    ensures i <= LastRequest(h, k)
  {
    if h[|h| - 1] != k {
      LastIsLast(h[..|h| - 1], k, i);
    }
  }

  lemma SinceIsLater(h: seq<Key>, k: Key, x: Key)
    requires k in h
    ensures x in RequestedSince(h, k) <==> x in h && LastRequest(h, x) > LastRequest(h, k)
  {
    var i := LastRequest(h, k);
    if x in RequestedSince(h, k) {
      var j :| 0 <= j < |h[i + 1..]| && h[i + 1..][j] == x;
      LastIsLast(h, x, i + 1 + j);
    }
    if x in h && LastRequest(h, x) > i {
      assert h[i + 1..][LastRequest(h, x) - i - 1] == x;
    }
  }

  lemma LastAppend(h: seq<Key>, k: Key, x: Key)
    requires x in h + [k]
    ensures LastRequest(h + [k], x) == if x == k then |h| else LastRequest(h, x)
  {
    assert (h + [k])[..|h|] == h;
  }

  lemma SinceAppend(h: seq<Key>, k: Key, x: Key)
    requires x in h + [k]
    ensures RequestedSince(h + [k], x) == if x == k then {} else RequestedSince(h, x) + {k}
  {
    LastAppend(h, k, x);
    if x != k {
      var i := LastRequest(h, x);
      assert (h + [k])[i + 1..] == h[i + 1..] + [k];
    }
  }

  lemma SubsetSize(a: set<Key>, b: set<Key>)
    requires a <= b
    ensures |a| <= |b| && (a != b ==> |a| < |b|)
  {
    assert b == a + (b - a);
    assert |b| == |a| + |b - a|;
  }

  /** Requesting a key that is still recent changes nothing about which keys are recent. */
  lemma RecentAfterHit(h: seq<Key>, k: Key, x: Key, cap: nat)
    requires Recent(h, k, cap)
    ensures Recent(h + [k], x, cap) <==> Recent(h, x, cap)
  {
    if x in h + [k] {
      SinceAppend(h, k, x);
      if x != k {
        if k in RequestedSince(h, x) {
          assert RequestedSince(h, x) + {k} == RequestedSince(h, x);
        } else {
          LaterSince(h, x, k);
          assert |RequestedSince(h, x) + {k}| == |RequestedSince(h, x)| + 1;
        }
      }
    }
  }

  lemma RecentKeysAfterHit(h: seq<Key>, k: Key, cap: nat)
    requires k in RecentKeys(h, cap)
    ensures RecentKeys(h + [k], cap) == RecentKeys(h, cap)
  {
    forall x ensures x in RecentKeys(h + [k], cap) <==> x in RecentKeys(h, cap) {
      RecentAfterHit(h, k, x, cap);
    }
  }

  /** If x was requested after k, everything requested since x was requested since k, and x too. */
  lemma LaterSince(h: seq<Key>, x: Key, k: Key)
    requires x in h && k in h && x != k && k !in RequestedSince(h, x)
    ensures RequestedSince(h, x) + {x} <= RequestedSince(h, k)
    ensures |RequestedSince(h, x)| < |RequestedSince(h, k)|
  {
    SinceIsLater(h, x, k);
    SinceIsLater(h, k, x);
    forall y | y in RequestedSince(h, x) ensures y in RequestedSince(h, k) {
      SinceIsLater(h, x, y);
      SinceIsLater(h, k, y);
    }
    SinceIsLater(h, x, x);
    SubsetSize(RequestedSince(h, x) + {x}, RequestedSince(h, k));
  }

  /** After a request for a key that is not recent, the keys that stay recent had one place less. */
  lemma RecentAfterMiss(h: seq<Key>, k: Key, x: Key, cap: nat)
    requires !Recent(h, k, cap) && x != k
    ensures Recent(h + [k], x, cap) <==> x in h && |RequestedSince(h, x)| + 1 < cap
  {
    if x in h {
      SinceAppend(h, k, x);
      if k in RequestedSince(h, x) {
        SinceIsLater(h, x, k);
        SinceIsLater(h, k, x);
        LaterSince(h, k, x);
        SubsetSize(RequestedSince(h, x), RequestedSince(h, x) + {k});
      }
    }
  }

  // ----- The same as a list: the last distinct keys -----

  function Without(s: seq<Key>, k: Key): seq<Key> {
    if s == [] then [] else if s[0] == k then s[1..] else [s[0]] + Without(s[1..], k)
  }

  /** The distinct keys of a history, the last requested first. */
  ghost function ByRecency(h: seq<Key>): seq<Key> {
    if h == [] then []
    else
      var k := h[|h| - 1];
      [k] + Without(ByRecency(h[..|h| - 1]), k)
  }

  lemma {:induction false} WithoutElements(s: seq<Key>, k: Key)
    requires Sequences.NoDuplicates(s)
    ensures Sequences.NoDuplicates(Without(s, k))
    ensures Sequences.Elements(Without(s, k)) == Sequences.Elements(s) - {k}
  {
    if s != [] {
      assert s == [s[0]] + s[1..];
      Sequences.ElementsCons(s[0], s[1..]);
      assert s[0] !in Sequences.Elements(s[1..]);
      if s[0] != k {
        WithoutElements(s[1..], k);
        Sequences.ElementsCons(s[0], Without(s[1..], k));
        assert s[0] !in Sequences.Elements(Without(s[1..], k));
      }
    }
  }

  lemma {:induction false} WithoutPrefix(s: seq<Key>, k: Key, j: nat) returns (i: nat)
    requires Sequences.NoDuplicates(s) && j < |Without(s, k)|
    ensures i < |s| && Without(s, k)[j] == s[i]
    ensures Sequences.Elements(Without(s, k)[..j]) == Sequences.Elements(s[..i]) - {k}
  {
    if s[0] == k {
      i := j + 1;
      assert s[..i] == [k] + s[1..i];
      assert s[1..][..j] == s[1..i];
      assert k !in Sequences.Elements(s[1..i]);
      Sequences.ElementsCons(k, s[1..i]);
    } else if j == 0 {
      i := 0;
    } else {
      var i' := WithoutPrefix(s[1..], k, j - 1);
      i := i' + 1;
      assert Without(s, k)[..j] == [s[0]] + Without(s[1..], k)[..j - 1];
      assert s[..i] == [s[0]] + s[1..][..i'];
      Sequences.ElementsCons(s[0], s[1..][..i']);
      Sequences.ElementsCons(s[0], Without(s[1..], k)[..j - 1]);
    }
  }

  /** The keys of the list are those of the history, and the position of each is the number
      of other keys requested since. */
  ghost predicate ListsByRecency(r: seq<Key>, h: seq<Key>) {
    && Sequences.NoDuplicates(r)
    && Sequences.Elements(r) == Sequences.Elements(h)
    && (forall i :: 0 <= i < |r| ==> r[i] in h && RequestedSince(h, r[i]) == Sequences.Elements(r[..i]))
  }

  lemma {:induction false} PositionByRecency(h: seq<Key>)
    ensures ListsByRecency(ByRecency(h), h)
  {
    if h != [] {
      PositionByRecency(h[..|h| - 1]);
      assert h == h[..|h| - 1] + [h[|h| - 1]];
      RecencyStep(ByRecency(h[..|h| - 1]), h[..|h| - 1], h[|h| - 1]);
    }
  }

  lemma {:induction false} RecencyStep(r: seq<Key>, h: seq<Key>, k: Key)
    requires ListsByRecency(r, h)
    ensures ListsByRecency([k] + Without(r, k), h + [k])
  {
    hide RequestedSince, Without;
    var w := Without(r, k);
    WithoutElements(r, k);
    Sequences.ElementsCons(k, w);
    assert k !in Sequences.Elements(w);
    SinceAppend(h, k, k);
    assert Sequences.Elements(([k] + w)[..0]) == {};
    forall j | 0 <= j < |w|
      ensures w[j] in h + [k] && RequestedSince(h + [k], w[j]) == Sequences.Elements(([k] + w)[..j + 1])
    {
      var i := WithoutPrefix(r, k, j);
      assert w[j] in Sequences.Elements(w);
      SinceAppend(h, k, w[j]);
      assert ([k] + w)[..j + 1] == [k] + w[..j];
      Sequences.ElementsCons(k, w[..j]);
    }
  }

  lemma RecentPosition(r: seq<Key>, h: seq<Key>, cap: nat, i: nat)
    requires ListsByRecency(r, h) && i < |r|
    ensures Recent(h, r[i], cap) <==> i < cap
  {
    Sequences.DistinctSize(r[..i]);
  }

  /** The recent keys are the last cap distinct keys of the history, or all if there are fewer. */
  lemma RecentAreLastDistinct(h: seq<Key>, cap: nat)
    ensures var r := ByRecency(h);
            RecentKeys(h, cap) == Sequences.Elements(if |r| <= cap then r else r[..cap])
    ensures |RecentKeys(h, cap)| == if |Sequences.Elements(h)| <= cap then |Sequences.Elements(h)| else cap
  {
    hide ByRecency, RequestedSince;
    var r := ByRecency(h);
    var kept := if |r| <= cap then r else r[..cap];
    PositionByRecency(h);
    Sequences.DistinctSize(r);
    Sequences.DistinctSize(kept);
    forall k ensures k in RecentKeys(h, cap) <==> k in kept {
      if k in Sequences.Elements(r) {
        var i :| 0 <= i < |r| && r[i] == k;
        RecentPosition(r, h, cap, i);
        if i < cap {
          assert kept[i] == k;
        }
      } else {
        assert k !in Sequences.Elements(h);
      }
    }
  }
}
