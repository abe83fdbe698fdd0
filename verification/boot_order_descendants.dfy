/**
 * Elements at any depth: replacing one in place, and what that leaves of a document in which
 * <boot> elements hold no elements.
 */
module BootOrderDescendants {
  import opened Options
  import opened Sequences
  import opened XmlTree
  import opened BootOrderEditing
  import Numerals

  // ----- Replacing the i-th element with a tag -----

  function ReplaceNth(nodes: seq<Node>, tag: string, i: nat, other: Node): seq<Node>
    requires i < |Descendants(nodes, tag)|
  {
    DescendantsUnfold(nodes, tag);
    var n := |DescendantsOf(nodes[0], tag)|;
    if i < n then [ReplaceIn(nodes[0], tag, i, other)] + nodes[1..]
    else [nodes[0]] + ReplaceNth(nodes[1..], tag, i - n, other)
  }

  function ReplaceIn(n: Node, tag: string, i: nat, other: Node): Node
    requires i < |DescendantsOf(n, tag)|
  {
    if n.Text? then n
    else if n.tag != tag then n.(nodes := ReplaceNth(n.nodes, tag, i, other))
    else if i == 0 then other
    else n.(nodes := ReplaceNth(n.nodes, tag, i - 1, other))
  }

  lemma ReplaceUnfold(nodes: seq<Node>, tag: string, i: nat, other: Node)
    requires i < |Descendants(nodes, tag)|
    ensures nodes != []
    ensures var n := |DescendantsOf(nodes[0], tag)|;
            && |Descendants(nodes, tag)| == n + |Descendants(nodes[1..], tag)|
            && (i < n ==> ReplaceNth(nodes, tag, i, other) == [ReplaceIn(nodes[0], tag, i, other)] + nodes[1..]
                          && Descendants(nodes, tag)[i] == DescendantsOf(nodes[0], tag)[i])
            && (i >= n ==> ReplaceNth(nodes, tag, i, other) == [nodes[0]] + ReplaceNth(nodes[1..], tag, i - n, other)
                           && Descendants(nodes, tag)[i] == Descendants(nodes[1..], tag)[i - n])
  {
    DescendantsUnfold(nodes, tag);
  }

  /** The elements found are elements with the tag. */
  lemma {:induction false} DescendantTag(nodes: seq<Node>, tag: string, e: Node)
    requires e in Descendants(nodes, tag)
    ensures e.Element? && e.tag == tag
  {
    DescendantsUnfold(nodes, tag);
    if e in DescendantsOf(nodes[0], tag) {
      if e in Descendants(nodes[0].nodes, tag) {
        DescendantTag(nodes[0].nodes, tag, e);
      }
    } else {
      DescendantTag(nodes[1..], tag, e);
    }
  }

  lemma DescendantAt(nodes: seq<Node>, tag: string, i: nat)
    requires i < |Descendants(nodes, tag)|
    ensures Descendants(nodes, tag)[i].Element? && Descendants(nodes, tag)[i].tag == tag
  {
    DescendantTag(nodes, tag, Descendants(nodes, tag)[i]);
  }

  /** Replacing an element by one that looks the same without <boot> elements keeps the rest. */
  lemma {:induction false} ReplaceKeepsRest(nodes: seq<Node>, tag: string, i: nat, other: Node)
    requires i < |Descendants(nodes, tag)|
    requires StripNode(other, BOOT) == StripNode(Descendants(nodes, tag)[i], BOOT)
    ensures StripTag(ReplaceNth(nodes, tag, i, other), BOOT) == StripTag(nodes, BOOT)
  {
    ReplaceUnfold(nodes, tag, i, other);
    var n, rest := |DescendantsOf(nodes[0], tag)|, nodes[1..];
    if i < n {
      ReplaceInKeepsRest(nodes[0], tag, i, other);
    } else {
      ReplaceKeepsRest(rest, tag, i - n, other);
    }
    hide StripTag, StripNode, ReplaceNth, ReplaceIn, Descendants, DescendantsOf;
    StripUnfold(nodes, BOOT);
    StripUnfold(ReplaceNth(nodes, tag, i, other), BOOT);
    if i < n {
      TailConcat([ReplaceIn(nodes[0], tag, i, other)], rest);
      assert [ReplaceIn(nodes[0], tag, i, other)][1..] + rest == rest;
    } else {
      var tail := ReplaceNth(rest, tag, i - n, other);
      TailConcat([nodes[0]], tail);
      assert [nodes[0]][1..] + tail == tail;
    }
  }

  lemma {:induction false} ReplaceInKeepsRest(n: Node, tag: string, i: nat, other: Node)
    requires i < |DescendantsOf(n, tag)|
    requires StripNode(other, BOOT) == StripNode(DescendantsOf(n, tag)[i], BOOT)
    ensures StripNode(ReplaceIn(n, tag, i, other), BOOT) == StripNode(n, BOOT)
  {
    if n.Element? {
      if n.tag != tag {
        ReplaceKeepsRest(n.nodes, tag, i, other);
      } else if i > 0 {
        ReplaceKeepsRest(n.nodes, tag, i - 1, other);
      }
    }
  }

  /** How many elements with the tag there are after a replacement. */
  lemma {:induction false} ReplaceCount(nodes: seq<Node>, tag: string, i: nat, other: Node)
    requires i < |Descendants(nodes, tag)|
    ensures |Descendants(ReplaceNth(nodes, tag, i, other), tag)| + |DescendantsOf(Descendants(nodes, tag)[i], tag)|
         == |Descendants(nodes, tag)| + |DescendantsOf(other, tag)|
  {
    ReplaceUnfold(nodes, tag, i, other);
    var n, rest := |DescendantsOf(nodes[0], tag)|, nodes[1..];
    if i < n {
      ReplaceInCount(nodes[0], tag, i, other);
    } else {
      ReplaceCount(rest, tag, i - n, other);
    }
    hide ReplaceNth, ReplaceIn, Descendants, DescendantsOf;
    DescendantsUnfold(ReplaceNth(nodes, tag, i, other), tag);
    if i < n {
      assert ([ReplaceIn(nodes[0], tag, i, other)] + rest)[1..] == rest;
    } else {
      assert ([nodes[0]] + ReplaceNth(rest, tag, i - n, other))[1..] == ReplaceNth(rest, tag, i - n, other);
    }
  }

  lemma {:induction false} ReplaceInCount(n: Node, tag: string, i: nat, other: Node)
    requires i < |DescendantsOf(n, tag)|
    ensures |DescendantsOf(ReplaceIn(n, tag, i, other), tag)| + |DescendantsOf(DescendantsOf(n, tag)[i], tag)|
         == |DescendantsOf(n, tag)| + |DescendantsOf(other, tag)|
  {
    NodeUnfold(n, tag, i);
    NodeUnfold(ReplaceIn(n, tag, i, other), tag, 0);
    if n.Element? && n.tag != tag {
      ReplaceCount(n.nodes, tag, i, other);
    } else if n.Element? && i > 0 {
      ReplaceCount(n.nodes, tag, i - 1, other);
    }
    hide Descendants, DescendantsOf, ReplaceNth;
  }

  lemma NodeUnfold(n: Node, tag: string, i: nat)
    ensures n.Text? ==> DescendantsOf(n, tag) == []
    ensures n.Element? && n.tag != tag ==> DescendantsOf(n, tag) == Descendants(n.nodes, tag)
    ensures n.Element? && n.tag == tag ==>
              |DescendantsOf(n, tag)| == |Descendants(n.nodes, tag)| + 1 && DescendantsOf(n, tag)[0] == n
              && (0 < i < |DescendantsOf(n, tag)| ==> DescendantsOf(n, tag)[i] == Descendants(n.nodes, tag)[i - 1])
  {
  }

  /** Changing a <boot> element adds no elements of other kinds. */
  lemma {:induction false} EditCount(nodes: seq<Node>, order: OptString, tag: string)
    requires tag != BOOT
    ensures |Descendants(EditFirst(nodes, BOOT, order), tag)| <= |Descendants(nodes, tag)|
  {
    if nodes != [] {
      var n, rest := nodes[0], nodes[1..];
      EditUnfold(nodes, BOOT, order);
      EditCount(rest, order, tag);
      EditNodeCount(n, order, tag);
      hide Descendants, DescendantsOf, EditNode, EditFirst;
      DescendantsUnfold(nodes, tag);
      DescendantsConcat(EditNode(n, BOOT, order), rest, tag);
      DescendantsConcat([n], EditFirst(rest, BOOT, order), tag);
    }
  }

  lemma {:induction false} EditNodeCount(n: Node, order: OptString, tag: string)
    requires tag != BOOT
    ensures |Descendants(EditNode(n, BOOT, order), tag)| <= |DescendantsOf(n, tag)|
  {
    if n.Text? {
      DescendantsUnfold([n], tag);
    } else if n.tag != BOOT {
      EditCount(n.nodes, order, tag);
      DescendantsUnfold([n.(nodes := EditFirst(n.nodes, BOOT, order))], tag);
    } else if order.Some? {
      DescendantsUnfold([SetAttribute(n, "order", order.value)], tag);
    }
  }

  lemma WithOrderCount(e: Node, order: Option<nat>, tag: string)
    requires e.Element? && tag != BOOT
    ensures |Descendants(WithOrder(e, order).nodes, tag)| <= |Descendants(e.nodes, tag)|
    ensures |DescendantsOf(WithOrder(e, order), tag)| <= |DescendantsOf(e, tag)|
  {
    hide Descendants, EditFirst, Within;
    var text := if order.Some? then Some(Numerals.Decimal(order.value)) else None;
    EditCount(e.nodes, text, tag);
    if order.Some? {
      var boot := BootElement(text.value);
      DescendantsConcat(e.nodes, [boot], tag);
      BootElementAlone(boot, tag);
    }
  }

  lemma BootElementAlone(boot: Node, tag: string)
    requires boot.Element? && boot.tag == BOOT && boot.nodes == [] && tag != BOOT
    ensures Descendants([boot], tag) == []
  {
    DescendantsUnfold([boot], tag);
  }

  // ----- Hollow <boot> elements -----

  /** No <boot> element, at any depth, holds elements. */
  predicate Hollow(nodes: seq<Node>) {
    nodes == [] || (HollowNode(nodes[0]) && Hollow(nodes[1..]))
  }

  predicate HollowNode(n: Node) {
    n.Element? ==> (n.tag == BOOT ==> Children(n.nodes) == []) && Hollow(n.nodes)
  }

  lemma {:induction false} HollowConcat(a: seq<Node>, b: seq<Node>)
    ensures Hollow(a + b) <==> Hollow(a) && Hollow(b)
  {
    if a == [] {
      assert a + b == b;
    } else {
      TailConcat(a, b);
      HollowConcat(a[1..], b);
    }
  }

  lemma HollowOne(n: Node)
    ensures Hollow([n]) <==> HollowNode(n)
  {
    assert [n][1..] == [];
  }

  lemma {:induction false} EditHollow(nodes: seq<Node>, order: OptString)
    requires Hollow(nodes)
    ensures Hollow(EditFirst(nodes, BOOT, order))
  {
    if nodes != [] {
      var n, rest := nodes[0], nodes[1..];
      EditUnfold(nodes, BOOT, order);
      EditHollow(rest, order);
      EditNodeHollow(n, order);
      hide EditNode, EditFirst, HollowNode;
      HollowConcat(EditNode(n, BOOT, order), rest);
      HollowConcat([n], EditFirst(rest, BOOT, order));
      HollowOne(n);
    }
  }

  lemma {:induction false} EditNodeHollow(n: Node, order: OptString)
    requires HollowNode(n)
    ensures Hollow(EditNode(n, BOOT, order))
  {
    if n.Text? {
      HollowOne(n);
    } else if n.tag != BOOT {
      EditHollow(n.nodes, order);
      HollowOne(n.(nodes := EditFirst(n.nodes, BOOT, order)));
    } else if order.Some? {
      HollowOne(SetAttribute(n, "order", order.value));
    }
  }

  lemma {:induction false} WithOrderHollow(e: Node, order: Option<nat>)
    requires e.Element? && e.tag != BOOT && HollowNode(e)
    ensures HollowNode(WithOrder(e, order))
  {
    hide EditFirst, Within;
    if order.Some? {
      var boot := BootElement(Numerals.Decimal(order.value));
      EditHollow(e.nodes, Some(Numerals.Decimal(order.value)));
      HollowConcat(e.nodes, [boot]);
      HollowOne(boot);
    } else {
      EditHollow(e.nodes, None);
    }
  }

  /** What is found in a hollow document is hollow. */
  lemma {:induction false} DescendantHollow(nodes: seq<Node>, tag: string, e: Node)
    requires Hollow(nodes) && e in Descendants(nodes, tag)
    ensures HollowNode(e)
  {
    DescendantsUnfold(nodes, tag);
    if e in DescendantsOf(nodes[0], tag) {
      if e in Descendants(nodes[0].nodes, tag) {
        DescendantHollow(nodes[0].nodes, tag, e);
      }
    } else {
      DescendantHollow(nodes[1..], tag, e);
    }
  }

  lemma {:induction false} ReplaceHollow(nodes: seq<Node>, tag: string, i: nat, other: Node)
    requires Hollow(nodes) && tag != BOOT && i < |Descendants(nodes, tag)| && HollowNode(other)
    ensures Hollow(ReplaceNth(nodes, tag, i, other))
  {
    ReplaceUnfold(nodes, tag, i, other);
    var n, rest := |DescendantsOf(nodes[0], tag)|, nodes[1..];
    if i < n {
      ReplaceInHollow(nodes[0], tag, i, other);
      HollowOne(ReplaceIn(nodes[0], tag, i, other));
      HollowConcat([ReplaceIn(nodes[0], tag, i, other)], rest);
    } else {
      ReplaceHollow(rest, tag, i - n, other);
      HollowOne(nodes[0]);
      HollowConcat([nodes[0]], ReplaceNth(rest, tag, i - n, other));
    }
  }

  lemma {:induction false} ReplaceInHollow(n: Node, tag: string, i: nat, other: Node)
    requires HollowNode(n) && tag != BOOT && i < |DescendantsOf(n, tag)| && HollowNode(other)
    ensures HollowNode(ReplaceIn(n, tag, i, other))
  {
    if n.Element? {
      if n.tag == BOOT {
        NoElementsWithin(n.nodes, tag);
      }
      if n.tag != tag {
        ReplaceHollow(n.nodes, tag, i, other);
      } else if i > 0 {
        ReplaceHollow(n.nodes, tag, i - 1, other);
      }
    }
  }

  // ----- Elements without their <boot> elements -----

  function Stripped(e: Node): Node {
    if e.Element? then e.(nodes := StripTag(e.nodes, BOOT)) else e
  }

  function AllStripped(elems: seq<Node>): (r: seq<Node>)
    ensures |r| == |elems| && forall i :: 0 <= i < |r| ==> r[i] == Stripped(elems[i])
  {
    seq(|elems|, i requires 0 <= i < |elems| => Stripped(elems[i]))
  }

  lemma AllStrippedConcat(a: seq<Node>, b: seq<Node>)
    ensures AllStripped(a + b) == AllStripped(a) + AllStripped(b)
  {
    hide Stripped;
  }

  /** Without <boot> elements a hollow document has the same elements of other kinds, each
      without its <boot> elements. */
  lemma {:induction false} StrippedDescendants(nodes: seq<Node>, tag: string)
    requires Hollow(nodes) && tag != BOOT
    ensures Descendants(StripTag(nodes, BOOT), tag) == AllStripped(Descendants(nodes, tag))
  {
    if nodes == [] {
      assert AllStripped([]) == [];
    } else {
      StrippedNode(nodes[0], tag);
      StrippedDescendants(nodes[1..], tag);
      hide StripTag, StripNode, Descendants, DescendantsOf, AllStripped;
      StripUnfold(nodes, BOOT);
      DescendantsUnfold(nodes, tag);
      DescendantsConcat(StripNode(nodes[0], BOOT), StripTag(nodes[1..], BOOT), tag);
      AllStrippedConcat(DescendantsOf(nodes[0], tag), Descendants(nodes[1..], tag));
    }
  }

  lemma {:induction false} StrippedNode(n: Node, tag: string)
    requires HollowNode(n) && tag != BOOT
    ensures Descendants(StripNode(n, BOOT), tag) == AllStripped(DescendantsOf(n, tag))
  {
    if n.Text? {
      DescendantsUnfold([n], tag);
      assert AllStripped([]) == [];
    } else if n.tag == BOOT {
      NoElementsWithin(n.nodes, tag);
      assert AllStripped([]) == [];
    } else {
      StrippedDescendants(n.nodes, tag);
      DescendantsUnfold([Stripped(n)], tag);
      var own := if n.tag == tag then [n] else [];
      AllStrippedConcat(own, Descendants(n.nodes, tag));
      assert AllStripped(own) == if n.tag == tag then [Stripped(n)] else [];
    }
  }
}
