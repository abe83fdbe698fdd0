/**
 * The outcome of the boot order update in definitions where devices do not lie within devices,
 * and the machines it cannot be used for.
 */
module BootOrderOutcome {
  import opened Options
  import opened Sequences
  import opened XmlTree
  import opened BootDevices
  import opened BootOrderEditing
  import opened BootOrderDescendants
  import opened BootOrderUpdate

  // ----- Devices right below <devices> -----

  function UpdatedNode(e: Node, chosen: seq<Device>): Node {
    if Bootable(e) then WithOrder(e, OrderFor(e, chosen)) else e
  }

  function UpdatedNodes(nodes: seq<Node>, chosen: seq<Device>): (r: seq<Node>)
    ensures |r| == |nodes| && forall i :: 0 <= i < |r| ==> r[i] == UpdatedNode(nodes[i], chosen)
  {
    seq(|nodes|, i requires 0 <= i < |nodes| => UpdatedNode(nodes[i], chosen))
  }

  /** Updated as far as one loop goes. */
  function OneKind(nodes: seq<Node>, tag: string, chosen: seq<Device>): (r: seq<Node>)
    requires tag in KINDS
    ensures |r| == |nodes|
    ensures forall i :: 0 <= i < |r| ==> r[i] == if OfKind(nodes[i], tag) then UpdatedNode(nodes[i], chosen) else nodes[i]
  {
    seq(|nodes|, i requires 0 <= i < |nodes| => if OfKind(nodes[i], tag) then UpdatedNode(nodes[i], chosen) else nodes[i])
  }

  predicate OfKind(e: Node, tag: string) {
    e.Element? && e.tag == tag
  }

  /** No element of the four kinds lies within another element. */
  predicate Flat(nodes: seq<Node>) {
    forall n :: n in nodes ==> FlatNode(n)
  }

  predicate FlatNode(n: Node) {
    n.Element? ==>
      !Within(n.nodes, "disk") && !Within(n.nodes, "interface") && !Within(n.nodes, "redirdev") && !Within(n.nodes, "hostdev")
  }

  lemma FlatFor(n: Node, tag: string)
    requires FlatNode(n) && tag in KINDS
    ensures DescendantsOf(n, tag) == if OfKind(n, tag) then [n] else []
  {
    hide Descendants;
  }

  lemma UpdatedFlat(e: Node, chosen: seq<Device>)
    requires FlatNode(e)
    ensures FlatNode(UpdatedNode(e, chosen))
    ensures e.Element? ==> UpdatedNode(e, chosen).Element? && UpdatedNode(e, chosen).tag == e.tag
  {
    hide Descendants, WithOrder, OrderFor;
    if Bootable(e) {
      var order := OrderFor(e, chosen);
      WithOrderCount(e, order, "disk");
      WithOrderCount(e, order, "interface");
      WithOrderCount(e, order, "redirdev");
      WithOrderCount(e, order, "hostdev");
    }
  }

  /** Replacing behind a part of the nodes. */
  lemma {:induction false} ReplaceBehind(a: seq<Node>, b: seq<Node>, tag: string, i: nat, other: Node)
    requires |Descendants(a, tag)| <= i < |Descendants(a + b, tag)|
    ensures i - |Descendants(a, tag)| < |Descendants(b, tag)|
    ensures ReplaceNth(a + b, tag, i, other) == a + ReplaceNth(b, tag, i - |Descendants(a, tag)|, other)
  {
    hide Descendants, DescendantsOf, ReplaceNth, ReplaceIn;
    DescendantsConcat(a, b, tag);
    NoDescendants(tag);
    if a == [] {
      assert a + b == b;
      assert a + ReplaceNth(b, tag, i, other) == ReplaceNth(b, tag, i, other);
    } else {
      TailConcat(a, b);
      DescendantsUnfold(a, tag);
      DescendantsConcat(a[1..], b, tag);
      ReplaceUnfold(a + b, tag, i, other);
      ReplaceBehind(a[1..], b, tag, i - |DescendantsOf(a[0], tag)|, other);
      HeadTail(a, ReplaceNth(b, tag, i - |Descendants(a, tag)|, other));
    }
  }

  lemma HeadTail(a: seq<Node>, x: seq<Node>)
    requires a != []
    ensures [a[0]] + (a[1..] + x) == a + x
  {
  }

  lemma OneMore(a: seq<Node>, n: Node, x: seq<Node>)
    ensures a + [n] + x == a + ([n] + x)
  {
  }

  lemma ReplaceHead(b: seq<Node>, tag: string, other: Node)
    requires b != [] && DescendantsOf(b[0], tag) == [b[0]] && OfKind(b[0], tag)
    ensures |Descendants(b, tag)| > 0 && Descendants(b, tag)[0] == b[0]
    ensures ReplaceNth(b, tag, 0, other) == [other] + b[1..]
  {
    DescendantsUnfold(b, tag);
  }

  predicate KindFits(nodes: seq<Node>, tag: string)
    requires tag in KINDS
  {
    forall n :: n in nodes && OfKind(n, tag) ==> Bootable(n) && Locatable(n)
  }

  /** One loop over flat nodes, of which the first part is done. */
  lemma {:induction false} LoopFlat(done: seq<Node>, rest: seq<Node>, tag: string, chosen: seq<Device>)
    requires tag in KINDS && Flat(done) && Flat(rest) && KindFits(rest, tag)
    ensures UpdateKind(done + rest, tag, |Descendants(done, tag)|, chosen) == Some(done + OneKind(rest, tag, chosen))
    decreases |rest|
  {
    hide Descendants, Locatable, OrderFor, WithOrder, ReplaceNth, Bootable, FlatNode, OneKind, UpdatedNode, DescendantsOf,
         UpdateKind;
    NoDescendants(tag);
    var i := |Descendants(done, tag)|;
    if rest == [] {
      assert done + rest == done && done + OneKind(rest, tag, chosen) == done;
      LoopEnd(done, tag, chosen);
    } else {
      var n, tail := rest[0], rest[1..];
      FlatFor(n, tag);
      BootableTags();
      DescendantsUnfold(rest, tag);
      DescendantsConcat(done, rest, tag);
      OneKindCons(rest, tag, chosen);
      if OfKind(n, tag) {
        var other := UpdatedNode(n, chosen);
        LoopTurn(done, rest, tag, chosen);
        UpdatedFlat(n, chosen);
        FlatFor(other, tag);
        DescendantsConcat(done, [other], tag);
        DescendantsUnfold([other], tag);
        LoopFlat(done + [other], tail, tag, chosen);
        OneMore(done, other, tail);
        OneMore(done, other, OneKind(tail, tag, chosen));
      } else {
        DescendantsConcat(done, [n], tag);
        DescendantsUnfold([n], tag);
        LoopFlat(done + [n], tail, tag, chosen);
        OneMore(done, n, tail);
        assert [n] + tail == rest;
        OneMore(done, n, OneKind(tail, tag, chosen));
      }
    }
  }

  lemma LoopEnd(nodes: seq<Node>, tag: string, chosen: seq<Device>)
    requires tag in KINDS
    ensures UpdateKind(nodes, tag, |Descendants(nodes, tag)|, chosen) == Some(nodes)
  {
  }

  lemma OneKindCons(nodes: seq<Node>, tag: string, chosen: seq<Device>)
    requires tag in KINDS && nodes != []
    ensures OneKind(nodes, tag, chosen)
         == [if OfKind(nodes[0], tag) then UpdatedNode(nodes[0], chosen) else nodes[0]] + OneKind(nodes[1..], tag, chosen)
  {
    hide UpdatedNode;
  }

  lemma LoopTurn(done: seq<Node>, rest: seq<Node>, tag: string, chosen: seq<Device>)
    requires tag in KINDS && rest != [] && OfKind(rest[0], tag) && DescendantsOf(rest[0], tag) == [rest[0]]
    requires Bootable(rest[0]) && Locatable(rest[0])
    ensures var i := |Descendants(done, tag)|;
            UpdateKind(done + rest, tag, i, chosen)
            == UpdateKind(done + ([UpdatedNode(rest[0], chosen)] + rest[1..]), tag, i + 1, chosen)
  {
    hide Descendants, Locatable, OrderFor, WithOrder, ReplaceNth, DescendantsOf;
    var i, e := |Descendants(done, tag)|, rest[0];
    DescendantsConcat(done, rest, tag);
    ReplaceHead(rest, tag, UpdatedNode(e, chosen));
    assert Descendants(done + rest, tag)[i] == e;
    ReplaceBehind(done, rest, tag, i, UpdatedNode(e, chosen));
  }

  lemma OneKindFlat(nodes: seq<Node>, tag: string, chosen: seq<Device>)
    requires tag in KINDS && Flat(nodes)
    ensures Flat(OneKind(nodes, tag, chosen))
  {
    hide UpdatedNode, FlatNode;
    forall n | n in OneKind(nodes, tag, chosen) ensures FlatNode(n) {
      var i :| 0 <= i < |nodes| && n == OneKind(nodes, tag, chosen)[i];
      assert nodes[i] in nodes;
      UpdatedFlat(nodes[i], chosen);
    }
  }

  lemma OneKindFits(nodes: seq<Node>, tag: string, chosen: seq<Device>, next: string)
    requires tag in KINDS && next in KINDS && tag != next && Flat(nodes) && KindFits(nodes, next)
    ensures KindFits(OneKind(nodes, tag, chosen), next)
  {
    hide UpdatedNode, FlatNode, Locatable, Bootable;
    forall n | n in OneKind(nodes, tag, chosen) && OfKind(n, next) ensures Bootable(n) && Locatable(n) {
      var i :| 0 <= i < |nodes| && n == OneKind(nodes, tag, chosen)[i];
      assert nodes[i] in nodes;
      UpdatedFlat(nodes[i], chosen);
    }
  }

  lemma {:induction false} DirectDescendant(nodes: seq<Node>, e: Node)
    requires e in nodes && e.Element?
    ensures e in Descendants(nodes, e.tag)
  {
    DescendantsUnfold(nodes, e.tag);
    if e != nodes[0] {
      DirectDescendant(nodes[1..], e);
    }
  }

  lemma LocatableFits(nodes: seq<Node>, tag: string)
    requires tag in KINDS && KindLocatable(nodes, tag, 0)
    ensures KindFits(nodes, tag)
  {
    hide Descendants, Locatable, Bootable;
    BootableTags();
    forall n | n in nodes && OfKind(n, tag) ensures Bootable(n) && Locatable(n) {
      DirectDescendant(nodes, n);
      var j :| 0 <= j < |Descendants(nodes, tag)| && Descendants(nodes, tag)[j] == n;
      assert LocatableAt(nodes, tag, j);
    }
  }

  /** In a flat definition the update, if it does not throw, gives each device right below
      <devices> its order or none. */
  lemma WrittenFlat(nodes: seq<Node>, chosen: seq<Device>)
    requires Flat(nodes) && AllLocatable(nodes)
    ensures Written(nodes, chosen) == Some(UpdatedNodes(nodes, chosen))
  {
    hide UpdateKind, Flat, KindFits, OneKind, Descendants, KindLocatable, UpdatedNode;
    LocatableFits(nodes, "disk");
    LocatableFits(nodes, "interface");
    LocatableFits(nodes, "redirdev");
    LocatableFits(nodes, "hostdev");
    WholeLoop(nodes, "disk", chosen);
    var disks := OneKind(nodes, "disk", chosen);
    OneKindFits(nodes, "disk", chosen, "interface");
    OneKindFits(nodes, "disk", chosen, "redirdev");
    OneKindFits(nodes, "disk", chosen, "hostdev");
    WholeLoop(disks, "interface", chosen);
    var interfaces := OneKind(disks, "interface", chosen);
    OneKindFits(disks, "interface", chosen, "redirdev");
    OneKindFits(disks, "interface", chosen, "hostdev");
    WholeLoop(interfaces, "redirdev", chosen);
    var redirdevs := OneKind(interfaces, "redirdev", chosen);
    OneKindFits(interfaces, "redirdev", chosen, "hostdev");
    WholeLoop(redirdevs, "hostdev", chosen);
    FourKinds(nodes, chosen);
  }

  lemma WholeLoop(nodes: seq<Node>, tag: string, chosen: seq<Device>)
    requires tag in KINDS && Flat(nodes) && KindFits(nodes, tag)
    ensures UpdateKind(nodes, tag, 0, chosen) == Some(OneKind(nodes, tag, chosen))
    ensures Flat(OneKind(nodes, tag, chosen))
  {
    hide UpdateKind, OneKind, FlatNode, KindFits;
    LoopFlat([], nodes, tag, chosen);
    NoDescendants(tag);
    OneKindFlat(nodes, tag, chosen);
    assert [] + nodes == nodes && [] + OneKind(nodes, tag, chosen) == OneKind(nodes, tag, chosen);
  }

  lemma NoDescendants(tag: string)
    ensures Descendants([], tag) == []
  {
  }

  lemma FourKinds(nodes: seq<Node>, chosen: seq<Device>)
    ensures OneKind(OneKind(OneKind(OneKind(nodes, "disk", chosen), "interface", chosen), "redirdev", chosen), "hostdev", chosen)
         == UpdatedNodes(nodes, chosen)
  {
    hide UpdatedNodes, OneKind, WithOrder, OrderFor;
    var a := OneKind(nodes, "disk", chosen);
    var b := OneKind(a, "interface", chosen);
    var c := OneKind(b, "redirdev", chosen);
    var d := OneKind(c, "hostdev", chosen);
    forall i | 0 <= i < |nodes| ensures d[i] == UpdatedNode(nodes[i], chosen) {
      OneOfFour(nodes[i], chosen);
    }
  }

  lemma OneOfFour(e: Node, chosen: seq<Device>)
    ensures UpdatedNode(e, chosen).Element? == e.Element? && (e.Element? ==> UpdatedNode(e, chosen).tag == e.tag)
    ensures Bootable(e) <==> OfKind(e, "disk") || OfKind(e, "interface") || OfKind(e, "redirdev") || OfKind(e, "hostdev")
    ensures !Bootable(e) ==> UpdatedNode(e, chosen) == e
  {
    hide WithOrder, OrderFor;
  }

  // ----- Network host devices -----

  /** The <interface> that a network host device has within its <source>. */
  function SourceInterface(e: Node): Option<Node> {
    GetChild(Some(e), [Tag("source"), Tag("interface")])
  }

  lemma {:induction false} FirstAmong(elements: seq<Node>, m: Match)
    ensures FirstMatching(elements, m).Some? ==>
              FirstMatching(elements, m).value in elements && ElementMatches(FirstMatching(elements, m).value, m)
  {
    hide ElementMatches;
    if elements != [] {
      FirstAmong(elements[1..], m);
    }
  }

  lemma FirstIsChild(n: Node, tag: string)
    requires First(n, tag).Some?
    ensures var c := First(n, tag).value; n.Element? && c in n.nodes && c.Element? && c.tag == tag
  {
    FirstAmong(ElementNodes(n), Tag(tag));
    if n.Element? {
      ChildIsNode(n.nodes, First(n, tag).value);
    }
  }

  lemma {:induction false} ChildIsNode(nodes: seq<Node>, c: Node)
    requires c in Children(nodes)
    ensures c in nodes
  {
    if nodes != [] && c != nodes[0] {
      ChildrenUnfold(nodes);
      ChildIsNode(nodes[1..], c);
    }
  }

  /** What lies within a node lies within the nodes it is one of. */
  lemma {:induction false} WithinNode(nodes: seq<Node>, e: Node, tag: string, x: Node)
    requires e in nodes && e.Element? && x in Descendants(e.nodes, tag)
    ensures x in Descendants(nodes, tag)
  {
    DescendantsUnfold(nodes, tag);
    if e != nodes[0] {
      WithinNode(nodes[1..], e, tag, x);
    }
  }

  lemma InterfaceFound(nodes: seq<Node>, e: Node)
    requires e in nodes && e.Element? && SourceInterface(e).Some?
    ensures var n := SourceInterface(e).value;
            n.Element? && n.tag == "interface" && n in Descendants(nodes, "interface")
  {
    hide First, FirstMatching, Descendants, GetChild;
    GetChildFirstTwice(e, "source", "interface");
    var source := First(e, "source").value;
    FirstIsChild(e, "source");
    FirstIsChild(source, "interface");
    var n := SourceInterface(e).value;
    DirectDescendant(source.nodes, n);
    WithinNode(e.nodes, source, "interface", n);
    WithinNode(nodes, e, "interface", n);
  }

  /** A machine with a network host device, whose <interface> has no <mac>, cannot be given any
      boot order: the loop over interfaces comes upon it and throws. */
  lemma NetHostDevicesBlock(nodes: seq<Node>, e: Node, chosen: seq<Device>)
    requires Hollow(nodes) && e in nodes && e.Element?
    requires SourceInterface(e).Some? && FirstDescendant(SourceInterface(e).value, "mac").None?
    ensures Written(nodes, chosen) == None
  {
    hide Written, Descendants, Hollow, SourceInterface, Locatable, LocatableAt;
    WrittenExactly(nodes, chosen);
    InterfaceFound(nodes, e);
    var n := SourceInterface(e).value;
    var j :| 0 <= j < |Descendants(nodes, "interface")| && Descendants(nodes, "interface")[j] == n;
    LocatableHere(nodes, "interface", j);
    InterfaceLocatable(n);
  }

  lemma InterfaceLocatable(n: Node)
    requires n.Element? && n.tag == "interface"
    ensures Bootable(n) && (Locatable(n) <==> FirstDescendant(n, "mac").Some?)
  {
  }

  /** If nothing else is in the way, it can exactly if that <interface> has a <mac>. */
  lemma NetHostDeviceExactly(nodes: seq<Node>, e: Node, chosen: seq<Device>)
    requires Hollow(nodes) && e in nodes && e.Element? && SourceInterface(e).Some?
    requires forall tag, j :: tag in KINDS && 0 <= j < |Descendants(nodes, tag)| ==>
                                Descendants(nodes, tag)[j] == SourceInterface(e).value || LocatableAt(nodes, tag, j)
    ensures Written(nodes, chosen).Some? <==> FirstDescendant(SourceInterface(e).value, "mac").Some?
  {
    hide Written, Descendants, Hollow, SourceInterface, Locatable, LocatableAt, FirstDescendant;
    var n := SourceInterface(e).value;
    if FirstDescendant(n, "mac").None? {
      NetHostDevicesBlock(nodes, e, chosen);
    } else {
      WrittenExactly(nodes, chosen);
      InterfaceFound(nodes, e);
      forall tag, j | tag in KINDS && 0 <= j < |Descendants(nodes, tag)| ensures LocatableAt(nodes, tag, j) {
        LocatableHere(nodes, tag, j);
        if Descendants(nodes, tag)[j] == n {
          InterfaceLocatable(n);
        }
      }
    }
  }
}
