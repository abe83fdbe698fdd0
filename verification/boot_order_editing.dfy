/**
 * Editing <boot> elements in place: removing them all, and giving a device element a boot
 * order or none. What such edits leave alone.
 */
module BootOrderEditing {
  import opened Options
  import opened Sequences
  import opened XmlTree
  import opened BootDevices
  import Numerals

  const BOOT := "boot"

  // ----- Removing all elements with a tag -----

  /** The nodes without any element with the tag, at any depth. */
  function StripTag(nodes: seq<Node>, tag: string): seq<Node> {
    if nodes == [] then []
    else StripNode(nodes[0], tag) + StripTag(nodes[1..], tag)
  }

  function StripNode(n: Node, tag: string): seq<Node> {
    match n
    case Text(_) => [n]
    case Element(t, attrs, inner) => if t == tag then [] else [Element(t, attrs, StripTag(inner, tag))]
  }

  /** The first descendant with the tag gets a new order, or is removed. */
  function EditFirst(nodes: seq<Node>, tag: string, order: OptString): seq<Node> {
    if nodes == [] then []
    else if Within([nodes[0]], tag) then EditNode(nodes[0], tag, order) + nodes[1..]
    else [nodes[0]] + EditFirst(nodes[1..], tag, order)
  }

  function EditNode(n: Node, tag: string, order: OptString): seq<Node> {
    match n
    case Text(_) => [n]
    case Element(t, attrs, inner) =>
      if t != tag then [Element(t, attrs, EditFirst(inner, tag, order))]
      else if order.Some? then [SetAttribute(n, "order", order.value)]
      else []
  }

  /** Is there a descendant with the tag? */
  predicate Within(nodes: seq<Node>, tag: string) {
    Descendants(nodes, tag) != []
  }

  /** The descendants a single node contributes, itself included. */
  function DescendantsOf(n: Node, tag: string): seq<Node> {
    match n
    case Text(_) => []
    case Element(t, _, inner) => (if t == tag then [n] else []) + Descendants(inner, tag)
  }

  lemma DescendantsUnfold(nodes: seq<Node>, tag: string)
    requires nodes != []
    ensures Descendants(nodes, tag) == DescendantsOf(nodes[0], tag) + Descendants(nodes[1..], tag)
    ensures Descendants([nodes[0]], tag) == DescendantsOf(nodes[0], tag)
  {
    assert [nodes[0]][1..] == [];
  }

  lemma {:induction false} DescendantsConcat(a: seq<Node>, b: seq<Node>, tag: string)
    ensures Descendants(a + b, tag) == Descendants(a, tag) + Descendants(b, tag)
  {
    if a == [] {
      assert a + b == b;
    } else {
      hide Descendants, DescendantsOf;
      TailConcat(a, b);
      DescendantsUnfold(a, tag);
      DescendantsUnfold(a + b, tag);
      DescendantsConcat(a[1..], b, tag);
    }
  }

  lemma StripUnfold(nodes: seq<Node>, tag: string)
    requires nodes != []
    ensures StripTag(nodes, tag) == StripNode(nodes[0], tag) + StripTag(nodes[1..], tag)
  {
  }

  lemma StripOne(n: Node, tag: string)
    ensures StripTag([n], tag) == StripNode(n, tag)
    ensures StripTag([], tag) == []
  {
    assert [n][1..] == [];
  }

  lemma {:induction false} StripConcat(a: seq<Node>, b: seq<Node>, tag: string)
    ensures StripTag(a + b, tag) == StripTag(a, tag) + StripTag(b, tag)
  {
    if a == [] {
      assert a + b == b;
    } else {
      hide StripTag, StripNode;
      TailConcat(a, b);
      StripUnfold(a, tag);
      StripUnfold(a + b, tag);
      StripConcat(a[1..], b, tag);
    }
  }

  /** Stripping takes out every element with the tag, and nothing if there is none. */
  lemma {:induction false} StripComplete(nodes: seq<Node>, tag: string)
    ensures !Within(StripTag(nodes, tag), tag)
    ensures !Within(nodes, tag) ==> StripTag(nodes, tag) == nodes
  {
    if nodes != [] {
      StripNodeComplete(nodes[0], tag);
      StripComplete(nodes[1..], tag);
      hide StripNode, DescendantsOf;
      DescendantsUnfold(nodes, tag);
      DescendantsConcat(StripNode(nodes[0], tag), StripTag(nodes[1..], tag), tag);
    }
  }

  lemma {:induction false} StripNodeComplete(n: Node, tag: string)
    ensures !Within(StripNode(n, tag), tag)
    ensures DescendantsOf(n, tag) == [] ==> StripNode(n, tag) == [n]
  {
    if n.Element? {
      StripComplete(n.nodes, tag);
      if n.tag != tag {
        DescendantsUnfold([n.(nodes := StripTag(n.nodes, tag))], tag);
      }
    } else {
      DescendantsUnfold([n], tag);
    }
  }

  /** Editing an element with the tag shows nothing but that element changed. */
  lemma {:induction false} EditKeepsRest(nodes: seq<Node>, tag: string, order: OptString)
    ensures StripTag(EditFirst(nodes, tag, order), tag) == StripTag(nodes, tag)
  {
    if nodes != [] {
      var n, rest := nodes[0], nodes[1..];
      EditNodeKeepsRest(n, tag, order);
      EditKeepsRest(rest, tag, order);
      EditUnfold(nodes, tag, order);
      hide StripTag, StripNode, EditNode, EditFirst, Within;
      StripUnfold(nodes, tag);
      StripOne(n, tag);
      StripConcat(EditNode(n, tag, order), rest, tag);
      StripConcat([n], EditFirst(rest, tag, order), tag);
    }
  }

  lemma EditUnfold(nodes: seq<Node>, tag: string, order: OptString)
    requires nodes != []
    ensures EditFirst(nodes, tag, order)
         == if Within([nodes[0]], tag) then EditNode(nodes[0], tag, order) + nodes[1..]
            else [nodes[0]] + EditFirst(nodes[1..], tag, order)
  {
  }

  lemma {:induction false} EditNodeKeepsRest(n: Node, tag: string, order: OptString)
    ensures StripTag(EditNode(n, tag, order), tag) == StripNode(n, tag)
  {
    StripOne(n, tag);
    if n.Element? {
      if n.tag == tag {
        StripOne(SetAttribute(n, "order", order.GetOr("")), tag);
      } else {
        EditKeepsRest(n.nodes, tag, order);
        StripOne(n.(nodes := EditFirst(n.nodes, tag, order)), tag);
      }
    }
  }

  /** Each removal leaves fewer elements with the tag, so removing the first one while there
      is one comes to an end. */
  lemma {:induction false} RemovalShrinks(nodes: seq<Node>, tag: string)
    requires Within(nodes, tag)
    ensures |Descendants(EditFirst(nodes, tag, None), tag)| < |Descendants(nodes, tag)|
  {
    var n, rest := nodes[0], nodes[1..];
    if Within([n], tag) {
      RemovalShrinksNode(n, tag);
    } else {
      DescendantsUnfold(nodes, tag);
      RemovalShrinks(rest, tag);
    }
    EditUnfold(nodes, tag, None);
    hide Descendants, DescendantsOf, EditNode, EditFirst;
    DescendantsUnfold(nodes, tag);
    DescendantsConcat(EditNode(n, tag, None), rest, tag);
    DescendantsConcat([n], EditFirst(rest, tag, None), tag);
  }

  lemma {:induction false} RemovalShrinksNode(n: Node, tag: string)
    requires Within([n], tag)
    ensures |Descendants(EditNode(n, tag, None), tag)| < |DescendantsOf(n, tag)|
  {
    DescendantsUnfold([n], tag);
    if n.Element? && n.tag != tag {
      RemovalShrinks(n.nodes, tag);
      DescendantsUnfold([n.(nodes := EditFirst(n.nodes, tag, None))], tag);
    }
  }

  /** The removal loop of the os/boot elements over a collection that shrinks as they go. */
  method RemoveAll(nodes: seq<Node>, tag: string) returns (r: seq<Node>)
    ensures r == StripTag(nodes, tag)
  {
    hide Descendants, StripTag, EditFirst;
    r := nodes;
    while Descendants(r, tag) != []
      invariant StripTag(r, tag) == StripTag(nodes, tag)
      decreases |Descendants(r, tag)|
    {
      RemovalShrinks(r, tag);
      EditKeepsRest(r, tag, None);
      r := EditFirst(r, tag, None);
    }
    StripComplete(r, tag);
  }

  // ----- A boot order for one device -----

  /** What the four loops do with a device element: its first <boot> descendant, or a new
      <boot> child, gets the order; without an order the first <boot> descendant goes. */
  function WithOrder(e: Node, order: Option<nat>): (r: Node)
    requires e.Element?
    ensures r.Element? && r.tag == e.tag && r.attrs == e.attrs
  {
    if order.Some? then
      var text := Numerals.Decimal(order.value);
      if Within(e.nodes, BOOT) then e.(nodes := EditFirst(e.nodes, BOOT, Some(text)))
      else AppendChild(e, Some(BootElement(text)))
    else if Within(e.nodes, BOOT) then e.(nodes := EditFirst(e.nodes, BOOT, None))
    else e
  }

  function BootElement(order: string): Node {
    SetAttribute(CreateElement(BOOT), "order", order)
  }

  /** Besides its <boot> elements, a device element is left as it was. */
  lemma WithOrderKeepsRest(e: Node, order: Option<nat>)
    requires e.Element?
    ensures StripTag(WithOrder(e, order).nodes, BOOT) == StripTag(e.nodes, BOOT)
  {
    hide StripTag, EditFirst, Within;
    if order.Some? {
      var text := Numerals.Decimal(order.value);
      EditKeepsRest(e.nodes, BOOT, Some(text));
      var boot := BootElement(text);
      StripConcat(e.nodes, [boot], BOOT);
      StripOne(boot, BOOT);
      assert StripTag(e.nodes, BOOT) + [] == StripTag(e.nodes, BOOT);
    } else {
      EditKeepsRest(e.nodes, BOOT, None);
    }
  }

  /** A device element as libvirt writes it: <boot> is a child of it, never deeper, and holds no elements. */
  predicate PlainNode(n: Node) {
    n.Element? ==> if n.tag == BOOT then Children(n.nodes) == [] else !Within(n.nodes, BOOT)
  }

  ghost predicate Plain(nodes: seq<Node>) {
    forall n :: n in nodes ==> PlainNode(n)
  }

  lemma {:induction false} NoElementsWithin(nodes: seq<Node>, tag: string)
    requires Children(nodes) == []
    ensures !Within(nodes, tag)
  {
    if nodes != [] {
      NoElementsWithin(nodes[1..], tag);
    }
  }

  lemma PlainDescendants(n: Node)
    requires PlainNode(n)
    ensures DescendantsOf(n, BOOT) == if n.Element? && n.tag == BOOT then [n] else []
    ensures Within([n], BOOT) <==> n.Element? && n.tag == BOOT
  {
    DescendantsUnfold([n], BOOT);
    if n.Element? && n.tag == BOOT {
      NoElementsWithin(n.nodes, BOOT);
    }
  }

  /** In a plain element the first <boot> descendant is the first <boot> child. */
  lemma {:induction false} PlainFirst(nodes: seq<Node>)
    requires Plain(nodes)
    ensures FirstMatching(Children(nodes), Tag(BOOT)) == Head(Descendants(nodes, BOOT))
  {
    if nodes != [] {
      PlainFirst(nodes[1..]);
      PlainFirstNode(nodes[0]);
      hide PlainNode, DescendantsOf, Descendants, FirstMatching;
      PlainDescendants(nodes[0]);
      DescendantsUnfold(nodes, BOOT);
      ChildrenUnfold(nodes);
      FirstConcat(if nodes[0].Element? then [nodes[0]] else [], Children(nodes[1..]), Tag(BOOT));
    }
  }

  lemma PlainFirstNode(n: Node)
    ensures FirstMatching(if n.Element? then [n] else [], Tag(BOOT)) == if n.Element? && n.tag == BOOT then Some(n) else None
  {
    if n.Element? {
      assert [n][1..] == [];
    }
  }

  /** Editing keeps an element plain, and its other nodes. */
  lemma {:induction false} EditPlain(nodes: seq<Node>, order: OptString)
    requires Plain(nodes)
    ensures Plain(EditFirst(nodes, BOOT, order))
    ensures order.Some? ==> |Descendants(EditFirst(nodes, BOOT, order), BOOT)| == |Descendants(nodes, BOOT)|
    ensures order.Some? && Within(nodes, BOOT) ==>
              Within(EditFirst(nodes, BOOT, order), BOOT)
              && Attribute(Descendants(EditFirst(nodes, BOOT, order), BOOT)[0], "order") == order
  {
    if nodes != [] {
      var n, rest := nodes[0], nodes[1..];
      EditPlain(rest, order);
      PlainDescendants(n);
      EditUnfold(nodes, BOOT, order);
      if Within([n], BOOT) {
        EditPlainNode(n, order);
      }
      hide PlainNode, DescendantsOf, Descendants, EditNode, EditFirst;
      DescendantsUnfold(nodes, BOOT);
      DescendantsConcat(EditNode(n, BOOT, order), rest, BOOT);
      DescendantsConcat([n], EditFirst(rest, BOOT, order), BOOT);
    }
  }

  lemma EditPlainNode(n: Node, order: OptString)
    requires PlainNode(n) && n.Element? && n.tag == BOOT
    ensures Descendants([n], BOOT) == [n]
    ensures order.None? ==> EditNode(n, BOOT, order) == []
    ensures order.Some? ==> var boot := SetAttribute(n, "order", order.value);
                            EditNode(n, BOOT, order) == [boot] && PlainNode(boot) && Descendants([boot], BOOT) == [boot]
  {
    PlainDescendants(n);
    DescendantsUnfold([n], BOOT);
    if order.Some? {
      var boot := SetAttribute(n, "order", order.value);
      PlainDescendants(boot);
      DescendantsUnfold([boot], BOOT);
    }
  }

  ghost predicate PlainDevice(e: Node) {
    e.Element? && e.tag != BOOT && Plain(e.nodes) && |Descendants(e.nodes, BOOT)| <= 1
  }

  lemma WithOrderPlain(e: Node, order: Option<nat>)
    requires PlainDevice(e)
    ensures PlainDevice(WithOrder(e, order))
    ensures order.None? ==> !Within(WithOrder(e, order).nodes, BOOT)
    ensures order.Some? ==> var r := WithOrder(e, order).nodes;
                            Within(r, BOOT) && Attribute(Descendants(r, BOOT)[0], "order") == Some(Numerals.Decimal(order.value))
  {
    hide PlainNode, Descendants, EditFirst;
    if Within(e.nodes, BOOT) {
      var text := if order.Some? then Some(Numerals.Decimal(order.value)) else None;
      EditPlain(e.nodes, text);
      if order.None? {
        RemovalShrinks(e.nodes, BOOT);
      }
    } else if order.Some? {
      var boot := BootElement(Numerals.Decimal(order.value));
      BootElementPlain(boot);
      DescendantsConcat(e.nodes, [boot], BOOT);
    }
  }

  lemma BootElementPlain(boot: Node)
    requires boot.Element? && boot.tag == BOOT && boot.nodes == []
    ensures PlainNode(boot) && Descendants([boot], BOOT) == [boot]
  {
    DescendantsUnfold([boot], BOOT);
  }

  /** The order given to a device is the order read back. */
  lemma OrderRead(e: Node, order: Option<nat>)
    requires PlainDevice(e)
    ensures OwnOrder(WithOrder(e, order)) == order
  {
    hide WithOrder, Descendants, PlainNode, Numerals.Decimal, Numerals.ToNumber, First, FirstMatching;
    var r := WithOrder(e, order);
    WithOrderPlain(e, order);
    PlainFirst(r.nodes);
    GetChildFirst(r, BOOT);
    FirstUnfold(r, BOOT);
    if order.Some? {
      Numerals.ToNumberDecimal(order.value);
      Numerals.ReadPrint(order.value, 10);
      NonEmptyDecimal(order.value);
    }
  }

  lemma FirstUnfold(e: Node, tag: string)
    requires e.Element?
    ensures First(e, tag) == FirstMatching(Children(e.nodes), Tag(tag))
  {
  }

  lemma NonEmptyDecimal(n: nat)
    ensures NonEmpty(Some(Numerals.Decimal(n))) == Some(Numerals.Decimal(n))
  {
    Numerals.ReadPrint(n, 10);
  }

  /** An order that is there already is written again without effect. */
  lemma {:induction false} EditSame(nodes: seq<Node>, tag: string, order: string)
    requires Within(nodes, tag) && Attribute(Descendants(nodes, tag)[0], "order") == Some(order)
    ensures EditFirst(nodes, tag, Some(order)) == nodes
  {
    var n, rest := nodes[0], nodes[1..];
    DescendantsUnfold(nodes, tag);
    if Within([n], tag) {
      EditSameNode(n, tag, order);
    } else {
      EditSame(rest, tag, order);
    }
  }

  lemma {:induction false} EditSameNode(n: Node, tag: string, order: string)
    requires DescendantsOf(n, tag) != [] && Attribute(DescendantsOf(n, tag)[0], "order") == Some(order)
    ensures EditNode(n, tag, Some(order)) == [n]
  {
    if n.Element? {
      if n.tag == tag {
        assert n.attrs["order" := order] == n.attrs;
      } else {
        EditSame(n.nodes, tag, order);
      }
    }
  }

  /** Giving a device the same order again changes nothing. */
  lemma WithOrderTwice(e: Node, order: Option<nat>)
    requires PlainDevice(e)
    ensures WithOrder(WithOrder(e, order), order) == WithOrder(e, order)
  {
    hide Descendants, PlainNode, EditFirst;
    WithOrderPlain(e, order);
    if order.Some? {
      EditSame(WithOrder(e, order).nodes, BOOT, Numerals.Decimal(order.value));
    }
  }

  // ----- Looking past the <boot> elements -----

  /** Two versions of an element that differ in <boot> elements only. */
  ghost predicate Alike(e: Node, f: Node) {
    && e.Element? && f.Element? && e.tag == f.tag && e.attrs == f.attrs
    && Plain(e.nodes) && Plain(f.nodes)
    && StripTag(e.nodes, BOOT) == StripTag(f.nodes, BOOT)
  }

  lemma WithOrderAlike(e: Node, order: Option<nat>)
    requires PlainDevice(e)
    ensures Alike(e, WithOrder(e, order))
  {
    WithOrderKeepsRest(e, order);
    WithOrderPlain(e, order);
  }

  lemma StripPlainNode(n: Node)
    requires PlainNode(n)
    ensures StripNode(n, BOOT) == if n.Element? && n.tag == BOOT then [] else [n]
  {
    if n.Element? {
      StripComplete(n.nodes, BOOT);
    }
  }

  lemma {:induction false} FirstPast(nodes: seq<Node>, tag: string)
    requires Plain(nodes) && tag != BOOT
    ensures FirstMatching(Children(nodes), Tag(tag)) == FirstMatching(Children(StripTag(nodes, BOOT)), Tag(tag))
  {
    if nodes != [] {
      FirstPast(nodes[1..], tag);
      StripPlainNode(nodes[0]);
      hide PlainNode, FirstMatching, StripNode;
      var kept := StripNode(nodes[0], BOOT);
      ChildrenUnfold(nodes);
      ChildrenConcat(kept, StripTag(nodes[1..], BOOT));
      FirstConcat(if nodes[0].Element? then [nodes[0]] else [], Children(nodes[1..]), Tag(tag));
      FirstConcat(Children(kept), Children(StripTag(nodes[1..], BOOT)), Tag(tag));
      FirstOfPlain(nodes[0], tag);
    }
  }

  lemma FirstOfPlain(n: Node, tag: string)
    requires tag != BOOT
    ensures FirstMatching(if n.Element? then [n] else [], Tag(tag))
         == FirstMatching(Children(if n.Element? && n.tag == BOOT then [] else [n]), Tag(tag))
  {
    assert [n][1..] == [];
  }

  lemma {:induction false} DescendantsPast(nodes: seq<Node>, tag: string)
    requires Plain(nodes) && tag != BOOT
    ensures Descendants(nodes, tag) == Descendants(StripTag(nodes, BOOT), tag)
  {
    if nodes != [] {
      DescendantsPast(nodes[1..], tag);
      StripPlainNode(nodes[0]);
      BootHoldsNothing(nodes[0], tag);
      hide PlainNode, Descendants, DescendantsOf, StripNode;
      var kept := StripNode(nodes[0], BOOT);
      DescendantsUnfold(nodes, tag);
      DescendantsConcat(kept, StripTag(nodes[1..], BOOT), tag);
    }
  }

  lemma BootHoldsNothing(n: Node, tag: string)
    requires PlainNode(n) && tag != BOOT
    ensures n.Element? && n.tag == BOOT ==> DescendantsOf(n, tag) == []
    ensures Descendants([], tag) == []
  {
    if n.Element? && n.tag == BOOT {
      NoElementsWithin(n.nodes, tag);
    }
  }

  lemma AlikeFirst(e: Node, f: Node, tag: string)
    requires Alike(e, f) && tag != BOOT
    ensures First(e, tag) == First(f, tag)
  {
    hide FirstMatching, StripTag, Plain;
    FirstPast(e.nodes, tag);
    FirstPast(f.nodes, tag);
  }

  lemma AlikeDescendant(e: Node, f: Node, tag: string)
    requires Alike(e, f) && tag != BOOT
    ensures FirstDescendant(e, tag) == FirstDescendant(f, tag)
  {
    hide Descendants, StripTag, Plain;
    DescendantsPast(e.nodes, tag);
    DescendantsPast(f.nodes, tag);
  }

  lemma AlikeAttr0(e: Node, f: Node, attr: string)
    requires Alike(e, f)
    ensures Attr0(e, attr) == Attr0(f, attr)
  {
  }

  lemma AlikeAttr1(e: Node, f: Node, tag: string, attr: string)
    requires Alike(e, f) && tag != BOOT
    ensures Attr1(e, tag, attr) == Attr1(f, tag, attr)
  {
    hide Alike, First;
    AlikeFirst(e, f, tag);
    GetChildFirst(e, tag);
    GetChildFirst(f, tag);
  }

  lemma AlikeTwice(e: Node, f: Node, outer: string, inner: string)
    requires Alike(e, f) && outer != BOOT
    ensures GetChild(Some(e), [Tag(outer), Tag(inner)]) == GetChild(Some(f), [Tag(outer), Tag(inner)])
  {
    hide Alike, First, GetChild;
    AlikeFirst(e, f, outer);
    GetChildFirstTwice(e, outer, inner);
    GetChildFirstTwice(f, outer, inner);
  }

  lemma AlikeAttr2(e: Node, f: Node, outer: string, inner: string, attr: string)
    requires Alike(e, f) && outer != BOOT
    ensures Attr2(e, outer, inner, attr) == Attr2(f, outer, inner, attr)
  {
    hide Alike, GetChild;
    AlikeTwice(e, f, outer, inner);
  }

  /** A device is recognised the same whatever its boot order. */
  lemma AlikeDevice(e: Node, f: Node)
    requires Alike(e, f)
    ensures DeviceOf(e) == DeviceOf(f)
  {
    assert e.tag == f.tag;
    hide Alike, Attr0, Attr1;
    AlikeAttr1(e, f, "target", "dev");
    AlikeAttr0(e, f, "device");
    AlikeAttr1(e, f, "mac", "address");
    AlikeAttr1(e, f, "address", "port");
    if e.tag == "hostdev" {
      AlikeHostDevice(e, f);
    }
  }

  lemma AlikeHostDevice(e: Node, f: Node)
    requires Alike(e, f)
    ensures HostDeviceOf(e) == HostDeviceOf(f)
  {
    hide Alike, Attr0, Attr1, Attr2, GetChild;
    AlikeAttr0(e, f, "type");
    AlikeAttr1(e, f, "address", "port");
    AlikeAttr1(e, f, "source", "protocol");
    AlikeAttr1(e, f, "source", "name");
    AlikeAttr1(e, f, "source", "wwpn");
    AlikeAttr2(e, f, "source", "vendor", "id");
    AlikeAttr2(e, f, "source", "product", "id");
    AlikeAttr2(e, f, "source", "address", "device");
    AlikeAttr2(e, f, "source", "address", "domain");
    AlikeAttr2(e, f, "source", "address", "bus");
    AlikeAttr2(e, f, "source", "address", "slot");
    AlikeAttr2(e, f, "source", "address", "function");
    AlikeAttr2(e, f, "source", "address", "target");
    AlikeAttr2(e, f, "source", "address", "unit");
    AlikeAttr2(e, f, "source", "adapter", "name");
    AlikeAttr2(e, f, "source", "address", "uuid");
    AlikeTwice(e, f, "source", "block");
    AlikeTwice(e, f, "source", "char");
    AlikeTwice(e, f, "source", "interface");
  }
}
