/**
 * What is shown after a boot order has been written: exactly the order that was asked for,
 * unless a host device was put first or a chosen device cannot be recognised.
 */
module BootOrderRoundTrip {
  import opened Options
  import opened Sequences
  import opened XmlTree
  import opened BootOrderList
  import opened BootDevices
  import opened BootOrderEditing
  import opened BootOrderDescendants
  import opened BootOrderUpdate
  import opened BootOrderOutcome

  // ----- Devices are recognised after an update as before -----

  lemma UpdatedCons(nodes: seq<Node>, chosen: seq<Device>)
    requires nodes != []
    ensures UpdatedNodes(nodes, chosen) == [UpdatedNode(nodes[0], chosen)] + UpdatedNodes(nodes[1..], chosen)
  {
    hide UpdatedNode;
  }

  lemma AlikeRaw(e: Node, f: Node, tag: string)
    requires Alike(e, f) && tag != BOOT
    ensures FirstDescendant(e, tag) == FirstDescendant(f, tag) && Attribute(e, "type") == Attribute(f, "type")
  {
    AlikeDescendant(e, f, tag);
  }

  lemma AlikeMatches(e: Node, f: Node, t: Device)
    requires Alike(e, f) && Bootable(e)
    ensures Bootable(f) && Matches(e, t) == Matches(f, t) && Locatable(e) == Locatable(f)
  {
    hide FirstDescendant, MatchesScsi;
    assert e.tag == f.tag;
    AlikeRaw(e, f, "target");
    AlikeRaw(e, f, "mac");
    AlikeRaw(e, f, "address");
    AlikeRaw(e, f, "source");
    hide Alike;
  }

  lemma AlikeOrder(e: Node, f: Node, chosen: seq<Device>)
    requires Alike(e, f) && Bootable(e)
    ensures Bootable(f) && OrderFor(e, chosen) == OrderFor(f, chosen)
  {
    hide Alike, Matches, Locatable;
    assert Bootable(f) && e.tag == f.tag by {
      AlikeBootable(e, f);
    }
    forall t ensures Matches(e, t) == Matches(f, t) {
      AlikeMatches(e, f, t);
    }
  }

  lemma AlikeBootable(e: Node, f: Node)
    requires Alike(e, f) && Bootable(e)
    ensures Bootable(f) && e.tag == f.tag
  {
  }

  ghost predicate PlainDevices(nodes: seq<Node>) {
    forall e :: e in nodes && Bootable(e) ==> PlainDevice(e)
  }

  lemma UpdatedTwice(nodes: seq<Node>, chosen: seq<Device>)
    requires PlainDevices(nodes)
    ensures UpdatedNodes(UpdatedNodes(nodes, chosen), chosen) == UpdatedNodes(nodes, chosen)
  {
    var once := UpdatedNodes(nodes, chosen);
    forall i | 0 <= i < |nodes| ensures UpdatedNode(once[i], chosen) == once[i] {
      assert nodes[i] in nodes;
      UpdatedNodeTwice(nodes[i], chosen);
    }
    hide UpdatedNode;
  }

  lemma UpdatedNodeTwice(e: Node, chosen: seq<Device>)
    requires Bootable(e) ==> PlainDevice(e)
    ensures UpdatedNode(UpdatedNode(e, chosen), chosen) == UpdatedNode(e, chosen)
  {
    hide OrderFor, WithOrder, PlainDevice, Alike;
    if Bootable(e) {
      var order := OrderFor(e, chosen);
      WithOrderAlike(e, order);
      AlikeOrder(e, WithOrder(e, order), chosen);
      WithOrderTwice(e, order);
    }
  }

  // ----- What is read back -----

  /** The elements that describe devices, in the order in which devices are listed. */
  function DeviceElements(nodes: seq<Node>): seq<DeviceElement> {
    Describing(nodes, "disk") + Describing(nodes, "interface") + Describing(nodes, "redirdev") + Describing(nodes, "hostdev")
  }

  function DescribedDevices(elems: seq<DeviceElement>): seq<Device> {
    seq(|elems|, i requires 0 <= i < |elems| => DeviceAt(elems[i]))
  }

  lemma DeviceIsBootable(e: DeviceElement)
    ensures Bootable(e)
    ensures e.tag == "hostdev" <==> DeviceAt(e).IsHostDevice()
  {
  }

  lemma {:induction false} DescribingMember(nodes: seq<Node>, tag: string, e: Node)
    requires e in Describing(nodes, tag)
    ensures e in nodes
  {
    if nodes != [] {
      if e in Describing(nodes[1..], tag) {
        DescribingMember(nodes[1..], tag, e);
      }
    }
  }

  lemma DeviceElementsMember(nodes: seq<Node>, e: Node)
    requires e in DeviceElements(nodes)
    ensures e in nodes
  {
    hide Describing;
    if e in Describing(nodes, "disk") {
      DescribingMember(nodes, "disk", e);
    } else if e in Describing(nodes, "interface") {
      DescribingMember(nodes, "interface", e);
    } else if e in Describing(nodes, "redirdev") {
      DescribingMember(nodes, "redirdev", e);
    } else {
      DescribingMember(nodes, "hostdev", e);
    }
  }

  /** An updated device element reads as the same device with the order it was given. */
  lemma UpdatedEntry(e: DeviceElement, chosen: seq<Device>)
    requires Bootable(e) && PlainDevice(e)
    ensures var f := UpdatedNode(e, chosen);
            IsDevice(f) && f.tag == e.tag && EntryOf(f) == Entry(DeviceAt(e), OrderFor(e, chosen))
  {
    hide OrderFor, WithOrder, PlainDevice, Alike, DeviceOf, OwnOrder, Bootable;
    var order := OrderFor(e, chosen);
    WithOrderAlike(e, order);
    AlikeDevice(e, WithOrder(e, order));
    OrderRead(e, order);
  }

  lemma UpdatedDescribes(e: Node, chosen: seq<Device>)
    requires Bootable(e) ==> PlainDevice(e)
    ensures IsDevice(UpdatedNode(e, chosen)) == IsDevice(e)
    ensures IsDevice(e) ==> UpdatedNode(e, chosen).tag == e.tag
  {
    hide OrderFor, WithOrder, PlainDevice, Alike, DeviceOf;
    if Bootable(e) {
      var order := OrderFor(e, chosen);
      WithOrderAlike(e, order);
      AlikeDevice(e, WithOrder(e, order));
    }
  }

  lemma UpdatedConcat(a: seq<Node>, b: seq<Node>, chosen: seq<Device>)
    ensures UpdatedNodes(a + b, chosen) == UpdatedNodes(a, chosen) + UpdatedNodes(b, chosen)
  {
    hide UpdatedNode;
  }

  lemma UpdatedFew(e: Node, chosen: seq<Device>)
    ensures UpdatedNodes([e], chosen) == [UpdatedNode(e, chosen)] && UpdatedNodes([], chosen) == []
  {
    hide UpdatedNode;
  }

  lemma {:induction false} DescribingUpdated(nodes: seq<Node>, chosen: seq<Device>, tag: string)
    requires PlainDevices(nodes)
    ensures Describing(UpdatedNodes(nodes, chosen), tag) == UpdatedNodes(Describing(nodes, tag), chosen)
  {
    if nodes != [] {
      hide UpdatedNode, IsDevice, PlainDevice, Bootable, UpdatedNodes;
      DescribingUpdated(nodes[1..], chosen, tag);
      UpdatedCons(nodes, chosen);
      assert nodes[0] in nodes;
      UpdatedDescribes(nodes[0], chosen);
      var one := if IsDevice(nodes[0]) && nodes[0].tag == tag then [nodes[0]] else [];
      UpdatedConcat(one, Describing(nodes[1..], tag), chosen);
      UpdatedFew(nodes[0], chosen);
      assert UpdatedNodes(nodes, chosen)[1..] == UpdatedNodes(nodes[1..], chosen);
    } else {
      UpdatedFew(Text(""), chosen);
      assert UpdatedNodes(nodes, chosen) == [];
    }
  }

  lemma ElementsUpdated(nodes: seq<Node>, chosen: seq<Device>)
    requires PlainDevices(nodes)
    ensures DeviceElements(UpdatedNodes(nodes, chosen)) == UpdatedNodes(DeviceElements(nodes), chosen)
  {
    hide UpdatedNodes, Describing, PlainDevices;
    var d, i := Describing(nodes, "disk"), Describing(nodes, "interface");
    var r, h := Describing(nodes, "redirdev"), Describing(nodes, "hostdev");
    DescribingUpdated(nodes, chosen, "disk");
    DescribingUpdated(nodes, chosen, "interface");
    DescribingUpdated(nodes, chosen, "redirdev");
    DescribingUpdated(nodes, chosen, "hostdev");
    UpdatedConcat(d, i, chosen);
    UpdatedConcat(d + i, r, chosen);
    UpdatedConcat(d + i + r, h, chosen);
  }

  // ----- The list after an update -----

  predicate SameTarget(a: Device, b: Device) {
    a.Disk? && b.Disk? && a.target == b.target
  }

  predicate TakenFor(e: DeviceElement, t: Device) {
    Bootable(e) && Matches(e, t)
  }

  /** The devices of the machine can be told apart: no device is listed twice, different disks
      have different targets, and no element is taken for another element's device. */
  ghost predicate Distinguishable(elems: seq<DeviceElement>) {
    && NoDuplicates(DescribedDevices(elems))
    && (forall i, j :: 0 <= i < j < |elems| ==> !SameTarget(DeviceAt(elems[i]), DeviceAt(elems[j])))
    && (forall i, j :: 0 <= i < |elems| && 0 <= j < |elems| && TakenFor(elems[i], DeviceAt(elems[j])) ==> i == j)
  }

  /** Devices are plain, there are none within others unless the update throws anyway, and they
      can be told apart. */
  ghost predicate WellFormed(nodes: seq<Node>) {
    && PlainDevices(nodes) && Hollow(nodes) && (AllLocatable(nodes) ==> Flat(nodes))
    && Distinguishable(DeviceElements(nodes))
  }

  /** Is an element taken for the device it describes? */
  predicate Recognised(e: DeviceElement) {
    TakenFor(e, DeviceAt(e))
  }

  ghost predicate AllRecognised(elems: seq<DeviceElement>, chosen: seq<Device>) {
    forall i :: 0 <= i < |elems| && DeviceAt(elems[i]) in chosen ==> Recognised(elems[i])
  }

  predicate StartsWithHostDevice(chosen: seq<Device>) {
    chosen != [] && chosen[0].IsHostDevice()
  }

  function OrderAt(e: DeviceElement, chosen: seq<Device>): Option<nat> {
    DeviceIsBootable(e);
    OrderFor(e, chosen)
  }

  /** Entries of elements with the orders an update gives them. */
  function OrderedEntries(elems: seq<DeviceElement>, chosen: seq<Device>): (r: seq<BootEntry>)
    ensures |r| == |elems| && forall i :: 0 <= i < |r| ==> r[i] == Entry(DeviceAt(elems[i]), OrderAt(elems[i], chosen))
  {
    seq(|elems|, i requires 0 <= i < |elems| => Entry(DeviceAt(elems[i]), OrderAt(elems[i], chosen)))
  }

  lemma EntriesOfUpdated(elems: seq<DeviceElement>, chosen: seq<Device>)
    requires forall e :: e in elems ==> PlainDevice(e)
    ensures forall e :: e in UpdatedNodes(elems, chosen) ==> IsDevice(e)
    ensures Entries(UpdatedNodes(elems, chosen)) == OrderedEntries(elems, chosen)
  {
    hide UpdatedNode, IsDevice, PlainDevice, EntryOf, OrderFor, DeviceAt, Bootable;
    var after := UpdatedNodes(elems, chosen);
    forall i | 0 <= i < |elems|
      ensures IsDevice(after[i]) && EntryOf(after[i]) == Entry(DeviceAt(elems[i]), OrderAt(elems[i], chosen))
    {
      assert elems[i] in elems;
      DeviceIsBootable(elems[i]);
      UpdatedEntry(elems[i], chosen);
    }
  }

  lemma EntriesConcat(a: seq<DeviceElement>, b: seq<DeviceElement>)
    ensures Entries(a + b) == Entries(a) + Entries(b)
  {
    hide EntryOf, Entries, IsDevice;
    var r, s := Entries(a + b), Entries(a) + Entries(b);
    assert |r| == |s|;
    forall i | 0 <= i < |r| ensures r[i] == s[i] {
      assert (a + b)[i] == if i < |a| then a[i] else b[i - |a|];
    }
  }

  /** Different targets keep all disks. */
  lemma DisksKept(disks: seq<DeviceElement>)
    requires forall i, j :: 0 <= i < j < |disks| ==> !SameTarget(DeviceAt(disks[i]), DeviceAt(disks[j]))
    ensures PutDisks([], Entries(disks)) == Entries(disks)
  {
    hide DeviceAt, PutDisks;
    DistinctTargets([], Entries(disks));
    assert [] + Entries(disks) == Entries(disks);
  }

  /** Nothing is left of the legacy list. */
  lemma NoOsBoot(os: seq<Node>)
    ensures OsBootTypes(Matching(Children(StripTag(os, BOOT)), Tag(BOOT))) == []
  {
    StripComplete(os, BOOT);
    NoneWithin(StripTag(os, BOOT));
  }

  lemma {:induction false} NoneWithin(nodes: seq<Node>)
    requires !Within(nodes, BOOT)
    ensures Matching(Children(nodes), Tag(BOOT)) == []
  {
    if nodes != [] {
      DescendantsUnfold(nodes, BOOT);
      NoneWithin(nodes[1..]);
      ChildrenUnfold(nodes);
      MatchingConcat(if nodes[0].Element? then [nodes[0]] else [], Children(nodes[1..]), Tag(BOOT));
      if nodes[0].Element? {
        MatchingUnfold([nodes[0]], Tag(BOOT));
      }
    }
  }

  function After(os: seq<Node>, nodes: seq<Node>, chosen: seq<Device>): Machine {
    ParseMachine(StripTag(os, BOOT), UpdatedNodes(nodes, chosen))
  }

  /** The machine that is read after a choice has been written; None if the update throws, and
      nothing is written. */
  function Saved(os: Option<seq<Node>>, nodes: seq<Node>, chosen: seq<Device>): Option<Machine> {
    var written := Written(nodes, chosen);
    if os.None? || written.None? then None else Some(ParseMachine(StripTag(os.value, BOOT), written.value))
  }

  /** A choice is written exactly if there is an <os> and all that is dereferenced. */
  lemma SavedIs(os: Option<seq<Node>>, nodes: seq<Node>, chosen: seq<Device>)
    requires WellFormed(nodes)
    ensures Saved(os, nodes, chosen).Some? <==> os.Some? && AllLocatable(nodes)
    ensures Saved(os, nodes, chosen).Some? ==> Saved(os, nodes, chosen).value == After(os.value, nodes, chosen)
  {
    hide Hollow, Flat, AllLocatable, Written, PlainDevices, Distinguishable, UpdatedNodes, StripTag, ParseMachine;
    WrittenExactly(nodes, chosen);
    if AllLocatable(nodes) {
      WrittenFlat(nodes, chosen);
    }
  }

  /** The list read after an update has every device with the order it was given. */
  lemma BootListAfter(os: Option<seq<Node>>, nodes: seq<Node>, chosen: seq<Device>)
    requires WellFormed(nodes) && Saved(os, nodes, chosen).Some?
    ensures BootList(Saved(os, nodes, chosen).value) == OrderedEntries(DeviceElements(nodes), chosen)
  {
    hide WellFormed, Saved, After, BootList, OrderedEntries, DeviceElements;
    SavedIs(os, nodes, chosen);
    ListOfUpdated(os.value, nodes, chosen);
  }

  lemma ListOfUpdated(os: seq<Node>, nodes: seq<Node>, chosen: seq<Device>)
    requires WellFormed(nodes)
    ensures BootList(After(os, nodes, chosen)) == OrderedEntries(DeviceElements(nodes), chosen)
  {
    hide StripTag, UpdatedNodes, Describing, IsDevice, PlainDevice, OrderedEntries, Entries, PutDisks, OsBootTypes,
         Distinguishable, Bootable;
    var elems := DeviceElements(nodes);
    var after := UpdatedNodes(nodes, chosen);
    NoOsBoot(os);
    NoLegacyEntries(After(os, nodes, chosen));
    ElementsUpdated(nodes, chosen);
    forall e | e in elems ensures PlainDevice(e) {
      DeviceElementsMember(nodes, e);
      DeviceIsBootable(e);
    }
    EntriesOfUpdated(elems, chosen);
    DisksAfter(nodes, chosen);
    AllEntries(after);
  }

  lemma AllEntries(nodes: seq<Node>)
    ensures Entries(DeviceElements(nodes))
         == Entries(Describing(nodes, "disk")) + Entries(Describing(nodes, "interface"))
            + Entries(Describing(nodes, "redirdev")) + Entries(Describing(nodes, "hostdev"))
  {
    hide Describing, Entries, IsDevice;
    var d, i := Describing(nodes, "disk"), Describing(nodes, "interface");
    var r, h := Describing(nodes, "redirdev"), Describing(nodes, "hostdev");
    EntriesConcat(d, i);
    EntriesConcat(d + i, r);
    EntriesConcat(d + i + r, h);
  }

  lemma DisksAfter(nodes: seq<Node>, chosen: seq<Device>)
    requires WellFormed(nodes)
    ensures var disks := Describing(UpdatedNodes(nodes, chosen), "disk");
            PutDisks([], Entries(disks)) == Entries(disks)
  {
    hide UpdatedNode, Describing, PutDisks, EntryOf, DeviceAt, IsDevice, PlainDevice, OrderFor, WithOrder,
         Bootable, SameTarget;
    var before := Describing(nodes, "disk");
    DescribingUpdated(nodes, chosen, "disk");
    var disks := Describing(UpdatedNodes(nodes, chosen), "disk");
    assert disks == UpdatedNodes(before, chosen);
    forall i | 0 <= i < |before| ensures DeviceAt(disks[i]) == DeviceAt(before[i]) {
      assert before[i] in before;
      DescribingMember(nodes, "disk", before[i]);
      DeviceIsBootable(before[i]);
      UpdatedDevice(before[i], chosen);
    }
    forall i, j | 0 <= i < j < |disks| ensures !SameTarget(DeviceAt(disks[i]), DeviceAt(disks[j])) {
      assert DeviceElements(nodes)[i] == before[i] && DeviceElements(nodes)[j] == before[j];
    }
    DisksKept(disks);
  }

  lemma UpdatedDevice(e: DeviceElement, chosen: seq<Device>)
    requires Bootable(e) && PlainDevice(e)
    ensures IsDevice(UpdatedNode(e, chosen)) && DeviceAt(UpdatedNode(e, chosen)) == DeviceAt(e)
  {
    hide OrderFor, WithOrder, PlainDevice, Alike, DeviceOf, Bootable;
    WithOrderAlike(e, OrderFor(e, chosen));
    AlikeDevice(e, WithOrder(e, OrderFor(e, chosen)));
  }

  // ----- The round trip -----

  /** A choice made among the devices of the machine, each at most once. */
  ghost predicate ChoiceOf(elems: seq<DeviceElement>, chosen: seq<Device>) {
    NoDuplicates(chosen) && forall t :: t in chosen ==> t in DescribedDevices(elems)
  }

  /** An element can be found at the place of its own device only. */
  lemma PositionIsOwn(elems: seq<DeviceElement>, i: nat, chosen: seq<Device>)
    requires i < |elems| && Distinguishable(elems) && ChoiceOf(elems, chosen) && Bootable(elems[i])
    ensures var e, at := elems[i], Position(elems[i], chosen);
            && (at.Some? <==> Recognised(e) && DeviceAt(e) in chosen)
            && (at.Some? ==> at.value < |chosen| && chosen[at.value] == DeviceAt(e))
  {
    hide IsDevice, DeviceAt, Bootable, Matches, NoDuplicates;
    var e, at := elems[i], Position(elems[i], chosen);
    if at.Some? {
      assert Matches(e, chosen[at.value]);
      assert chosen[at.value] in chosen && chosen[at.value] in DescribedDevices(elems);
      var j :| 0 <= j < |elems| && DeviceAt(elems[j]) == chosen[at.value];
      assert TakenFor(elems[i], DeviceAt(elems[j]));
    }
  }

  /** Elements get the rank of their device in the choice, except those that are not recognised
      and a host device put first: these get none. */
  lemma OrderIsRank(elems: seq<DeviceElement>, i: nat, chosen: seq<Device>)
    requires i < |elems| && Distinguishable(elems) && ChoiceOf(elems, chosen)
    ensures var e := elems[i];
            OrderAt(e, chosen)
            == if !Recognised(e) || (chosen != [] && chosen[0] == DeviceAt(e) && DeviceAt(e).IsHostDevice()) then None
               else Rank(DeviceAt(e), chosen)
  {
    hide IsDevice, DeviceAt, Bootable, Matches, Distinguishable, Recognised;
    var e := elems[i];
    DeviceIsBootable(e);
    PositionIsOwn(elems, i, chosen);
    var at := Position(e, chosen);
    RankIs(DeviceAt(e), chosen);
    if at.Some? {
      RankAt(chosen, at.value);
    }
  }

  lemma AllRanked(elems: seq<DeviceElement>, chosen: seq<Device>)
    requires Distinguishable(elems) && ChoiceOf(elems, chosen)
    requires AllRecognised(elems, chosen) && !StartsWithHostDevice(chosen)
    ensures OrderedEntries(elems, chosen) == Ranked(DescribedDevices(elems), chosen)
  {
    hide IsDevice, DeviceAt, OrderAt, Distinguishable, Recognised, Rank, ChoiceOf, Device.IsHostDevice;
    forall i | 0 <= i < |elems| ensures OrderAt(elems[i], chosen) == Rank(DeviceAt(elems[i]), chosen) {
      OrderIsRank(elems, i, chosen);
      RankIs(DeviceAt(elems[i]), chosen);
    }
  }

  lemma OneEntryEach(elems: seq<DeviceElement>, i: nat, chosen: seq<Device>, x: BootEntry)
    requires i < |elems| && Distinguishable(elems)
    ensures x in OrderedEntries(elems, chosen) && x.device == DeviceAt(elems[i]) ==> x.order == OrderAt(elems[i], chosen)
  {
    hide IsDevice, DeviceAt, OrderAt, TakenFor, SameTarget;
    var s := OrderedEntries(elems, chosen);
    if x in s && x.device == DeviceAt(elems[i]) {
      var j :| 0 <= j < |s| && s[j] == x;
      assert DescribedDevices(elems)[j] == DescribedDevices(elems)[i];
      assert i == j;
    }
  }

  /** A device that was chosen but got no order shows that the list is not the one asked for. */
  lemma Unranked(elems: seq<DeviceElement>, i: nat, chosen: seq<Device>)
    requires i < |elems| && Distinguishable(elems)
    requires OrderAt(elems[i], chosen).None? && DeviceAt(elems[i]) in chosen
    ensures Sort(OrderedEntries(elems, chosen), ByOrder) != Shown(DescribedDevices(elems), chosen)
  {
    hide IsDevice, DeviceAt, OrderAt, Recognised, Rank, Sort, Others, TakenFor, SameTarget;
    var s, shown := OrderedEntries(elems, chosen), Shown(DescribedDevices(elems), chosen);
    var d := DeviceAt(elems[i]);
    var k :| 0 <= k < |chosen| && chosen[k] == d;
    var x := Entry(d, Some(k + 1));
    assert shown[k] == x;
    OneEntryEach(elems, i, chosen, x);
    SortElements(s, ByOrder);
    PermutedMembers(Sort(s, ByOrder), s);
  }

  /** What is read if the update does not throw. */
  lemma UpdatedRoundTrip(os: seq<Node>, nodes: seq<Node>, chosen: seq<Device>)
    requires WellFormed(nodes) && ChoiceOf(DeviceElements(nodes), chosen)
    ensures var elems := DeviceElements(nodes);
            SortedBootList(After(os, nodes, chosen)) == Shown(DescribedDevices(elems), chosen)
            <==> AllRecognised(elems, chosen) && !StartsWithHostDevice(chosen)
  {
    hide IsDevice, DeviceAt, OrderAt, Distinguishable, Recognised, Rank, Sort, BootList, After, DeviceElements,
         Ranked, Shown, PlainDevices, NoDuplicates;
    var elems := DeviceElements(nodes);
    var devices := DescribedDevices(elems);
    ListOfUpdated(os, nodes, chosen);
    NothingTwice(elems);
    if AllRecognised(elems, chosen) && !StartsWithHostDevice(chosen) {
      AllRanked(elems, chosen);
      SortRanked(devices, chosen);
    } else if StartsWithHostDevice(chosen) {
      assert chosen[0] in chosen && chosen[0] in devices;
      var i :| 0 <= i < |elems| && DeviceAt(elems[i]) == chosen[0];
      OrderIsRank(elems, i, chosen);
      Unranked(elems, i, chosen);
    } else {
      var i :| 0 <= i < |elems| && DeviceAt(elems[i]) in chosen && !Recognised(elems[i]);
      OrderIsRank(elems, i, chosen);
      Unranked(elems, i, chosen);
    }
  }

  /** Writing a choice succeeds, and reading the machine again shows the choice, numbered from 1,
      before all other devices, exactly if there is an <os>, all that the update dereferences is
      there, every chosen device is recognised and no host device was put first. */
  lemma RoundTrip(os: Option<seq<Node>>, nodes: seq<Node>, chosen: seq<Device>)
    requires WellFormed(nodes) && ChoiceOf(DeviceElements(nodes), chosen)
    ensures var elems, saved := DeviceElements(nodes), Saved(os, nodes, chosen);
            saved.Some? && SortedBootList(saved.value) == Shown(DescribedDevices(elems), chosen)
            <==> os.Some? && AllLocatable(nodes) && AllRecognised(elems, chosen) && !StartsWithHostDevice(chosen)
  {
    hide WellFormed, ChoiceOf, Saved, After, DeviceElements, DescribedDevices, SortedBootList, Shown, AllLocatable,
         AllRecognised, StartsWithHostDevice;
    SavedIs(os, nodes, chosen);
    if os.Some? {
      UpdatedRoundTrip(os.value, nodes, chosen);
    }
  }

  lemma NothingTwice(elems: seq<DeviceElement>)
    requires Distinguishable(elems)
    ensures NoDuplicates(DescribedDevices(elems))
  {
  }

  // ----- Further edits -----

  lemma UpdatedAt(e: DeviceElement, chosen: seq<Device>)
    requires Bootable(e) && PlainDevice(e)
    ensures var f := UpdatedNode(e, chosen);
            IsDevice(f) && PlainDevice(f) && DeviceAt(f) == DeviceAt(e)
            && (forall t :: TakenFor(f, t) == TakenFor(e, t)) && (forall next :: OrderAt(f, next) == OrderAt(e, next))
  {
    UpdatedDevice(e, chosen);
    var f := UpdatedNode(e, chosen);
    WithOrderAlike(e, OrderFor(e, chosen));
    WithOrderPlain(e, OrderFor(e, chosen));
    hide OrderFor, Alike, Matches, PlainDevice, DeviceOf, WithOrder;
    forall t ensures TakenFor(f, t) == TakenFor(e, t) {
      AlikeMatches(e, f, t);
    }
    forall next ensures OrderAt(f, next) == OrderAt(e, next) {
      AlikeOrder(e, f, next);
    }
  }

  /** Writing the same choice again changes nothing. */
  lemma UpdateTwice(nodes: seq<Node>, chosen: seq<Device>)
    requires WellFormed(nodes) && Written(nodes, chosen).Some?
    ensures Written(Written(nodes, chosen).value, chosen) == Written(nodes, chosen)
  {
    hide Written, Flat, Hollow, AllLocatable, UpdatedNodes, PlainDevices, Distinguishable;
    WrittenExactly(nodes, chosen);
    WrittenFlat(nodes, chosen);
    UpdatedTwice(nodes, chosen);
    StillLocatable(nodes, chosen);
    WrittenFlat(UpdatedNodes(nodes, chosen), chosen);
  }

  lemma {:induction false} StillLocatable(nodes: seq<Node>, chosen: seq<Device>)
    requires Hollow(nodes) && Flat(nodes) && AllLocatable(nodes)
    ensures var after := UpdatedNodes(nodes, chosen); Hollow(after) && Flat(after) && AllLocatable(after)
  {
    hide Written, FlatNode, Hollow, KindLocatable, UpdatedNode, StripTag;
    var after := UpdatedNodes(nodes, chosen);
    WrittenFlat(nodes, chosen);
    WrittenExactly(nodes, chosen);
    UpdateKeepsRest(nodes, chosen);
    BootableTags();
    SameLocatable(nodes, after, "disk", 0);
    SameLocatable(nodes, after, "interface", 0);
    SameLocatable(nodes, after, "redirdev", 0);
    SameLocatable(nodes, after, "hostdev", 0);
    forall n | n in after ensures FlatNode(n) {
      var i :| 0 <= i < |nodes| && n == after[i];
      assert nodes[i] in nodes;
      UpdatedFlat(nodes[i], chosen);
    }
  }

  /** After an update the definition is still well formed with the same devices, and a further
      update succeeds and has the effect it would have had at once: the last choice written is
      the one in force. */
  lemma LastWriteWins(os: seq<Node>, nodes: seq<Node>, first: seq<Device>, last: seq<Device>)
    requires WellFormed(nodes) && Written(nodes, first).Some?
    ensures var after := Written(nodes, first).value;
            && WellFormed(after)
            && DescribedDevices(DeviceElements(after)) == DescribedDevices(DeviceElements(nodes))
            && var once, twice := Saved(Some(os), nodes, last), Saved(Some(StripTag(os, BOOT)), after, last);
               once.Some? && twice.Some? && SortedBootList(twice.value) == SortedBootList(once.value)
  {
    hide Written, Flat, Hollow, AllLocatable, UpdatedNodes, PlainDevices, Distinguishable, Saved, After, SortedBootList,
         DescribedDevices, DeviceElements, StripTag;
    WrittenExactly(nodes, first);
    WrittenFlat(nodes, first);
    StillLocatable(nodes, first);
    UpdatedAgain(os, nodes, first, last);
    SavedIs(Some(os), nodes, last);
    SavedIs(Some(StripTag(os, BOOT)), UpdatedNodes(nodes, first), last);
  }

  lemma UpdatedAgain(os: seq<Node>, nodes: seq<Node>, first: seq<Device>, last: seq<Device>)
    requires WellFormed(nodes) && AllLocatable(nodes)
    ensures var after := UpdatedNodes(nodes, first);
            && WellFormed(after)
            && DescribedDevices(DeviceElements(after)) == DescribedDevices(DeviceElements(nodes))
            && SortedBootList(After(StripTag(os, BOOT), after, last)) == SortedBootList(After(os, nodes, last))
  {
    hide IsDevice, DeviceAt, OrderAt, TakenFor, SameTarget, PlainDevice, UpdatedNode, DeviceElements, After, BootList,
         Bootable, Sort, NoDuplicates, Flat, Hollow, AllLocatable, UpdatedNodes;
    var elems, after := DeviceElements(nodes), UpdatedNodes(nodes, first);
    StillLocatable(nodes, first);
    ElementsUpdated(nodes, first);
    PlainAfter(nodes, first);
    forall i | 0 <= i < |elems|
      ensures var e, f := elems[i], DeviceElements(after)[i];
              && DeviceAt(f) == DeviceAt(e) && (forall t :: TakenFor(f, t) == TakenFor(e, t))
              && OrderAt(f, last) == OrderAt(e, last)
    {
      DeviceElementsMember(nodes, elems[i]);
      DeviceIsBootable(elems[i]);
      UpdatedAt(elems[i], first);
    }
    assert DescribedDevices(DeviceElements(after)) == DescribedDevices(elems);
    assert OrderedEntries(DeviceElements(after), last) == OrderedEntries(elems, last);
    ListOfUpdated(os, nodes, last);
    ListOfUpdated(StripTag(os, BOOT), after, last);
  }

  lemma PlainAfter(nodes: seq<Node>, chosen: seq<Device>)
    requires PlainDevices(nodes)
    ensures PlainDevices(UpdatedNodes(nodes, chosen))
  {
    hide PlainDevice, OrderFor, WithOrder;
    var after := UpdatedNodes(nodes, chosen);
    forall f | f in after && Bootable(f) ensures PlainDevice(f) {
      var i :| 0 <= i < |nodes| && f == UpdatedNode(nodes[i], chosen);
      assert nodes[i] in nodes;
      if Bootable(nodes[i]) {
        WithOrderPlain(nodes[i], OrderFor(nodes[i], chosen));
      }
    }
  }

  // ----- Which devices are never recognised -----

  /** Storage, character and network host devices are never found. */
  lemma OtherHostDevicesUnrecognised(e: DeviceElement)
    requires DeviceAt(e).Misc?
    ensures !Recognised(e)
  {
  }

  /** An iSCSI host device is looked up by protocol and name, but these are taken from its
      <address>, where only its <source> has them: without an address it is never found. */
  lemma IscsiUnrecognised(e: DeviceElement)
    requires DeviceAt(e).Scsi? && In(FirstDescendant(e, "source"), "address").None?
    ensures !Recognised(e)
  {
  }

  /** A USB host device given by its place on the bus is never found: its port is looked for
      in the first <address>, which is that of its <source>. */
  lemma UsbByAddressUnrecognised(e: DeviceElement)
    requires DeviceAt(e).Usb?
    requires In(FirstDescendant(e, "source"), "vendor").None? && Raw(FirstDescendant(e, "address"), "port").None?
    ensures !Recognised(e)
  {
  }
}
