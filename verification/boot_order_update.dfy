/**
 * Writing a boot order into the definition of a virtual machine, and what is read back.
 */
module BootOrderUpdate {
  import opened Options
  import opened Sequences
  import opened XmlTree
  import opened BootDevices
  import opened BootOrderEditing
  import opened BootOrderDescendants

  // ----- Recognising devices -----

  /** `parsed === raw`, where a missing parsed value is undefined and a missing raw one null. */
  predicate Same(parsed: OptString, raw: OptString) {
    parsed.Some? && parsed == raw
  }

  function In(n: Option<Node>, tag: string): Option<Node> {
    if n.None? then None else FirstDescendant(n.value, tag)
  }

  function Raw(n: Option<Node>, attr: string): OptString {
    if n.None? then None else Attribute(n.value, attr)
  }

  predicate Bootable(e: Node) {
    e.Element? && (e.tag == "disk" || e.tag == "interface" || e.tag == "redirdev" || e.tag == "hostdev")
  }

  /** The sub-elements that the update dereferences without a check are there. */
  predicate Locatable(e: Node)
    requires Bootable(e)
  {
    if e.tag == "disk" then FirstDescendant(e, "target").Some?
    else if e.tag == "interface" then FirstDescendant(e, "mac").Some?
    else if e.tag == "redirdev" then FirstDescendant(e, "address").Some?
    else
      var kind := Attribute(e, "type");
      if kind == Some("usb") || kind == Some("scsi") || kind == Some("scsi_host") then FirstDescendant(e, "source").Some?
      else if kind == Some("pci") || kind == Some("mdev") then FirstDescendant(e, "address").Some?
      else true
  }

  /** Does the update take this element for that device? */
  predicate Matches(e: Node, t: Device)
    requires Bootable(e)
  {
    if e.tag == "disk" then t.Disk? && Same(Some(t.target), Raw(FirstDescendant(e, "target"), "dev"))
    else if e.tag == "interface" then t.Network? && Same(t.mac, Raw(FirstDescendant(e, "mac"), "address"))
    else if e.tag == "redirdev" then t.Redirdev? && Same(t.port, Raw(FirstDescendant(e, "address"), "port"))
    else MatchesHost(e, t)
  }

  predicate MatchesHost(e: Node, t: Device) {
    var kind, source, address := Attribute(e, "type"), FirstDescendant(e, "source"), FirstDescendant(e, "address");
    if kind == Some("usb") then
      var vendor, product := In(source, "vendor"), In(source, "product");
      if vendor.Some? && product.Some?
      then t.Usb? && Same(t.vendor, Raw(vendor, "id")) && Same(t.product, Raw(product, "id"))
      else t.Usb? && Same(t.usbPort, Raw(address, "port"))
    else if kind == Some("pci") then
      t.Pci? && Same(t.domain, Raw(address, "domain")) && Same(t.bus, Raw(address, "bus"))
      && Same(t.slot, Raw(address, "slot")) && Same(t.func, Raw(address, "function"))
    else if kind == Some("scsi") then
      MatchesScsi(In(source, "address"), In(source, "adapter"), t)
    else if kind == Some("scsi_host") then
      t.ScsiHost? && Same(t.wwpn, Raw(source, "wwpn")) && Same(t.hostProtocol, Raw(source, "protocol"))
    else if kind == Some("mdev") then
      t.Mdev? && Same(t.uuid, Raw(address, "uuid"))
    else false
  }

  predicate MatchesScsi(address: Option<Node>, adapter: Option<Node>, t: Device) {
    var protocol, name := Raw(address, "protocol"), Raw(address, "name");
    if address.Some? && adapter.Some? then
      t.Scsi? && Same(t.scsiBus, Raw(address, "bus")) && Same(t.scsiTarget, Raw(address, "target"))
      && Same(t.unit, Raw(address, "unit")) && Same(t.adapter, Raw(adapter, "name"))
    else
      Truthy(protocol) && Truthy(name) && t.Scsi? && Same(t.protocol, protocol) && Same(t.name, name)
  }

  /** What a SCSI host device is looked up by: with an address and an adapter in its source, by the
      bus, target and unit of the one and the name of the other; else by protocol and name, which
      are looked for in the address. */
  lemma ScsiTaken(e: Node, t: Device)
    requires e.Element? && e.tag == "hostdev" && Attribute(e, "type") == Some("scsi")
    ensures var source := FirstDescendant(e, "source");
            var address := if source.None? then None else FirstDescendant(source.value, "address");
            var adapter := if source.None? then None else FirstDescendant(source.value, "adapter");
            if address.Some? && adapter.Some? then
              Matches(e, t) <==>
                && t.Scsi? && t.scsiBus.Some? && t.scsiBus == Attribute(address.value, "bus")
                && t.scsiTarget.Some? && t.scsiTarget == Attribute(address.value, "target")
                && t.unit.Some? && t.unit == Attribute(address.value, "unit")
                && t.adapter.Some? && t.adapter == Attribute(adapter.value, "name")
            else
              Matches(e, t) <==>
                && t.Scsi? && address.Some? && Truthy(t.protocol) && t.protocol == Attribute(address.value, "protocol")
                && Truthy(t.name) && t.name == Attribute(address.value, "name")
  {
  }

  /** `devices.findIndex(...)` */
  function Position(e: Node, chosen: seq<Device>): Option<nat>
    requires Bootable(e)
  {
    FindIndex(chosen, t => Matches(e, t))
  }

  /** The order an element gets. A host device found at index 0 counts as not found. */
  function OrderFor(e: Node, chosen: seq<Device>): Option<nat>
    requires Bootable(e)
  {
    var index := Position(e, chosen);
    if index.None? || (e.tag == "hostdev" && index.value == 0) then None else Some(index.value + 1)
  }

  const KINDS: set<string> := {"disk", "interface", "redirdev", "hostdev"}

  lemma BootableTags()
    ensures forall e :: Bootable(e) <==> e.Element? && e.tag in KINDS
    ensures BOOT !in KINDS
  {
  }

  // ----- The update, wherever the elements are -----

  /** One of the four loops, from its i-th turn on: it goes through all elements with its tag, at
      any depth, of a collection that follows the changes; None stands for an exception. */
  function UpdateKind(nodes: seq<Node>, tag: string, i: nat, chosen: seq<Device>): Option<seq<Node>>
    requires tag in KINDS
    decreases |Descendants(nodes, tag)| - i
  {
    BootableTags();
    if i >= |Descendants(nodes, tag)| then Some(nodes)
    else
      DescendantAt(nodes, tag, i);
      var e := Descendants(nodes, tag)[i];
      if !Locatable(e) then None
      else
        UpdateShrinks(nodes, tag, i, OrderFor(e, chosen));
        UpdateKind(ReplaceNth(nodes, tag, i, WithOrder(e, OrderFor(e, chosen))), tag, i + 1, chosen)
  }

  lemma {:induction false} UpdateShrinks(nodes: seq<Node>, tag: string, i: nat, order: Option<nat>)
    requires tag in KINDS && i < |Descendants(nodes, tag)| && Descendants(nodes, tag)[i].Element?
    ensures var other := WithOrder(Descendants(nodes, tag)[i], order);
            |Descendants(ReplaceNth(nodes, tag, i, other), tag)| <= |Descendants(nodes, tag)|
  {
    hide Descendants, ReplaceNth, WithOrder;
    BootableTags();
    var e := Descendants(nodes, tag)[i];
    ReplaceCount(nodes, tag, i, WithOrder(e, order));
    WithOrderCount(e, order, tag);
  }

  /** The next loop, if none before it has thrown. */
  function UpdateNext(nodes: Option<seq<Node>>, tag: string, chosen: seq<Device>): Option<seq<Node>>
    requires tag in KINDS
  {
    if nodes.None? then None else UpdateKind(nodes.value, tag, 0, chosen)
  }

  /** The children of <devices> after the four loops. */
  function Written(nodes: seq<Node>, chosen: seq<Device>): Option<seq<Node>> {
    var disks := UpdateKind(nodes, "disk", 0, chosen);
    var interfaces := UpdateNext(disks, "interface", chosen);
    var redirdevs := UpdateNext(interfaces, "redirdev", chosen);
    UpdateNext(redirdevs, "hostdev", chosen)
  }

  /** The two parts of a definition that a boot order is written into: the children of <os>
      and of <devices>. */
  class Definition {
    var os: Option<seq<Node>>
    var devices: Option<seq<Node>>

    constructor (os: Option<seq<Node>>, devices: Option<seq<Node>>)
      ensures this.os == os && this.devices == devices
    {
      this.os, this.devices := os, devices;
    }

    /** updateBootOrder. When something it relies on is missing it throws, and the definition
        is not sent. */
    method UpdateBootOrder(chosen: seq<Device>) returns (ok: bool)
      modifies this
      ensures ok <==> old(os).Some? && old(devices).Some? && Written(old(devices).value, chosen).Some?
      ensures ok ==> os == Some(StripTag(old(os).value, BOOT))
      ensures ok ==> devices == Written(old(devices).value, chosen)
    {
      hide StripTag, UpdateKind;
      if devices.None? || os.None? {
        return false;
      }
      var left := RemoveAll(os.value, BOOT);
      os := Some(left);
      ok := LoopOver("disk", chosen);
      if ok {
        ok := LoopOver("interface", chosen);
      }
      if ok {
        ok := LoopOver("redirdev", chosen);
      }
      if ok {
        ok := LoopOver("hostdev", chosen);
      }
    }

    method LoopOver(tag: string, chosen: seq<Device>) returns (ok: bool)
      requires devices.Some? && tag in KINDS
      modifies this`devices
      ensures devices.Some?
      ensures ok <==> UpdateKind(old(devices).value, tag, 0, chosen).Some?
      ensures ok ==> devices == UpdateKind(old(devices).value, tag, 0, chosen)
    {
      hide Descendants, Locatable, OrderFor, WithOrder, ReplaceNth, Bootable;
      var i := 0;
      while i < |Descendants(devices.value, tag)|
        invariant devices.Some?
        invariant UpdateKind(devices.value, tag, i, chosen) == UpdateKind(old(devices).value, tag, 0, chosen)
        decreases |Descendants(devices.value, tag)| - i
      {
        var elems := Descendants(devices.value, tag);
        DescendantAt(devices.value, tag, i);
        BootableTags();
        var e := elems[i];
        if !Locatable(e) {
          return false;
        }
        UpdateShrinks(devices.value, tag, i, OrderFor(e, chosen));
        devices := Some(ReplaceNth(devices.value, tag, i, WithOrder(e, OrderFor(e, chosen))));
        i := i + 1;
      }
      return true;
    }
  }

  // ----- What the update keeps -----

  lemma {:induction false} UpdateKindKeepsRest(nodes: seq<Node>, tag: string, i: nat, chosen: seq<Device>)
    requires tag in KINDS && UpdateKind(nodes, tag, i, chosen).Some?
    ensures StripTag(UpdateKind(nodes, tag, i, chosen).value, BOOT) == StripTag(nodes, BOOT)
    decreases |Descendants(nodes, tag)| - i
  {
    hide Descendants, Locatable, OrderFor, WithOrder, ReplaceNth, StripTag, Bootable;
    if i < |Descendants(nodes, tag)| {
      DescendantAt(nodes, tag, i);
      BootableTags();
      var e := Descendants(nodes, tag)[i];
      var other := WithOrder(e, OrderFor(e, chosen));
      UpdateShrinks(nodes, tag, i, OrderFor(e, chosen));
      WithOrderKeepsRest(e, OrderFor(e, chosen));
      SameStripped(e, other);
      ReplaceKeepsRest(nodes, tag, i, other);
      UpdateKindKeepsRest(ReplaceNth(nodes, tag, i, other), tag, i + 1, chosen);
    }
  }

  lemma SameStripped(e: Node, f: Node)
    requires e.Element? && f.Element? && e.tag == f.tag && e.attrs == f.attrs
    requires StripTag(e.nodes, BOOT) == StripTag(f.nodes, BOOT)
    ensures StripNode(e, BOOT) == StripNode(f, BOOT)
  {
  }

  /** Besides <boot> elements the devices are what they were, whatever the definition looks like. */
  lemma UpdateKeepsRest(nodes: seq<Node>, chosen: seq<Device>)
    requires Written(nodes, chosen).Some?
    ensures StripTag(Written(nodes, chosen).value, BOOT) == StripTag(nodes, BOOT)
  {
    hide UpdateKind, StripTag;
    var disks := UpdateKind(nodes, "disk", 0, chosen);
    var interfaces := UpdateKind(disks.value, "interface", 0, chosen);
    var redirdevs := UpdateKind(interfaces.value, "redirdev", 0, chosen);
    UpdateKindKeepsRest(nodes, "disk", 0, chosen);
    UpdateKindKeepsRest(disks.value, "interface", 0, chosen);
    UpdateKindKeepsRest(interfaces.value, "redirdev", 0, chosen);
    UpdateKindKeepsRest(redirdevs.value, "hostdev", 0, chosen);
  }

  // ----- When it succeeds -----

  ghost predicate KindLocatable(nodes: seq<Node>, tag: string, from: nat)
    requires tag in KINDS
  {
    forall j :: from <= j < |Descendants(nodes, tag)| ==> LocatableAt(nodes, tag, j)
  }

  predicate LocatableAt(nodes: seq<Node>, tag: string, j: nat)
    requires tag in KINDS && j < |Descendants(nodes, tag)|
  {
    DescendantAt(nodes, tag, j);
    BootableTags();
    Locatable(Descendants(nodes, tag)[j])
  }

  /** All elements of the four kinds, at any depth, have what the update dereferences. */
  ghost predicate AllLocatable(nodes: seq<Node>) {
    KindLocatable(nodes, "disk", 0) && KindLocatable(nodes, "interface", 0)
    && KindLocatable(nodes, "redirdev", 0) && KindLocatable(nodes, "hostdev", 0)
  }

  lemma FoundStripped(e: Node, tag: string)
    requires e.Element? && Hollow(e.nodes) && tag != BOOT
    ensures FirstDescendant(Stripped(e), tag).Some? <==> FirstDescendant(e, tag).Some?
  {
    hide Descendants, StripTag, Hollow;
    StrippedDescendants(e.nodes, tag);
  }

  lemma StrippedLocatable(e: Node)
    requires Bootable(e) && HollowNode(e)
    ensures Bootable(Stripped(e)) && Locatable(Stripped(e)) == Locatable(e)
  {
    hide FirstDescendant, StripTag, Hollow;
    FoundStripped(e, "target");
    FoundStripped(e, "mac");
    FoundStripped(e, "address");
    FoundStripped(e, "source");
  }

  /** Documents that differ in <boot> elements only have the same elements to be located. */
  lemma SameLocatable(a: seq<Node>, b: seq<Node>, tag: string, from: nat)
    requires tag in KINDS && Hollow(a) && Hollow(b) && StripTag(a, BOOT) == StripTag(b, BOOT)
    ensures |Descendants(a, tag)| == |Descendants(b, tag)|
    ensures KindLocatable(a, tag, from) <==> KindLocatable(b, tag, from)
    ensures forall j :: 0 <= j < |Descendants(a, tag)| ==> LocatableAt(a, tag, j) == LocatableAt(b, tag, j)
  {
    hide Descendants, StripTag, Hollow, Locatable, Stripped, HollowNode, Bootable;
    BootableTags();
    StrippedDescendants(a, tag);
    StrippedDescendants(b, tag);
    forall j | 0 <= j < |Descendants(a, tag)| ensures LocatableAt(a, tag, j) == LocatableAt(b, tag, j) {
      var e, f := Descendants(a, tag)[j], Descendants(b, tag)[j];
      DescendantAt(a, tag, j);
      DescendantAt(b, tag, j);
      DescendantHollow(a, tag, e);
      DescendantHollow(b, tag, f);
      StrippedLocatable(e);
      StrippedLocatable(f);
      assert Stripped(e) == Stripped(f);
    }
  }

  lemma {:induction false} UpdateKindSucceeds(nodes: seq<Node>, tag: string, i: nat, chosen: seq<Device>)
    requires tag in KINDS && Hollow(nodes)
    ensures UpdateKind(nodes, tag, i, chosen).Some? <==> KindLocatable(nodes, tag, i)
    ensures UpdateKind(nodes, tag, i, chosen).Some? ==> Hollow(UpdateKind(nodes, tag, i, chosen).value)
    decreases |Descendants(nodes, tag)| - i
  {
    hide Descendants, Locatable, OrderFor, WithOrder, ReplaceNth, StripTag, Hollow, HollowNode, LocatableAt, Bootable;
    if i < |Descendants(nodes, tag)| {
      DescendantAt(nodes, tag, i);
      BootableTags();
      var e := Descendants(nodes, tag)[i];
      LocatableHere(nodes, tag, i);
      if Locatable(e) {
        var order := OrderFor(e, chosen);
        var other := WithOrder(e, order);
        var next := ReplaceNth(nodes, tag, i, other);
        UpdateShrinks(nodes, tag, i, order);
        DescendantHollow(nodes, tag, e);
        WithOrderHollow(e, order);
        ReplaceHollow(nodes, tag, i, other);
        WithOrderKeepsRest(e, order);
        SameStripped(e, other);
        ReplaceKeepsRest(nodes, tag, i, other);
        SameLocatable(nodes, next, tag, i + 1);
        UpdateKindSucceeds(next, tag, i + 1, chosen);
      }
    }
  }

  lemma LocatableHere(nodes: seq<Node>, tag: string, i: nat)
    requires tag in KINDS && i < |Descendants(nodes, tag)|
    ensures Bootable(Descendants(nodes, tag)[i])
    ensures LocatableAt(nodes, tag, i) == Locatable(Descendants(nodes, tag)[i])
  {
    DescendantAt(nodes, tag, i);
    BootableTags();
  }

  /** The update throws exactly if an element of the four kinds, at any depth, lacks what is
      dereferenced in it. */
  lemma WrittenExactly(nodes: seq<Node>, chosen: seq<Device>)
    requires Hollow(nodes)
    ensures Written(nodes, chosen).Some? <==> AllLocatable(nodes)
    ensures Written(nodes, chosen).Some? ==> Hollow(Written(nodes, chosen).value)
  {
    hide UpdateKind, StripTag, Hollow, KindLocatable;
    UpdateKindSucceeds(nodes, "disk", 0, chosen);
    var disks := UpdateKind(nodes, "disk", 0, chosen);
    if disks.Some? {
      UpdateKindKeepsRest(nodes, "disk", 0, chosen);
      SameLocatable(nodes, disks.value, "interface", 0);
      UpdateKindSucceeds(disks.value, "interface", 0, chosen);
      var interfaces := UpdateKind(disks.value, "interface", 0, chosen);
      if interfaces.Some? {
        UpdateKindKeepsRest(disks.value, "interface", 0, chosen);
        SameLocatable(nodes, interfaces.value, "redirdev", 0);
        UpdateKindSucceeds(interfaces.value, "redirdev", 0, chosen);
        var redirdevs := UpdateKind(interfaces.value, "redirdev", 0, chosen);
        if redirdevs.Some? {
          UpdateKindKeepsRest(interfaces.value, "redirdev", 0, chosen);
          SameLocatable(nodes, redirdevs.value, "hostdev", 0);
          UpdateKindSucceeds(redirdevs.value, "hostdev", 0, chosen);
        }
      }
    }
  }

  /** Some descendant has the tag. */
  predicate Holds(e: Node, tag: string) {
    e.Element? && Descendants(e.nodes, tag) != []
  }

  /** What the loops rely on: disks have a target, interfaces a MAC address, redirected devices an
      address, and host devices their source or address, depending on their kind. */
  ghost predicate Complete(nodes: seq<Node>) {
    && (forall e :: e in Descendants(nodes, "disk") ==> Holds(e, "target"))
    && (forall e :: e in Descendants(nodes, "interface") ==> Holds(e, "mac"))
    && (forall e :: e in Descendants(nodes, "redirdev") ==> Holds(e, "address"))
    && (forall e :: e in Descendants(nodes, "hostdev") ==>
          && (Attribute(e, "type") in {Some("usb"), Some("scsi"), Some("scsi_host")} ==> Holds(e, "source"))
          && (Attribute(e, "type") in {Some("pci"), Some("mdev")} ==> Holds(e, "address")))
  }

  /** So it throws exactly if some element at any depth is not complete in this sense. */
  lemma WrittenIfComplete(nodes: seq<Node>, chosen: seq<Device>)
    requires Hollow(nodes)
    ensures Written(nodes, chosen).Some? <==> Complete(nodes)
  {
    hide Written, Descendants, Hollow, Locatable;
    WrittenExactly(nodes, chosen);
    LocatableEach(nodes, "disk");
    LocatableEach(nodes, "interface");
    LocatableEach(nodes, "redirdev");
    LocatableEach(nodes, "hostdev");
    CompleteEach(nodes);
  }

  ghost predicate EachLocatable(nodes: seq<Node>, tag: string)
    requires tag in KINDS
  {
    forall e :: e in Descendants(nodes, tag) ==> Bootable(e) && Locatable(e)
  }

  lemma LocatableEach(nodes: seq<Node>, tag: string)
    requires tag in KINDS
    ensures KindLocatable(nodes, tag, 0) <==> EachLocatable(nodes, tag)
  {
    hide Descendants, Locatable, Bootable;
    forall j | 0 <= j < |Descendants(nodes, tag)|
      ensures Bootable(Descendants(nodes, tag)[j])
      ensures LocatableAt(nodes, tag, j) == Locatable(Descendants(nodes, tag)[j])
    {
      LocatableHere(nodes, tag, j);
    }
    if EachLocatable(nodes, tag) {
      forall j | 0 <= j < |Descendants(nodes, tag)| ensures LocatableAt(nodes, tag, j) {
        assert Descendants(nodes, tag)[j] in Descendants(nodes, tag);
      }
    }
    if KindLocatable(nodes, tag, 0) {
      forall e | e in Descendants(nodes, tag) ensures Bootable(e) && Locatable(e) {
        var j :| 0 <= j < |Descendants(nodes, tag)| && Descendants(nodes, tag)[j] == e;
        assert LocatableAt(nodes, tag, j);
      }
    }
  }

  /** What a single element needs. */
  lemma LocatableNeeds(e: Node)
    requires Bootable(e)
    ensures e.tag == "disk" ==> Locatable(e) == Holds(e, "target")
    ensures e.tag == "interface" ==> Locatable(e) == Holds(e, "mac")
    ensures e.tag == "redirdev" ==> Locatable(e) == Holds(e, "address")
    ensures e.tag == "hostdev" ==>
              (Locatable(e) <==>
               && (Attribute(e, "type") in {Some("usb"), Some("scsi"), Some("scsi_host")} ==> Holds(e, "source"))
               && (Attribute(e, "type") in {Some("pci"), Some("mdev")} ==> Holds(e, "address")))
  {
  }

  lemma CompleteEach(nodes: seq<Node>)
    ensures Complete(nodes)
       <==> EachLocatable(nodes, "disk") && EachLocatable(nodes, "interface")
            && EachLocatable(nodes, "redirdev") && EachLocatable(nodes, "hostdev")
  {
    hide Locatable, Holds, Descendants;
    forall e, tag | tag in KINDS && e in Descendants(nodes, tag) ensures Bootable(e) && e.tag == tag {
      MemberBootable(nodes, tag, e);
    }
    forall e | Bootable(e) {
      LocatableNeeds(e);
    }
  }

  lemma MemberBootable(nodes: seq<Node>, tag: string, e: Node)
    requires tag in KINDS && e in Descendants(nodes, tag)
    ensures Bootable(e) && e.tag == tag
  {
    hide Descendants;
    var j :| 0 <= j < |Descendants(nodes, tag)| && Descendants(nodes, tag)[j] == e;
    DescendantAt(nodes, tag, j);
    BootableTags();
  }
}
