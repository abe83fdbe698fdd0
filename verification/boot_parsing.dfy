/**
 * Devices and legacy boot entries in the form libvirt gives them: what is parsed of a document
 * that describes a device, and which elements are skipped.
 */
module BootParsing {
  import opened Options
  import opened Sequences
  import opened XmlTree
  import opened BootOrderList
  import opened XmlParsing
  import opened BootDevices

  // ----- Devices -----

  /** The attribute of a child, if there are such a child and such an attribute. */
  predicate ChildField(e: Node, tag: string, attr: string, value: OptString) {
    if First(e, tag).None? then value == None else AttrField(First(e, tag).value, attr, value)
  }

  predicate GrandchildField(e: Node, outer: string, inner: string, attr: string, value: OptString) {
    if First(e, outer).None? then value == None else ChildField(First(e, outer).value, inner, attr, value)
  }

  predicate IsHostdev(e: Node, kind: string) {
    e.Element? && e.tag == "hostdev" && Attribute(e, "type") == Some(kind)
  }

  /** The element describes the device. A disk without a kind is a "disk". */
  ghost predicate DeviceDocument(e: Node, d: Device) {
    match d
    case Disk(target, kind) =>
      && e.Element? && e.tag == "disk" && ChildField(e, "target", "dev", Some(target))
      && (AttrField(e, "device", Some(kind)) || (kind == "disk" && Attribute(e, "device") == None))
    case Network(mac) => e.Element? && e.tag == "interface" && ChildField(e, "mac", "address", mac)
    case Redirdev(port) => e.Element? && e.tag == "redirdev" && ChildField(e, "address", "port", port)
    case Usb(vendor, product, port, bus, device) =>
      && IsHostdev(e, "usb")
      && GrandchildField(e, "source", "vendor", "id", vendor) && GrandchildField(e, "source", "product", "id", product)
      && ChildField(e, "address", "port", port)
      && GrandchildField(e, "source", "address", "bus", bus) && GrandchildField(e, "source", "address", "device", device)
    case Pci(domain, bus, slot, func) =>
      && IsHostdev(e, "pci")
      && GrandchildField(e, "source", "address", "domain", domain) && GrandchildField(e, "source", "address", "bus", bus)
      && GrandchildField(e, "source", "address", "slot", slot) && GrandchildField(e, "source", "address", "function", func)
    case Scsi(protocol, name, bus, target, unit, adapter) =>
      && IsHostdev(e, "scsi") && ChildField(e, "source", "protocol", protocol)
      && (if protocol == Some("iscsi") then ChildField(e, "source", "name", name) else name == None)
      && GrandchildField(e, "source", "address", "bus", bus) && GrandchildField(e, "source", "address", "target", target)
      && GrandchildField(e, "source", "address", "unit", unit) && GrandchildField(e, "source", "adapter", "name", adapter)
    case ScsiHost(protocol, wwpn) =>
      IsHostdev(e, "scsi_host") && ChildField(e, "source", "protocol", protocol) && ChildField(e, "source", "wwpn", wwpn)
    case Mdev(uuid) => IsHostdev(e, "mdev") && GrandchildField(e, "source", "address", "uuid", uuid)
    case Misc(kind, text) =>
      || (kind == "storage" && IsHostdev(e, kind) && NestedText(e, "source", "block", text))
      || (kind == "misc" && IsHostdev(e, kind) && NestedText(e, "source", "char", text))
      || (kind == "net" && IsHostdev(e, kind) && NestedText(e, "source", "interface", text))
  }

  lemma ReadChildField(e: Node, tag: string, attr: string, value: OptString)
    requires ChildField(e, tag, attr, value)
    ensures Attr1(e, tag, attr) == value
  {
    GetChildFirst(e, tag);
  }

  lemma ReadGrandchildField(e: Node, outer: string, inner: string, attr: string, value: OptString)
    requires GrandchildField(e, outer, inner, attr, value)
    ensures Attr2(e, outer, inner, attr) == value
  {
    GetChildFirstTwice(e, outer, inner);
  }

  lemma ReadOwnField(e: Node, attr: string)
    ensures Attr0(e, attr) == NonEmpty(Attribute(e, attr))
  {
  }

  /** Parsing an element that describes a device gives the device. */
  lemma DeviceParsed(e: Node, d: Device)
    requires DeviceDocument(e, d)
    ensures e.Element? && DeviceOf(e) == Some(d)
  {
    hide ChildField, GrandchildField, NestedText, Attr1, Attr2, Attr0, GetText;
    ReadOwnField(e, "type");
    match d {
      case Disk(target, kind) =>
        ReadChildField(e, "target", "dev", Some(target));
        ReadOwnField(e, "device");
      case Network(mac) => ReadChildField(e, "mac", "address", mac);
      case Redirdev(port) => ReadChildField(e, "address", "port", port);
      case Usb(vendor, product, port, bus, device) =>
        ReadGrandchildField(e, "source", "vendor", "id", vendor);
        ReadGrandchildField(e, "source", "product", "id", product);
        ReadChildField(e, "address", "port", port);
        ReadGrandchildField(e, "source", "address", "bus", bus);
        ReadGrandchildField(e, "source", "address", "device", device);
      case Pci(domain, bus, slot, func) =>
        ReadGrandchildField(e, "source", "address", "domain", domain);
        ReadGrandchildField(e, "source", "address", "bus", bus);
        ReadGrandchildField(e, "source", "address", "slot", slot);
        ReadGrandchildField(e, "source", "address", "function", func);
      case Scsi(_, _, _, _, _, _) => ScsiParsed(e, d);
      case ScsiHost(protocol, wwpn) =>
        ReadChildField(e, "source", "protocol", protocol);
        ReadChildField(e, "source", "wwpn", wwpn);
      case Mdev(uuid) => ReadGrandchildField(e, "source", "address", "uuid", uuid);
      case Misc(kind, text) => MiscParsed(e, kind, text);
    }
  }

  lemma ScsiParsed(e: Node, d: Device)
    requires d.Scsi? && DeviceDocument(e, d)
    ensures e.Element? && DeviceOf(e) == Some(d)
  {
    hide ChildField, GrandchildField, Attr1, Attr2, Attr0;
    ReadOwnField(e, "type");
    ReadChildField(e, "source", "protocol", d.protocol);
    if d.protocol == Some("iscsi") {
      ReadChildField(e, "source", "name", d.name);
    }
    ReadGrandchildField(e, "source", "address", "bus", d.scsiBus);
    ReadGrandchildField(e, "source", "address", "target", d.scsiTarget);
    ReadGrandchildField(e, "source", "address", "unit", d.unit);
    ReadGrandchildField(e, "source", "adapter", "name", d.adapter);
  }

  lemma MiscParsed(e: Node, kind: string, text: OptString)
    requires DeviceDocument(e, Misc(kind, text))
    ensures e.Element? && DeviceOf(e) == Some(Misc(kind, text))
  {
    hide NestedText, Attr0, GetText;
    ReadOwnField(e, "type");
    if kind == "storage" {
      ReadNestedText(e, "source", "block", text);
    } else if kind == "misc" {
      ReadNestedText(e, "source", "char", text);
    } else {
      ReadNestedText(e, "source", "interface", text);
    }
  }

  /** The kinds of host devices that are parsed. */
  predicate HostKind(kind: OptString) {
    || kind == Some("usb") || kind == Some("pci") || kind == Some("scsi") || kind == Some("scsi_host")
    || kind == Some("mdev") || kind == Some("storage") || kind == Some("misc") || kind == Some("net")
  }

  /** Skipped are exactly disks without a target, host devices of other kinds, and all elements
      that are no devices. */
  lemma SkippedExactly(e: Node)
    requires e.Element?
    ensures DeviceOf(e) == None
       <==> (if e.tag == "disk" then
               First(e, "target").None? || NonEmpty(Attribute(First(e, "target").value, "dev")) == None
             else if e.tag == "hostdev" then !HostKind(Attribute(e, "type"))
             else e.tag != "interface" && e.tag != "redirdev")
  {
    ReadOwnField(e, "type");
    GetChildFirst(e, "target");
  }

  // ----- The lists of devices -----

  ghost predicate Listed(s: seq<DeviceElement>, e: Node) {
    exists i :: 0 <= i < |s| && s[i] == e
  }

  /** The element, if it describes a device of the kind. */
  function OneDescribing(n: Node, tag: string): seq<DeviceElement> {
    if IsDevice(n) && n.tag == tag then [n] else []
  }

  lemma DescribingUnfold(nodes: seq<Node>, tag: string)
    requires nodes != []
    ensures Describing(nodes, tag) == OneDescribing(nodes[0], tag) + Describing(nodes[1..], tag)
  {
  }

  lemma ListedConcat(a: seq<DeviceElement>, b: seq<DeviceElement>, e: Node)
    ensures Listed(a + b, e) <==> Listed(a, e) || Listed(b, e)
  {
    hide IsDevice;
    if Listed(a, e) {
      var i :| 0 <= i < |a| && a[i] == e;
      assert (a + b)[i] == e;
    }
    if Listed(b, e) {
      var i :| 0 <= i < |b| && b[i] == e;
      assert (a + b)[|a| + i] == e;
    }
  }

  lemma ListedOne(n: Node, tag: string, e: Node)
    ensures Listed(OneDescribing(n, tag), e) <==> e == n && e.Element? && e.tag == tag && DeviceOf(e).Some?
  {
    if IsDevice(n) && n.tag == tag {
      assert OneDescribing(n, tag)[0] == n;
    }
  }

  /** The elements of a kind that are listed are those that describe a device. */
  lemma {:induction false} DescribingMember(nodes: seq<Node>, tag: string, e: Node)
    ensures Listed(Describing(nodes, tag), e) <==> e in nodes && e.Element? && e.tag == tag && DeviceOf(e).Some?
  {
    if nodes != [] {
      hide DeviceOf, IsDevice, Describing, OneDescribing, Listed;
      DescribingMember(nodes[1..], tag, e);
      DescribingUnfold(nodes, tag);
      ListedConcat(OneDescribing(nodes[0], tag), Describing(nodes[1..], tag), e);
      ListedOne(nodes[0], tag, e);
      assert nodes == [nodes[0]] + nodes[1..];
    }
  }

  /** They are listed in document order. */
  lemma {:induction false} DescribingConcat(a: seq<Node>, b: seq<Node>, tag: string)
    ensures Describing(a + b, tag) == Describing(a, tag) + Describing(b, tag)
  {
    hide IsDevice, Describing, OneDescribing;
    DescribingNone(tag);
    if a == [] {
      assert a + b == b;
    } else {
      DescribingConcat(a[1..], b, tag);
      DescribingUnfold(a, tag);
      DescribingUnfold(a + b, tag);
      assert (a + b)[1..] == a[1..] + b;
      Associate(OneDescribing(a[0], tag), Describing(a[1..], tag), Describing(b, tag));
    }
  }

  lemma DescribingNone(tag: string)
    ensures Describing([], tag) == []
  {
  }

  lemma Associate<T>(a: seq<T>, b: seq<T>, c: seq<T>)
    ensures a + (b + c) == a + b + c
  {
  }

  /** The entry with a target that stands last. */
  function LastWith(s: seq<BootEntry>, target: string): Option<BootEntry> {
    if s == [] then None
    else
      var x := s[|s| - 1];
      if x.device.Disk? && x.device.target == target then Some(x) else LastWith(s[..|s| - 1], target)
  }

  ghost predicate DifferentDisks(s: seq<BootEntry>) {
    && (forall i :: 0 <= i < |s| ==> s[i].device.Disk?)
    && (forall i, j :: 0 <= i < j < |s| ==> s[i].device.target != s[j].device.target)
  }

  lemma {:induction false} LastWithIs(s: seq<BootEntry>, target: string, i: nat)
    requires DifferentDisks(s) && i < |s| && s[i].device.target == target
    ensures LastWith(s, target) == Some(s[i])
  {
    if i < |s| - 1 {
      LastWithIs(s[..|s| - 1], target, i);
    }
  }

  lemma {:induction false} LastWithNone(s: seq<BootEntry>, target: string)
    requires forall i :: 0 <= i < |s| ==> s[i].device.Disk? && s[i].device.target != target
    ensures LastWith(s, target) == None
  {
    if s != [] {
      LastWithNone(s[..|s| - 1], target);
    }
  }

  lemma OneDiskPut(disks: seq<BootEntry>, x: BootEntry, target: string)
    requires DifferentDisks(disks) && x.device.Disk?
    ensures DifferentDisks(PutDisk(disks, x))
    ensures LastWith(PutDisk(disks, x), target) == if x.device.target == target then Some(x) else LastWith(disks, target)
  {
    var r := PutDisk(disks, x);
    var at := FindSame(disks, x);
    if at < |disks| {
      assert r == disks[at := x];
      assert r[at] == x;
    } else {
      assert r == disks + [x];
      assert r[|disks|] == x;
    }
    if exists i :: 0 <= i < |r| && r[i].device.target == target {
      var i :| 0 <= i < |r| && r[i].device.target == target;
      LastWithIs(r, target, i);
      if x.device.target != target {
        assert r[i] == disks[i];
        LastWithIs(disks, target, i);
      }
    } else {
      LastWithNone(r, target);
      assert forall i :: 0 <= i < |disks| && i != at ==> r[i] == disks[i];
      LastWithNone(disks, target);
    }
  }

  /** Where the disk with the same target is, or the end. */
  lemma FindSame(disks: seq<BootEntry>, x: BootEntry) returns (at: nat)
    requires DifferentDisks(disks) && x.device.Disk?
    ensures at <= |disks| && forall i :: 0 <= i < at ==> disks[i].device.target != x.device.target
    ensures at < |disks| ==> disks[at].device.target == x.device.target
    ensures PutDisk(disks, x) == if at < |disks| then disks[at := x] else disks + [x]
  {
    var found := FindIndex(disks, d => SameKey(d, x));
    at := if found.Some? then found.value else |disks|;
  }

  /** Of disks with the same target the last one is kept, once. */
  lemma {:induction false} LastTargetKept(disks: seq<BootEntry>, xs: seq<BootEntry>, target: string)
    requires DifferentDisks(disks) && forall i :: 0 <= i < |xs| ==> xs[i].device.Disk?
    ensures DifferentDisks(PutDisks(disks, xs))
    ensures LastWith(PutDisks(disks, xs), target) == LastWith(disks + xs, target)
    decreases |xs|
  {
    hide PutDisk, DifferentDisks;
    if xs == [] {
      assert disks + xs == disks;
    } else {
      OneDiskPut(disks, xs[0], target);
      LastTargetKept(PutDisk(disks, xs[0]), xs[1..], target);
      LastOfConcat(PutDisk(disks, xs[0]), xs[1..], target);
      LastOfConcat(disks + [xs[0]], xs[1..], target);
      assert (disks + [xs[0]])[..|disks|] == disks;
      assert disks + xs == disks + [xs[0]] + xs[1..];
    }
  }

  lemma {:induction false} LastOfConcat(a: seq<BootEntry>, b: seq<BootEntry>, target: string)
    ensures LastWith(a + b, target) == if LastWith(b, target).Some? then LastWith(b, target) else LastWith(a, target)
  {
    if b == [] {
      assert a + b == a;
    } else {
      LastOfConcat(a, b[..|b| - 1], target);
      assert (a + b)[..|a + b| - 1] == a + b[..|b| - 1];
    }
  }

  // ----- Legacy boot entries -----

  /** What an entry with a device is shown as. */
  predicate ShownAs(dev: string, text: string) {
    && (dev == "hd" ==> text == "disk") && (dev == "interface" ==> text == "network")
    && (dev == "redirdev" ==> text == "redirected device") && (dev == "hostdev" ==> text == "host device")
    && (dev !in ["hd", "interface", "redirdev", "hostdev"] ==> text == dev)
  }

  /** Each entry with a device is listed as what the device is called; one without is skipped. */
  lemma {:induction false} LegacyParsed(elems: seq<Node>, devs: seq<string>)
    requires |elems| == |devs|
    requires forall i :: 0 <= i < |elems| ==> Attribute(elems[i], "dev") == Some(devs[i]) && devs[i] != ""
    ensures |OsBootTypes(elems)| == |devs|
    ensures forall i :: 0 <= i < |devs| ==> ShownAs(devs[i], OsBootTypes(elems)[i])
  {
    hide OsBootType, ShownAs;
    if elems != [] {
      OneShown(devs[0]);
      LegacyParsed(elems[1..], devs[1..]);
    }
  }

  lemma OneShown(dev: string)
    ensures ShownAs(dev, OsBootType(dev))
  {
    var all := ["hd", "interface", "redirdev", "hostdev"];
    assert all[0] in all && all[1] in all && all[2] in all && all[3] in all;
  }

  lemma {:induction false} LegacySkipped(before: seq<Node>, e: Node, after: seq<Node>)
    requires NonEmpty(Attribute(e, "dev")) == None
    ensures OsBootTypes(before + [e] + after) == OsBootTypes(before + after)
  {
    if before == [] {
      assert (before + [e] + after)[1..] == after && before + after == after;
    } else {
      LegacySkipped(before[1..], e, after);
      assert (before + [e] + after)[1..] == before[1..] + [e] + after;
      assert (before + after)[1..] == before[1..] + after;
    }
  }
}
