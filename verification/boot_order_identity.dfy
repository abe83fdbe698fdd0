/**
 * Which devices the boot order update recognises, said in terms of the devices alone, for
 * definitions laid out the usual way.
 */
module BootOrderIdentity {
  import opened Options
  import opened Sequences
  import opened XmlTree
  import opened BootOrderList
  import opened BootDevices
  import opened BootOrderDescendants
  import opened BootOrderUpdate
  import opened BootOrderOutcome
  import opened BootOrderRoundTrip

  /** The first descendant with the tag is a child. */
  predicate AtTop(n: Option<Node>, tag: string) {
    n.Some? ==> In(n, tag) == First(n.value, tag)
  }

  function SourceOf(e: Node): Option<Node> {
    First(e, "source")
  }

  /** Where the update looks for what tells devices apart is where the parsers have read it. */
  predicate UsualLayout(e: DeviceElement) {
    if e.tag == "disk" then AtTop(Some(e), "target")
    else if e.tag == "interface" then AtTop(Some(e), "mac")
    else if e.tag == "redirdev" then AtTop(Some(e), "address")
    else AtTop(Some(e), "source") && UsualHost(e, Attr0(e, "type"))
  }

  predicate UsualHost(e: DeviceElement, kind: OptString) {
    var source := SourceOf(e);
    if kind == Some("usb") then
      AtTop(source, "vendor") && AtTop(source, "product")
      && UsualUsb(e, source, In(source, "vendor"), In(source, "product"))
    else if kind == Some("pci") || kind == Some("mdev") then
      In(Some(e), "address") == if source.None? then None else First(source.value, "address")
    else if kind == Some("scsi") then
      AtTop(source, "address") && AtTop(source, "adapter") && Raw(In(source, "address"), "protocol").None?
    else true
  }

  /** A vendor and a product have their numbers. Without them the first address is that of the
      source, with a place on the bus and no port, or else there is none and it is that of the device. */
  predicate UsualUsb(e: DeviceElement, source: Option<Node>, vendor: Option<Node>, product: Option<Node>) {
    if vendor.Some? && product.Some? then Truthy(Raw(vendor, "id")) && Truthy(Raw(product, "id"))
    else
      var place := if source.None? then None else First(source.value, "address");
      if place.Some? then
        In(Some(e), "address") == place && Raw(place, "port").None?
        && (Truthy(Raw(place, "bus")) || Truthy(Raw(place, "device")))
      else AtTop(Some(e), "address")
  }

  predicate Agree(a: OptString, b: OptString) {
    a.Some? && a == b
  }

  /** What makes two devices the same to the update. Missing values never agree. */
  predicate SameIdentity(a: Device, b: Device) {
    match a
    case Disk(target, _) => b.Disk? && target == b.target
    case Network(mac) => b.Network? && Agree(mac, b.mac)
    case Redirdev(port) => b.Redirdev? && Agree(port, b.port)
    case Usb(vendor, product, port, sourceBus, sourceDevice) =>
      b.Usb? &&
      if vendor.Some? && product.Some? then vendor == b.vendor && product == b.product
      else sourceBus.None? && sourceDevice.None? && Agree(port, b.usbPort)
    case Pci(domain, bus, slot, func) =>
      b.Pci? && Agree(domain, b.domain) && Agree(bus, b.bus) && Agree(slot, b.slot) && Agree(func, b.func)
    case Scsi(_, _, bus, target, unit, adapter) =>
      b.Scsi? && Agree(bus, b.scsiBus) && Agree(target, b.scsiTarget) && Agree(unit, b.unit) && Agree(adapter, b.adapter)
    case ScsiHost(protocol, wwpn) => b.ScsiHost? && Agree(protocol, b.hostProtocol) && Agree(wwpn, b.wwpn)
    case Mdev(uuid) => b.Mdev? && Agree(uuid, b.uuid)
    case Misc(_, _) => false
  }

  // ----- Reading the same place twice -----

  lemma ReadOnce(e: Node, tag: string, attr: string)
    ensures Attr1(e, tag, attr) == NonEmpty(Raw(First(e, tag), attr))
  {
    GetChildFirst(e, tag);
  }

  lemma ReadTwice(e: Node, outer: string, inner: string, attr: string)
    ensures Attr2(e, outer, inner, attr)
         == if First(e, outer).None? then None else NonEmpty(Raw(First(First(e, outer).value, inner), attr))
  {
    GetChildFirstTwice(e, outer, inner);
  }

  lemma OwnType(e: Node, kind: string)
    requires kind != ""
    ensures Attr0(e, "type") == Some(kind) <==> Attribute(e, "type") == Some(kind)
  {
  }

  /** Parsed values are never empty. */
  predicate Parsed(t: Device) {
    match t
    case Disk(target, _) => target != ""
    case Network(mac) => mac != Some("")
    case Redirdev(port) => port != Some("")
    case Usb(vendor, product, port, _, _) => vendor != Some("") && product != Some("") && port != Some("")
    case Pci(domain, bus, slot, func) => domain != Some("") && bus != Some("") && slot != Some("") && func != Some("")
    case Scsi(_, _, bus, target, unit, adapter) => bus != Some("") && target != Some("") && unit != Some("") && adapter != Some("")
    case ScsiHost(protocol, wwpn) => protocol != Some("") && wwpn != Some("")
    case Mdev(uuid) => uuid != Some("")
    case Misc(_, _) => true
  }

  lemma DeviceIsParsed(e: DeviceElement)
    ensures Parsed(DeviceAt(e))
  {
    hide GetChild, First;
  }

  // ----- Kind by kind -----

  lemma TakenSimple(e: DeviceElement, t: Device)
    requires e.tag != "hostdev" && UsualLayout(e) && Parsed(t)
    ensures TakenFor(e, t) <==> SameIdentity(DeviceAt(e), t)
  {
    hide First, FirstDescendant, GetChild, Attr1;
    ReadOnce(e, "target", "dev");
    ReadOnce(e, "mac", "address");
    ReadOnce(e, "address", "port");
  }

  lemma TakenUsb(e: DeviceElement, t: Device)
    requires e.tag == "hostdev" && Attr0(e, "type") == Some("usb") && UsualLayout(e) && Parsed(t)
    ensures TakenFor(e, t) <==> SameIdentity(DeviceAt(e), t)
  {
    hide First, FirstDescendant, Attr1, Attr2, GetChild;
    OwnType(e, "usb");
    ReadTwice(e, "source", "vendor", "id");
    ReadTwice(e, "source", "product", "id");
    ReadTwice(e, "source", "address", "bus");
    ReadTwice(e, "source", "address", "device");
    ReadOnce(e, "address", "port");
  }

  lemma TakenPci(e: DeviceElement, t: Device)
    requires e.tag == "hostdev" && Attr0(e, "type") == Some("pci") && UsualLayout(e) && Parsed(t)
    ensures TakenFor(e, t) <==> SameIdentity(DeviceAt(e), t)
  {
    hide First, FirstDescendant, Attr1, Attr2, GetChild;
    OwnType(e, "pci");
    ReadTwice(e, "source", "address", "domain");
    ReadTwice(e, "source", "address", "bus");
    ReadTwice(e, "source", "address", "slot");
    ReadTwice(e, "source", "address", "function");
  }

  lemma TakenScsi(e: DeviceElement, t: Device)
    requires e.tag == "hostdev" && Attr0(e, "type") == Some("scsi") && UsualLayout(e) && Parsed(t)
    ensures TakenFor(e, t) <==> SameIdentity(DeviceAt(e), t)
  {
    hide First, FirstDescendant, Attr1, Attr2, GetChild;
    OwnType(e, "scsi");
    ReadTwice(e, "source", "address", "bus");
    ReadTwice(e, "source", "address", "target");
    ReadTwice(e, "source", "address", "unit");
    ReadTwice(e, "source", "adapter", "name");
  }

  lemma TakenScsiHost(e: DeviceElement, t: Device)
    requires e.tag == "hostdev" && Attr0(e, "type") == Some("scsi_host") && UsualLayout(e) && Parsed(t)
    ensures TakenFor(e, t) <==> SameIdentity(DeviceAt(e), t)
  {
    hide First, FirstDescendant, Attr1, Attr2, GetChild;
    OwnType(e, "scsi_host");
    ReadOnce(e, "source", "protocol");
    ReadOnce(e, "source", "wwpn");
  }

  lemma TakenMdev(e: DeviceElement, t: Device)
    requires e.tag == "hostdev" && Attr0(e, "type") == Some("mdev") && UsualLayout(e) && Parsed(t)
    ensures TakenFor(e, t) <==> SameIdentity(DeviceAt(e), t)
  {
    hide First, FirstDescendant, Attr1, Attr2, GetChild;
    OwnType(e, "mdev");
    ReadTwice(e, "source", "address", "uuid");
  }

  /** An element is taken for a device exactly if that is the same device as its own. */
  lemma TakenForSame(e: DeviceElement, t: Device)
    requires UsualLayout(e) && Parsed(t)
    ensures TakenFor(e, t) <==> SameIdentity(DeviceAt(e), t)
  {
    hide UsualLayout, TakenFor, SameIdentity, Parsed, Attr0;
    var kind := Attr0(e, "type");
    if e.tag != "hostdev" {
      TakenSimple(e, t);
    } else if kind == Some("usb") {
      TakenUsb(e, t);
    } else if kind == Some("pci") {
      TakenPci(e, t);
    } else if kind == Some("scsi") {
      TakenScsi(e, t);
    } else if kind == Some("scsi_host") {
      TakenScsiHost(e, t);
    } else if kind == Some("mdev") {
      TakenMdev(e, t);
    } else {
      TakenMisc(e, t);
    }
  }

  lemma TakenMisc(e: DeviceElement, t: Device)
    requires e.tag == "hostdev" && Attr0(e, "type") !in {Some("usb"), Some("pci"), Some("scsi"), Some("scsi_host"), Some("mdev")}
    ensures !TakenFor(e, t) && !SameIdentity(DeviceAt(e), t)
  {
    hide First, FirstDescendant, Attr1, Attr2, GetChild;
    OwnType(e, "usb");
    OwnType(e, "pci");
    OwnType(e, "scsi");
    OwnType(e, "scsi_host");
    OwnType(e, "mdev");
  }

  // ----- The round trip, in terms of devices -----

  /** Different devices have different identities, and different disks different targets. */
  ghost predicate DifferentDevices(devices: seq<Device>) {
    && NoDuplicates(devices)
    && forall i, j :: 0 <= i < |devices| && 0 <= j < |devices| && i != j ==> !SameIdentity(devices[i], devices[j])
  }

  ghost predicate Usual(nodes: seq<Node>) {
    && PlainDevices(nodes) && Hollow(nodes) && (AllLocatable(nodes) ==> Flat(nodes))
    && forall e :: e in DeviceElements(nodes) ==> UsualLayout(e)
  }

  lemma UsualWellFormed(nodes: seq<Node>)
    requires Usual(nodes) && DifferentDevices(DescribedDevices(DeviceElements(nodes)))
    ensures WellFormed(nodes)
  {
    hide PlainDevices, UsualLayout, TakenFor, DeviceElements, DeviceAt, SameIdentity, NoDuplicates, SameTarget,
         IsDevice, Hollow, Flat, AllLocatable;
    var elems := DeviceElements(nodes);
    var devices := DescribedDevices(elems);
    forall i, j | 0 <= i < |elems| && 0 <= j < |elems| && TakenFor(elems[i], DeviceAt(elems[j])) ensures i == j {
      assert elems[i] in elems;
      DeviceIsParsed(elems[j]);
      TakenForSame(elems[i], DeviceAt(elems[j]));
      assert SameIdentity(devices[i], devices[j]);
    }
    forall i, j | 0 <= i < j < |elems| ensures !SameTarget(DeviceAt(elems[i]), DeviceAt(elems[j])) {
      SameTargetIdentity(devices[i], devices[j]);
    }
  }

  lemma SameTargetIdentity(a: Device, b: Device)
    ensures SameTarget(a, b) ==> SameIdentity(a, b)
  {
  }

  /** A device that has what it takes to be recognised. */
  predicate Identified(d: Device) {
    SameIdentity(d, d)
  }

  /** For the usual layout: writing a choice succeeds and reading it back shows the choice exactly
      if all that is dereferenced is there, all chosen devices are identified and the first is no
      host device. */
  lemma UsualRoundTrip(os: Option<seq<Node>>, nodes: seq<Node>, chosen: seq<Device>)
    requires Usual(nodes) && DifferentDevices(DescribedDevices(DeviceElements(nodes)))
    requires ChoiceOf(DeviceElements(nodes), chosen)
    ensures var saved := Saved(os, nodes, chosen);
            saved.Some? && SortedBootList(saved.value) == Shown(DescribedDevices(DeviceElements(nodes)), chosen)
            <==> os.Some? && AllLocatable(nodes) && (forall d :: d in chosen ==> Identified(d))
                 && !StartsWithHostDevice(chosen)
  {
    hide UsualLayout, TakenFor, DeviceElements, DeviceAt, SameIdentity, SortedBootList, Saved, Shown, WellFormed,
         DifferentDevices, PlainDevices, IsDevice, NoDuplicates, Hollow, Flat, AllLocatable;
    UsualWellFormed(nodes);
    RoundTrip(os, nodes, chosen);
    var elems := DeviceElements(nodes);
    forall i | 0 <= i < |elems| ensures Recognised(elems[i]) <==> Identified(DeviceAt(elems[i])) {
      assert elems[i] in elems;
      DeviceIsParsed(elems[i]);
      TakenForSame(elems[i], DeviceAt(elems[i]));
    }
    ChosenAreElements(elems, chosen);
  }

  lemma ChosenAreElements(elems: seq<DeviceElement>, chosen: seq<Device>)
    requires ChoiceOf(elems, chosen)
    ensures forall d :: d in chosen ==> exists i :: 0 <= i < |elems| && DeviceAt(elems[i]) == d
  {
    hide DeviceAt, IsDevice;
    forall d | d in chosen ensures exists i :: 0 <= i < |elems| && DeviceAt(elems[i]) == d {
      assert d in DescribedDevices(elems);
      var i :| 0 <= i < |elems| && DescribedDevices(elems)[i] == d;
      assert DeviceAt(elems[i]) == d;
    }
  }
}
