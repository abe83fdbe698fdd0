/**
 * The devices of a virtual machine that can have a boot order: how they are read off its
 * definition, and the list the boot order dialog starts from.
 */
module BootDevices {
  import opened Options
  import opened Sequences
  import opened XmlTree
  import opened BootOrderList
  import Numerals

  // ----- Parsing -----

  /** What is read of a device, as far as it tells devices apart. */
  datatype Device =
    | Disk(target: string, kind: string)
    | Network(mac: OptString)
    | Redirdev(port: OptString)
    | Usb(vendor: OptString, product: OptString, usbPort: OptString, sourceBus: OptString, sourceDevice: OptString)
    | Pci(domain: OptString, bus: OptString, slot: OptString, func: OptString)
    | Scsi(protocol: OptString, name: OptString, scsiBus: OptString, scsiTarget: OptString, unit: OptString, adapter: OptString)
    | ScsiHost(hostProtocol: OptString, wwpn: OptString)
    | Mdev(uuid: OptString)
    | Misc(type_: string, text: OptString)
  {
    predicate IsHostDevice() {
      !Disk? && !Network? && !Redirdev?
    }
  }

  type BootEntry = Entry<Device>

  function Attr0(e: Node, attr: string): OptString {
    GetAttr(Some(e), [], attr)
  }

  function Attr1(e: Node, tag: string, attr: string): OptString {
    GetAttr(Some(e), [Tag(tag)], attr)
  }

  function Attr2(e: Node, outer: string, inner: string, attr: string): OptString {
    GetAttr(Some(e), [Tag(outer), Tag(inner)], attr)
  }

  /** The device an element describes; None for one the parsers skip. */
  function DeviceOf(e: Node): Option<Device>
    requires e.Element?
  {
    if e.tag == "disk" then
      var target := Attr1(e, "target", "dev");
      if target.None? then None else Some(Disk(target.value, Attr0(e, "device").GetOr("disk")))
    else if e.tag == "interface" then Some(Network(Attr1(e, "mac", "address")))
    else if e.tag == "redirdev" then Some(Redirdev(Attr1(e, "address", "port")))
    else if e.tag == "hostdev" then HostDeviceOf(e)
    else None
  }

  function HostDeviceOf(e: Node): Option<Device> {
    var kind := Attr0(e, "type");
    if kind == Some("usb") then
      Some(Usb(Attr2(e, "source", "vendor", "id"), Attr2(e, "source", "product", "id"), Attr1(e, "address", "port"),
               Attr2(e, "source", "address", "bus"), Attr2(e, "source", "address", "device")))
    else if kind == Some("pci") then
      Some(Pci(Attr2(e, "source", "address", "domain"), Attr2(e, "source", "address", "bus"),
               Attr2(e, "source", "address", "slot"), Attr2(e, "source", "address", "function")))
    else if kind == Some("scsi") then
      var protocol := Attr1(e, "source", "protocol");
      Some(Scsi(protocol, if protocol == Some("iscsi") then Attr1(e, "source", "name") else None,
                Attr2(e, "source", "address", "bus"), Attr2(e, "source", "address", "target"),
                Attr2(e, "source", "address", "unit"), Attr2(e, "source", "adapter", "name")))
    else if kind == Some("scsi_host") then Some(ScsiHost(Attr1(e, "source", "protocol"), Attr1(e, "source", "wwpn")))
    else if kind == Some("mdev") then Some(Mdev(Attr2(e, "source", "address", "uuid")))
    else if kind == Some("storage") then Some(Misc("storage", GetText(Some(e), [Tag("source"), Tag("block")])))
    else if kind == Some("misc") then Some(Misc("misc", GetText(Some(e), [Tag("source"), Tag("char")])))
    else if kind == Some("net") then Some(Misc("net", GetText(Some(e), [Tag("source"), Tag("interface")])))
    else None
  }

  /** `to_optNumber(get_attr(e, 'boot', 'order'))` */
  function OwnOrder(e: Node): Option<nat> {
    var order := Attr1(e, "boot", "order");
    if order.None? then None else Numerals.ToNumber(order.value)
  }

  predicate IsDevice(e: Node) {
    e.Element? && DeviceOf(e).Some?
  }

  /** An element that describes a device. */
  type DeviceElement = e: Node | IsDevice(e) witness Element("interface", map[], [])

  function DeviceAt(e: DeviceElement): Device {
    DeviceOf(e).value
  }

  function EntryOf(e: DeviceElement): BootEntry {
    Entry(DeviceAt(e), OwnOrder(e))
  }

  /** The elements with a tag that describe a device, in document order. */
  function Describing(nodes: seq<Node>, tag: string): (r: seq<DeviceElement>)
    ensures forall e :: e in r ==> e.tag == tag
  {
    if nodes == [] then []
    else
      (if IsDevice(nodes[0]) && nodes[0].tag == tag then [nodes[0]] else [])
      + Describing(nodes[1..], tag)
  }

  function Entries(elems: seq<DeviceElement>): (r: seq<BootEntry>)
    ensures |r| == |elems| && forall i :: 0 <= i < |r| ==> r[i] == EntryOf(elems[i])
  {
    seq(|elems|, i requires 0 <= i < |elems| => EntryOf(elems[i]))
  }

  /** `disks[disk.target] = disk`: a repeated target replaces the disk where it stands. */
  function PutDisk(disks: seq<BootEntry>, x: BootEntry): seq<BootEntry> {
    match FindIndex(disks, d => SameKey(d, x))
    case Some(i) => disks[i := x]
    case None => disks + [x]
  }

  predicate SameKey(d: BootEntry, x: BootEntry) {
    d.device.Disk? && x.device.Disk? && d.device.target == x.device.target
  }

  function PutDisks(disks: seq<BootEntry>, xs: seq<BootEntry>): seq<BootEntry>
    decreases |xs|
  {
    if xs == [] then disks else PutDisks(PutDisk(disks, xs[0]), xs[1..])
  }

  /** Disks with different targets are all kept, in document order. */
  lemma {:induction false} DistinctTargets(disks: seq<BootEntry>, xs: seq<BootEntry>)
    requires forall i, j :: 0 <= i < |disks| && 0 <= j < |xs| ==> !SameKey(disks[i], xs[j])
    requires forall i, j :: 0 <= i < j < |xs| ==> !SameKey(xs[i], xs[j])
    ensures PutDisks(disks, xs) == disks + xs
    decreases |xs|
  {
    hide SameKey;
    if xs != [] {
      var next := PutDisk(disks, xs[0]);
      assert next == disks + [xs[0]];
      DistinctTargets(next, xs[1..]);
      assert next + xs[1..] == disks + xs;
    }
  }

  /** The texts that os/boot types are shown as, before any translation. */
  function OsBootType(dev: string): string {
    if dev == "hd" then "disk"
    else if dev == "interface" then "network"
    else if dev == "redirdev" then "redirected device"
    else if dev == "hostdev" then "host device"
    else dev
  }

  /** parseDumpxmlForOsBoot */
  function OsBootTypes(elems: seq<Node>): seq<string> {
    if elems == [] then []
    else
      var dev := Attribute(elems[0], "dev");
      (if Truthy(dev) then [OsBootType(dev.value)] else []) + OsBootTypes(elems[1..])
  }

  /** The part of a parsed definition that the list of bootable devices is made from. */
  datatype Machine = Machine(
    osBoot: seq<string>, disks: seq<BootEntry>, interfaces: seq<BootEntry>, redirdevs: seq<BootEntry>, hostdevs: seq<BootEntry>)
  {
    function Devices(): seq<Device> {
      DevicesOf(disks) + DevicesOf(interfaces) + DevicesOf(redirdevs) + DevicesOf(hostdevs)
    }
  }

  function DevicesOf(entries: seq<BootEntry>): seq<Device> {
    Map(entries, (e: BootEntry) => e.device)
  }

  /** Reads the children of <os> and of <devices>. */
  function ParseMachine(os: seq<Node>, devices: seq<Node>): Machine {
    Machine(OsBootTypes(Matching(Children(os), Tag("boot"))),
            PutDisks([], Entries(Describing(devices, "disk"))),
            Entries(Describing(devices, "interface")),
            Entries(Describing(devices, "redirdev")),
            Entries(Describing(devices, "hostdev")))
  }

  // ----- The list of bootable devices -----

  predicate IsDiskBoot(kind: string) {
    kind == "disk" || kind == "fd" || kind == "cdrom"
  }

  predicate IsNetworkBoot(kind: string) {
    kind == "network"
  }

  function DiskBoots(osBoot: seq<string>): nat {
    if osBoot == [] then 0
    else DiskBoots(osBoot[..|osBoot| - 1]) + if IsDiskBoot(osBoot[|osBoot| - 1]) then 1 else 0
  }

  function NetworkBoots(osBoot: seq<string>): nat {
    if osBoot == [] then 0
    else NetworkBoots(osBoot[..|osBoot| - 1]) + if IsNetworkBoot(osBoot[|osBoot| - 1]) then 1 else 0
  }

  /** What the legacy list under <os> claims: its n-th disk entry takes the n-th disk, its n-th
      network entry the n-th interface, under the place the entry has in the list. */
  function Claims(osBoot: seq<string>, disks: seq<BootEntry>, interfaces: seq<BootEntry>): seq<BootEntry> {
    if osBoot == [] then []
    else
      var before, kind := osBoot[..|osBoot| - 1], osBoot[|osBoot| - 1];
      Claims(before, disks, interfaces)
      + (if IsDiskBoot(kind) && DiskBoots(before) < |disks|
         then [Entry(disks[DiskBoots(before)].device, Some(|osBoot|))]
         else if IsNetworkBoot(kind) && NetworkBoots(before) < |interfaces|
         then [Entry(interfaces[NetworkBoots(before)].device, Some(|osBoot|))]
         else [])
  }

  function Unclaimed(entries: seq<BootEntry>, taken: nat): seq<BootEntry> {
    if taken < |entries| then entries[taken..] else []
  }

  function BootList(m: Machine): seq<BootEntry> {
    Claims(m.osBoot, m.disks, m.interfaces) + Unclaimed(m.disks, DiskBoots(m.osBoot))
    + Unclaimed(m.interfaces, NetworkBoots(m.osBoot)) + m.redirdevs + m.hostdevs
  }

  /** getSortedBootOrderDevices */
  function SortedBootList(m: Machine): seq<BootEntry> {
    Sort(BootList(m), ByOrder)
  }

  /** The search for a disk of the wanted kind: its condition compares the disk's kind with
      itself and so accepts every disk. */
  predicate Suits(disk: BootEntry) {
    disk.device.Disk? ==>
      var kind := if disk.device.kind != "" then disk.device.kind else "disk";
      disk.device.kind == kind || disk.device.kind == ""
  }

  /** getBootOrderDevices, with the lists of disks and interfaces shrinking as entries are claimed. */
  method GetBootOrderDevices(m: Machine) returns (devices: seq<BootEntry>)
    ensures devices == BootList(m)
  {
    hide Claims, DiskBoots, NetworkBoots, IsDiskBoot, IsNetworkBoot;
    devices := [];
    var disks, ifaces := m.disks, m.interfaces;
    var i := 0;
    StartOfClaims(m);
    while i < |m.osBoot|
      invariant 0 <= i <= |m.osBoot|
      invariant devices == Claims(m.osBoot[..i], m.disks, m.interfaces)
      invariant disks == Unclaimed(m.disks, DiskBoots(m.osBoot[..i]))
      invariant ifaces == Unclaimed(m.interfaces, NetworkBoots(m.osBoot[..i]))
    {
      var boot := m.osBoot[i];
      ClaimsStep(m, i);
      BootKindsDiffer(boot);
      if IsDiskBoot(boot) {
        var dev := FindIndex(disks, Suits);
        AnyDiskSuits(disks);
        if dev.Some? {
          devices := devices + [Entry(disks[dev.value].device, Some(i + 1))];
          disks := disks[..dev.value] + disks[dev.value + 1..];
        }
      } else if IsNetworkBoot(boot) {
        if |ifaces| > 0 {
          devices := devices + [Entry(ifaces[0].device, Some(i + 1))];
          ifaces := ifaces[1..];
        }
      }
      i := i + 1;
    }
    assert m.osBoot[..i] == m.osBoot;
    devices := devices + disks;
    devices := devices + ifaces;
    devices := devices + m.redirdevs;
    devices := devices + m.hostdevs;
  }

  lemma StartOfClaims(m: Machine)
    ensures m.osBoot[..0] == [] && Claims([], m.disks, m.interfaces) == [] && DiskBoots([]) == 0 && NetworkBoots([]) == 0
  {
  }

  lemma BootKindsDiffer(kind: string)
    ensures IsDiskBoot(kind) ==> !IsNetworkBoot(kind)
  {
  }

  lemma AnyDiskSuits(disks: seq<BootEntry>)
    ensures FindIndex(disks, Suits) == if disks == [] then None else Some(0)
  {
  }

  lemma ClaimsStep(m: Machine, i: nat)
    requires i < |m.osBoot|
    ensures var before, next, kind := m.osBoot[..i], m.osBoot[..i + 1], m.osBoot[i];
            && DiskBoots(next) == DiskBoots(before) + (if IsDiskBoot(kind) then 1 else 0)
            && NetworkBoots(next) == NetworkBoots(before) + (if IsNetworkBoot(kind) then 1 else 0)
            && Claims(next, m.disks, m.interfaces)
               == Claims(before, m.disks, m.interfaces)
                  + (if IsDiskBoot(kind) && DiskBoots(before) < |m.disks|
                     then [Entry(m.disks[DiskBoots(before)].device, Some(i + 1))]
                     else if IsNetworkBoot(kind) && NetworkBoots(before) < |m.interfaces|
                     then [Entry(m.interfaces[NetworkBoots(before)].device, Some(i + 1))]
                     else [])
  {
    assert m.osBoot[..i + 1][..i] == m.osBoot[..i];
  }

  // ----- What the list keeps -----

  lemma DevicesConcat(a: seq<BootEntry>, b: seq<BootEntry>)
    ensures DevicesOf(a + b) == DevicesOf(a) + DevicesOf(b)
  {
  }

  ghost function Bag(entries: seq<BootEntry>): multiset<Device> {
    multiset(DevicesOf(entries))
  }

  lemma BagConcat(a: seq<BootEntry>, b: seq<BootEntry>)
    ensures Bag(a + b) == Bag(a) + Bag(b)
  {
    DevicesConcat(a, b);
  }

  lemma BagOne(x: BootEntry)
    ensures Bag([x]) == multiset{x.device}
  {
    assert DevicesOf([x]) == [x.device];
  }

  lemma BagNone()
    ensures Bag([]) == multiset{}
  {
  }

  lemma TakeOne(entries: seq<BootEntry>, taken: nat)
    ensures taken < |entries| ==>
              Bag(Unclaimed(entries, taken)) == multiset{entries[taken].device} + Bag(Unclaimed(entries, taken + 1))
    ensures taken >= |entries| ==> Unclaimed(entries, taken) == Unclaimed(entries, taken + 1) == []
    ensures Unclaimed(entries, 0) == entries
  {
    if taken < |entries| {
      assert entries[taken..] == [entries[taken]] + Unclaimed(entries, taken + 1);
      BagConcat([entries[taken]], Unclaimed(entries, taken + 1));
      BagOne(entries[taken]);
    }
  }

  /** However the legacy entries claim devices, none is lost or doubled. */
  lemma {:induction false} ClaimsConserve(osBoot: seq<string>, disks: seq<BootEntry>, ifaces: seq<BootEntry>)
    ensures Bag(Claims(osBoot, disks, ifaces))
            + Bag(Unclaimed(disks, DiskBoots(osBoot))) + Bag(Unclaimed(ifaces, NetworkBoots(osBoot)))
         == Bag(disks) + Bag(ifaces)
  {
    hide Bag, Unclaimed, IsDiskBoot, IsNetworkBoot;
    BagNone();
    if osBoot == [] {
      TakeOne(disks, 0);
      TakeOne(ifaces, 0);
    } else {
      var before, kind := osBoot[..|osBoot| - 1], osBoot[|osBoot| - 1];
      ClaimsConserve(before, disks, ifaces);
      BootKindsDiffer(kind);
      var d, n := DiskBoots(before), NetworkBoots(before);
      TakeOne(disks, d);
      TakeOne(ifaces, n);
      if IsDiskBoot(kind) && d < |disks| {
        BagOne(Entry(disks[d].device, Some(|osBoot|)));
        BagConcat(Claims(before, disks, ifaces), [Entry(disks[d].device, Some(|osBoot|))]);
      } else if IsNetworkBoot(kind) && n < |ifaces| {
        BagOne(Entry(ifaces[n].device, Some(|osBoot|)));
        BagConcat(Claims(before, disks, ifaces), [Entry(ifaces[n].device, Some(|osBoot|))]);
      } else {
        BagConcat(Claims(before, disks, ifaces), []);
      }
    }
  }

  /** The list has every device of the machine as often as the machine has it. */
  lemma BootListConserves(m: Machine)
    ensures Bag(BootList(m)) == multiset(m.Devices())
  {
    hide Claims, Unclaimed, DevicesOf, DiskBoots, NetworkBoots;
    var c := Claims(m.osBoot, m.disks, m.interfaces);
    var d, n := Unclaimed(m.disks, DiskBoots(m.osBoot)), Unclaimed(m.interfaces, NetworkBoots(m.osBoot));
    ClaimsConserve(m.osBoot, m.disks, m.interfaces);
    BagConcat(c, d);
    BagConcat(c + d, n);
    BagConcat(c + d + n, m.redirdevs);
    BagConcat(c + d + n + m.redirdevs, m.hostdevs);
  }

  lemma BagCons(x: BootEntry, s: seq<BootEntry>)
    ensures Bag([x] + s) == multiset{x.device} + Bag(s)
  {
    BagConcat([x], s);
    BagOne(x);
  }

  lemma {:induction false} BagInsert(x: BootEntry, s: seq<BootEntry>, cmp: Comparator<BootEntry>)
    ensures Bag(Insert(x, s, cmp)) == multiset{x.device} + Bag(s)
  {
    hide Bag;
    BagCons(x, s);
    if s == [] || cmp(x, s[0]) <= 0 {
    } else {
      BagInsert(x, s[1..], cmp);
      BagCons(s[0], s[1..]);
      BagCons(s[0], Insert(x, s[1..], cmp));
      assert s == [s[0]] + s[1..];
    }
  }

  lemma {:induction false} BagSort(s: seq<BootEntry>, cmp: Comparator<BootEntry>)
    ensures Bag(Sort(s, cmp)) == Bag(s)
  {
    hide Bag;
    if s != [] {
      BagSort(s[1..], cmp);
      BagInsert(s[0], Sort(s[1..], cmp), cmp);
      BagCons(s[0], s[1..]);
      assert s == [s[0]] + s[1..];
    }
  }

  /** Sorted too, and then in ascending order with order-less devices last. */
  lemma SortedBootListConserves(m: Machine)
    ensures Bag(SortedBootList(m)) == multiset(m.Devices())
    ensures var r := SortedBootList(m);
            forall i, j :: 0 <= i < j < |r| && r[j].order.Some? ==> r[i].order.Some? && r[i].order.value <= r[j].order.value
  {
    hide Sort, BootList, Bag;
    SortedEntries(BootList(m));
    BootListConserves(m);
    BagSort(BootList(m), ByOrder);
  }

  // ----- What the list is -----

  /** The places of the entries for disks in the legacy list, before place i. */
  ghost function DiskPlaces(osBoot: seq<string>, i: nat): set<nat>
    requires i <= |osBoot|
  {
    set j: nat | j < i && (osBoot[j] == "disk" || osBoot[j] == "fd" || osBoot[j] == "cdrom")
  }

  ghost function NetworkPlaces(osBoot: seq<string>, i: nat): set<nat>
    requires i <= |osBoot|
  {
    set j: nat | j < i && osBoot[j] == "network"
  }

  /** The entry at place i of the legacy list gives a device its order i + 1: for "disk", "fd" and
      "cdrom" the first disk not taken before, and for "network" the first such interface. */
  ghost predicate Gives(m: Machine, i: nat, x: BootEntry) {
    && i < |m.osBoot|
    && var d, n := |DiskPlaces(m.osBoot, i)|, |NetworkPlaces(m.osBoot, i)|;
       || (i in DiskPlaces(m.osBoot, i + 1) && d < |m.disks| && x == Entry(m.disks[d].device, Some(i + 1)))
       || (i in NetworkPlaces(m.osBoot, i + 1) && n < |m.interfaces| && x == Entry(m.interfaces[n].device, Some(i + 1)))
  }

  /** Exactly what the entries give, in their order. */
  ghost predicate AllGiven(m: Machine, given: seq<BootEntry>) {
    && (forall x :: x in given <==> exists i :: Gives(m, i, x))
    && (forall a, b :: 0 <= a < b < |given| ==> given[a].order.GetOr(0) < given[b].order.GetOr(0))
  }

  /** The disks and interfaces the legacy entries do not reach, the redirected and the host
      devices, with the orders they have themselves. */
  ghost function NotGiven(m: Machine): seq<BootEntry> {
    var d, n := |DiskPlaces(m.osBoot, |m.osBoot|)|, |NetworkPlaces(m.osBoot, |m.osBoot|)|;
    (if d < |m.disks| then m.disks[d..] else []) + (if n < |m.interfaces| then m.interfaces[n..] else [])
    + m.redirdevs + m.hostdevs
  }

  /** The list is what the legacy entries give, and then all that they do not. */
  lemma BootListExact(m: Machine)
    ensures var list, rest := BootList(m), NotGiven(m);
            |rest| <= |list| && list[|list| - |rest|..] == rest && AllGiven(m, list[..|list| - |rest|])
  {
    var given := Claims(m.osBoot, m.disks, m.interfaces);
    PlacesCounted(m.osBoot, |m.osBoot|);
    assert m.osBoot[..|m.osBoot|] == m.osBoot;
    assert BootList(m) == given + NotGiven(m) by {
      hide Claims, DiskBoots, NetworkBoots, DiskPlaces, NetworkPlaces;
      ListedInTwo(m);
    }
    ClaimsGiven(m, |m.osBoot|);
    ClaimsAscend(m.osBoot, m.disks, m.interfaces);
    hide Claims, DiskBoots, NetworkBoots, Gives;
    forall x ensures x in given <==> exists i :: Gives(m, i, x) {
      GivenWithin(m, x);
    }
  }

  lemma ListedInTwo(m: Machine)
    requires |DiskPlaces(m.osBoot, |m.osBoot|)| == DiskBoots(m.osBoot)
    requires |NetworkPlaces(m.osBoot, |m.osBoot|)| == NetworkBoots(m.osBoot)
    ensures BootList(m) == Claims(m.osBoot, m.disks, m.interfaces) + NotGiven(m)
  {
    hide Claims, DiskBoots, NetworkBoots, DiskPlaces, NetworkPlaces;
  }

  lemma GivenWithin(m: Machine, x: BootEntry)
    ensures (exists i :: Gives(m, i, x)) <==> exists i :: 0 <= i < |m.osBoot| && Gives(m, i, x)
  {
  }

  lemma {:induction false} PlacesCounted(osBoot: seq<string>, i: nat)
    requires i <= |osBoot|
    ensures |DiskPlaces(osBoot, i)| == DiskBoots(osBoot[..i])
    ensures |NetworkPlaces(osBoot, i)| == NetworkBoots(osBoot[..i])
  {
    hide DiskBoots, NetworkBoots, DiskPlaces, NetworkPlaces;
    if i == 0 {
      NoPlaces(osBoot);
    } else {
      PlacesCounted(osBoot, i - 1);
      PlacesStep(osBoot, i - 1);
      BootsStep(osBoot, i - 1);
    }
  }

  lemma NoPlaces(osBoot: seq<string>)
    ensures DiskPlaces(osBoot, 0) == {} && NetworkPlaces(osBoot, 0) == {}
    ensures DiskBoots(osBoot[..0]) == 0 && NetworkBoots(osBoot[..0]) == 0
  {
  }

  lemma PlacesStep(osBoot: seq<string>, i: nat)
    requires i < |osBoot|
    ensures |DiskPlaces(osBoot, i + 1)| == |DiskPlaces(osBoot, i)| + if IsDiskBoot(osBoot[i]) then 1 else 0
    ensures |NetworkPlaces(osBoot, i + 1)| == |NetworkPlaces(osBoot, i)| + if IsNetworkBoot(osBoot[i]) then 1 else 0
  {
    hide DiskPlaces, NetworkPlaces, IsDiskBoot, IsNetworkBoot;
    PlacesMembers(osBoot, i);
    PlacesMembers(osBoot, i + 1);
    Grown(DiskPlaces(osBoot, i), DiskPlaces(osBoot, i + 1), i, IsDiskBoot(osBoot[i]));
    Grown(NetworkPlaces(osBoot, i), NetworkPlaces(osBoot, i + 1), i, IsNetworkBoot(osBoot[i]));
  }

  lemma PlacesMembers(osBoot: seq<string>, i: nat)
    requires i <= |osBoot|
    ensures forall j: nat :: j in DiskPlaces(osBoot, i) <==> j < i && IsDiskBoot(osBoot[j])
    ensures forall j: nat :: j in NetworkPlaces(osBoot, i) <==> j < i && IsNetworkBoot(osBoot[j])
  {
  }

  lemma Grown(a: set<nat>, b: set<nat>, x: nat, added: bool)
    requires x !in a && forall j: nat :: j in b <==> j in a || (added && j == x)
    ensures |b| == |a| + if added then 1 else 0
  {
    assert b == a + if added then {x} else {};
  }

  lemma BootsStep(osBoot: seq<string>, i: nat)
    requires i < |osBoot|
    ensures DiskBoots(osBoot[..i + 1]) == DiskBoots(osBoot[..i]) + if IsDiskBoot(osBoot[i]) then 1 else 0
    ensures NetworkBoots(osBoot[..i + 1]) == NetworkBoots(osBoot[..i]) + if IsNetworkBoot(osBoot[i]) then 1 else 0
  {
    assert osBoot[..i + 1][..i] == osBoot[..i];
  }

  lemma {:induction false} ClaimsGiven(m: Machine, k: nat)
    requires k <= |m.osBoot|
    ensures forall x :: x in Claims(m.osBoot[..k], m.disks, m.interfaces) <==> exists i :: 0 <= i < k && Gives(m, i, x)
  {
    hide Claims, Gives, DiskBoots, NetworkBoots, IsDiskBoot, IsNetworkBoot;
    if k == 0 {
      StartOfClaims(m);
    } else {
      ClaimsGiven(m, k - 1);
      forall x ensures x in Claims(m.osBoot[..k], m.disks, m.interfaces) <==> exists i :: 0 <= i < k && Gives(m, i, x) {
        ClaimedOrGiven(m, k - 1, x);
      }
    }
  }

  lemma ClaimedOrGiven(m: Machine, i: nat, x: BootEntry)
    requires i < |m.osBoot|
    ensures x in Claims(m.osBoot[..i + 1], m.disks, m.interfaces)
       <==> x in Claims(m.osBoot[..i], m.disks, m.interfaces) || Gives(m, i, x)
  {
    hide Claims, Gives, DiskBoots, NetworkBoots, IsDiskBoot, IsNetworkBoot;
    ClaimsStep(m, i);
    LastGiven(m, i);
  }

  lemma LastGiven(m: Machine, i: nat)
    requires i < |m.osBoot|
    ensures var d, n := DiskBoots(m.osBoot[..i]), NetworkBoots(m.osBoot[..i]);
            forall x :: Gives(m, i, x) <==>
              x in if IsDiskBoot(m.osBoot[i]) && d < |m.disks| then [Entry(m.disks[d].device, Some(i + 1))]
                   else if IsNetworkBoot(m.osBoot[i]) && n < |m.interfaces|
                   then [Entry(m.interfaces[n].device, Some(i + 1))]
                   else []
  {
    PlacesCounted(m.osBoot, i);
  }

  /** The orders ascend, up to a last one. */
  ghost predicate Ascending(c: seq<BootEntry>, last: nat) {
    && (forall a :: 0 <= a < |c| ==> c[a].order.Some? && c[a].order.value <= last)
    && (forall a, b :: 0 <= a < b < |c| ==> c[a].order.GetOr(0) < c[b].order.GetOr(0))
  }

  lemma AscendingAppend(c: seq<BootEntry>, x: BootEntry, last: nat)
    requires Ascending(c, last) && x.order == Some(last + 1)
    ensures Ascending(c + [x], last + 1)
  {
  }

  lemma {:induction false} ClaimsAscend(osBoot: seq<string>, disks: seq<BootEntry>, ifaces: seq<BootEntry>)
    ensures Ascending(Claims(osBoot, disks, ifaces), |osBoot|)
  {
    hide IsDiskBoot, IsNetworkBoot, DiskBoots, NetworkBoots;
    if osBoot != [] {
      var last := |osBoot| - 1;
      var before, d, n := Claims(osBoot[..last], disks, ifaces), DiskBoots(osBoot[..last]), NetworkBoots(osBoot[..last]);
      ClaimsAscend(osBoot[..last], disks, ifaces);
      if IsDiskBoot(osBoot[last]) && d < |disks| {
        AscendingAppend(before, Entry(disks[d].device, Some(|osBoot|)), last);
      } else if IsNetworkBoot(osBoot[last]) && n < |ifaces| {
        AscendingAppend(before, Entry(ifaces[n].device, Some(|osBoot|)), last);
      } else {
        assert Claims(osBoot, disks, ifaces) == before + [] == before;
      }
    }
  }

  // ----- Which disks the legacy entries claim -----

  /** The kind of disk that a legacy entry asks for, as the definition of a disk calls it. */
  function KindFor(boot: string): string {
    if boot == "fd" then "floppy" else boot
  }

  /** A disk in the list of claims has the kind asked for by the entry whose place it has as its order. */
  predicate ClaimedAsAsked(osBoot: seq<string>, x: BootEntry) {
    x.device.Disk? && x.order.Some? && 0 < x.order.value <= |osBoot| ==>
      x.device.kind == KindFor(osBoot[x.order.value - 1])
  }

  /** The n-th disk entry of the legacy list finds a disk of its kind in n-th place. */
  predicate DiskInPlace(osBoot: seq<string>, disks: seq<BootEntry>, i: nat)
    requires i < |osBoot|
  {
    var n := DiskBoots(osBoot[..i]);
    IsDiskBoot(osBoot[i]) && n < |disks| && disks[n].device.Disk? ==> disks[n].device.kind == KindFor(osBoot[i])
  }

  lemma {:induction false} ClaimOrders(osBoot: seq<string>, disks: seq<BootEntry>, ifaces: seq<BootEntry>)
    ensures forall x :: x in Claims(osBoot, disks, ifaces) ==> x.order.Some? && 0 < x.order.value <= |osBoot|
  {
    hide IsDiskBoot, IsNetworkBoot, DiskBoots, NetworkBoots;
    if osBoot != [] {
      ClaimOrders(osBoot[..|osBoot| - 1], disks, ifaces);
    }
  }

  lemma {:induction false} ClaimsAsAsked(osBoot: seq<string>, disks: seq<BootEntry>, ifaces: seq<BootEntry>)
    requires forall x :: x in ifaces ==> !x.device.Disk?
    ensures (forall x :: x in Claims(osBoot, disks, ifaces) ==> ClaimedAsAsked(osBoot, x))
       <==> forall i :: 0 <= i < |osBoot| ==> DiskInPlace(osBoot, disks, i)
  {
    hide DiskBoots, NetworkBoots, IsDiskBoot, IsNetworkBoot;
    if osBoot != [] {
      var before, last := osBoot[..|osBoot| - 1], |osBoot| - 1;
      ClaimsAsAsked(before, disks, ifaces);
      ClaimOrders(before, disks, ifaces);
      BootKindsDiffer(osBoot[last]);
      forall i | 0 <= i < last ensures DiskInPlace(osBoot, disks, i) == DiskInPlace(before, disks, i) {
        assert before[..i] == osBoot[..i];
      }
      forall x | x in Claims(before, disks, ifaces) ensures ClaimedAsAsked(osBoot, x) == ClaimedAsAsked(before, x) {
        assert before[x.order.value - 1] == osBoot[x.order.value - 1];
      }
      LastClaim(osBoot, disks, ifaces);
    }
  }

  lemma LastClaim(osBoot: seq<string>, disks: seq<BootEntry>, ifaces: seq<BootEntry>)
    requires osBoot != [] && forall x :: x in ifaces ==> !x.device.Disk?
    ensures var before, last := osBoot[..|osBoot| - 1], |osBoot| - 1;
            (forall x :: x in Claims(osBoot, disks, ifaces) ==> ClaimedAsAsked(osBoot, x))
            <==> (forall x :: x in Claims(before, disks, ifaces) ==> ClaimedAsAsked(osBoot, x))
                 && DiskInPlace(osBoot, disks, last)
  {
    hide DiskBoots, NetworkBoots, IsDiskBoot, IsNetworkBoot, KindFor;
    var before, last := osBoot[..|osBoot| - 1], |osBoot| - 1;
    var d, n := DiskBoots(before), NetworkBoots(before);
    BootKindsDiffer(osBoot[last]);
    if IsDiskBoot(osBoot[last]) && d < |disks| {
      var x := Entry(disks[d].device, Some(|osBoot|));
      assert Claims(osBoot, disks, ifaces) == Claims(before, disks, ifaces) + [x];
      assert ClaimedAsAsked(osBoot, x) == DiskInPlace(osBoot, disks, last);
    } else if IsNetworkBoot(osBoot[last]) && n < |ifaces| {
      var x := Entry(ifaces[n].device, Some(|osBoot|));
      assert ifaces[n] in ifaces;
      assert Claims(osBoot, disks, ifaces) == Claims(before, disks, ifaces) + [x];
      assert ClaimedAsAsked(osBoot, x);
    } else {
      assert Claims(osBoot, disks, ifaces) == Claims(before, disks, ifaces) + [];
    }
  }

  /** Legacy entries take disks in their order whatever the kinds: every disk they claim is of
      the kind asked for exactly if the disks happen to stand in the order of the entries. */
  lemma LegacyIgnoresKind(m: Machine)
    requires forall x :: x in m.interfaces ==> x.device.Network?
    ensures var claimed := BootList(m)[..|Claims(m.osBoot, m.disks, m.interfaces)|];
            (forall x :: x in claimed ==> ClaimedAsAsked(m.osBoot, x))
            <==> forall i :: 0 <= i < |m.osBoot| ==> DiskInPlace(m.osBoot, m.disks, i)
  {
    hide Claims, Unclaimed, DiskInPlace, ClaimedAsAsked;
    var c := Claims(m.osBoot, m.disks, m.interfaces);
    ClaimsAsAsked(m.osBoot, m.disks, m.interfaces);
    assert BootList(m)[..|c|] == c;
  }

  /** So a machine with a hard disk before its CD-ROM drive, told to boot from the drive, is
      listed as booting from the hard disk. */
  lemma CdromTakesDisk(hd: BootEntry, cd: BootEntry)
    requires hd.device.Disk? && hd.device.kind == "disk" && cd.device.Disk? && cd.device.kind == "cdrom"
    ensures BootList(Machine(["cdrom"], [hd, cd], [], [], [])) == [Entry(hd.device, Some(1)), cd]
  {
    assert ["cdrom"][..0] == [];
    assert Claims([], [hd, cd], []) == [];
  }

  /** Without legacy entries the list is that of the four kinds, each device with its own order. */
  lemma NoLegacyEntries(m: Machine)
    requires m.osBoot == []
    ensures BootList(m) == m.disks + m.interfaces + m.redirdevs + m.hostdevs
  {
  }
}
