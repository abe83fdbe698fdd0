/**
 * Definitions sent to libvirt and read back: storage pools, snapshots and networks.
 * Serialising a tree and parsing the text again is taken to give the same tree.
 */
module XmlDocuments {
  import opened Options
  import opened XmlTree

  // ----- Parsers -----

  function ChildText(n: Node, tag: string): OptString {
    GetText(Some(n), [Tag(tag)])
  }

  function ChildAttr(n: Node, tag: string, attr: string): OptString {
    GetAttr(Some(n), [Tag(tag)], attr)
  }

  function OwnAttr(n: Node, attr: string): OptString {
    GetAttr(Some(n), [], attr)
  }

  function Child(n: Node, tag: string): Option<Node> {
    GetChild(Some(n), [Tag(tag)])
  }

  /** An object with one optional string is there exactly if its element is. */
  function ChildRecord(n: Node, tag: string, attr: string): Option<OptString> {
    var c := Child(n, tag);
    if c.Some? then Some(OwnAttr(c.value, attr)) else None
  }

  datatype PoolSourceInfo = PoolSourceInfo(
    host: Option<OptString>, device: Option<OptString>, dir: Option<OptString>,
    name: OptString, format: Option<OptString>)

  datatype Pool = Pool(
    kind: string, name: string, uuid: OptString, capacity: OptString, available: OptString, allocation: OptString,
    targetPath: Option<OptString>, source: Option<PoolSourceInfo>)

  predicate HasTargetPath(kind: string) {
    kind in ["dir", "fs", "netfs", "logical", "disk", "iscsi", "scsi", "mpath", "zfs"]
  }

  /** parseStoragePoolDumpxml */
  function ParsePool(pool: Node): Pool {
    var kind := OrEmpty(OwnAttr(pool, "type"));
    var source := Child(pool, "source");
    Pool(kind, OrEmpty(ChildText(pool, "name")), ChildText(pool, "uuid"),
         ChildText(pool, "capacity"), ChildText(pool, "available"), ChildText(pool, "allocation"),
         if HasTargetPath(kind) then Some(GetText(Some(pool), [Tag("target"), Tag("path")])) else None,
         if source.None? then None else Some(ParsePoolSource(source.value)))
  }

  function ParsePoolSource(source: Node): PoolSourceInfo {
    PoolSourceInfo(ChildRecord(source, "host", "name"), ChildRecord(source, "device", "path"),
                   ChildRecord(source, "dir", "path"), ChildText(source, "name"), ChildRecord(source, "format", "type"))
  }

  datatype Snapshot = Snapshot(
    name: string, description: OptString, parentName: OptString, state: string, creationTime: OptString, memoryPath: OptString)

  /** parseDomainSnapshotDumpxml */
  function ParseSnapshot(snap: Node): Snapshot {
    Snapshot(OrEmpty(ChildText(snap, "name")), ChildText(snap, "description"),
             GetText(Some(snap), [Tag("parent"), Tag("name")]), OrEmpty(ChildText(snap, "state")),
             ChildText(snap, "creationTime"), ChildAttr(snap, "memory", "file"))
  }

  datatype DhcpHost = DhcpHost(ip: string, name: OptString, mac: string, id: OptString)

  datatype NetworkIp = NetworkIp(
    address: OptString, family: string, netmask: OptString, prefix: OptString,
    rangeStart: OptString, rangeEnd: OptString, hosts: seq<DhcpHost>, bootp: Option<OptString>)

  datatype Forward = Forward(mode: string, dev: OptString)

  datatype Network = Network(
    uuid: OptString, ips: seq<NetworkIp>, mtu: OptString, bridge: Option<OptString>, forward: Option<Forward>)

  /** parseNetDumpxml */
  function ParseNetwork(net: Node): Network {
    var forward := Child(net, "forward");
    Network(ChildText(net, "uuid"), ParseIps(GetChildren(Some(net), [Tag("ip")])), ChildAttr(net, "mtu", "size"),
            ChildRecord(net, "bridge", "name"),
            if forward.None? then None
            else Some(Forward(NonEmpty(OwnAttr(forward.value, "mode")).GetOr("nat"), ChildAttr(forward.value, "interface", "dev"))))
  }

  function ParseIps(elems: seq<Node>): seq<NetworkIp> {
    if elems == [] then [] else [ParseIp(elems[0])] + ParseIps(elems[1..])
  }

  function ParseIp(ip: Node): NetworkIp {
    var dhcp := Child(ip, "dhcp");
    var range := GetChild(dhcp, [Tag("range")]);
    NetworkIp(OwnAttr(ip, "address"), NonEmpty(OwnAttr(ip, "family")).GetOr("ipv4"), OwnAttr(ip, "netmask"), OwnAttr(ip, "prefix"),
              GetAttr(range, [], "start"), GetAttr(range, [], "end"),
              ParseHosts(GetChildren(dhcp, [Tag("host")])),
              if dhcp.None? then None else ChildRecord(dhcp.value, "bootp", "file"))
  }

  function ParseHosts(hosts: seq<Node>): seq<DhcpHost> {
    if hosts == [] then []
    else [DhcpHost(OrEmpty(OwnAttr(hosts[0], "ip")), OwnAttr(hosts[0], "name"),
                   OrEmpty(OwnAttr(hosts[0], "mac")), OwnAttr(hosts[0], "id"))] + ParseHosts(hosts[1..])
  }

  // ----- Builders -----

  /** `<tag>text</tag>`, if there is a text. */
  function TextChild(tag: string, text: OptString): (r: Option<Node>)
    ensures HasTag(r, tag)
  {
    if Truthy(text) then Some(TextElement(tag, text.value)) else None
  }

  /** `<tag attr=value/>`, if there is a value. */
  function AttrChild(tag: string, attr: string, value: OptString): (r: Option<Node>)
    ensures HasTag(r, tag)
  {
    if Truthy(value) then Some(SetAttribute(CreateElement(tag), attr, value.value)) else None
  }

  // What is read of a child that was asked for like that, or of none.

  lemma ReadTextChild(n: Node, tag: string, text: OptString)
    requires First(n, tag) == TextChild(tag, text)
    ensures ChildText(n, tag) == NonEmpty(text)
  {
    GetChildFirst(n, tag);
  }

  lemma ReadAttrChild(n: Node, tag: string, attr: string, value: OptString)
    requires First(n, tag) == AttrChild(tag, attr, value)
    ensures ChildRecord(n, tag, attr) == Given(value)
  {
    GetChildFirst(n, tag);
  }

  function Given(s: OptString): Option<OptString> {
    if Truthy(s) then Some(s) else None
  }

  datatype PoolSource = PoolSource(
    dir: OptString, device: OptString, name: OptString, host: OptString, initiator: OptString, format: OptString)
  {
    /** Some field is given. */
    predicate Any(): (b: bool)
      ensures b <==> host.GetOr("") != "" || dir.GetOr("") != "" || device.GetOr("") != "" || name.GetOr("") != ""
                     || initiator.GetOr("") != "" || format.GetOr("") != ""
    {
      Truthy(host) || Truthy(dir) || Truthy(device) || Truthy(name) || Truthy(initiator) || Truthy(format)
    }
  }

  /** What reading back a pool definition shows: everything but the initiator. */
  function ExpectedSource(source: PoolSource): PoolSourceInfo {
    PoolSourceInfo(Given(source.host), Given(source.device), Given(source.dir), NonEmpty(source.name), Given(source.format))
  }

  function InitiatorChild(initiator: OptString): (r: Option<Node>)
    ensures HasTag(r, "initiator")
  {
    if Truthy(initiator)
    then Some(AppendChild(CreateElement("initiator"), AttrChild("iqn", "name", initiator)))
    else None
  }

  method BuildPoolSource(source: PoolSource) returns (e: Node)
    ensures e.Element? && e.tag == "source"
    ensures ParsePoolSource(e) == ExpectedSource(source)
    ensures GetAttr(Some(e), [Tag("initiator"), Tag("iqn")], "name") == NonEmpty(source.initiator)
    ensures First(e, "initiator").None? <==> source.initiator == None || source.initiator == Some("")
  {
    hide AttrChild, TextChild, InitiatorChild, AppendChild, HasTag, Filled, ParsePoolSource, ExpectedSource,
         GetAttr, NonEmpty;
    var dirElem, deviceElem := AttrChild("dir", "path", source.dir), AttrChild("device", "path", source.device);
    var nameElem, hostElem := TextChild("name", source.name), AttrChild("host", "name", source.host);
    var initiatorElem, formatElem := InitiatorChild(source.initiator), AttrChild("format", "type", source.format);
    e := CreateElement("source");
    FilledCreate("source");
    ghost var tags, kids := [], [];
    e, tags, kids := Fill(e, tags, kids, "dir", dirElem);
    e, tags, kids := Fill(e, tags, kids, "device", deviceElem);
    e, tags, kids := Fill(e, tags, kids, "name", nameElem);
    e, tags, kids := Fill(e, tags, kids, "host", hostElem);
    e, tags, kids := Fill(e, tags, kids, "initiator", initiatorElem);
    e, tags, kids := Fill(e, tags, kids, "format", formatElem);
    assert tags == SOURCE_TAGS;
    PoolSourceRead(e, source, kids);
  }

  const SOURCE_TAGS := ["dir", "device", "name", "host", "initiator", "format"]

  lemma PoolSourceRead(e: Node, source: PoolSource, kids: seq<Option<Node>>)
    requires kids == [AttrChild("dir", "path", source.dir), AttrChild("device", "path", source.device),
                      TextChild("name", source.name), AttrChild("host", "name", source.host),
                      InitiatorChild(source.initiator), AttrChild("format", "type", source.format)]
    requires Filled(e, SOURCE_TAGS, kids)
    ensures ParsePoolSource(e) == ExpectedSource(source)
    ensures GetAttr(Some(e), [Tag("initiator"), Tag("iqn")], "name") == NonEmpty(source.initiator)
    ensures First(e, "initiator").None? <==> source.initiator == None || source.initiator == Some("")
  {
    hide AttrChild, TextChild, InitiatorChild, First, Filled, ChildRecord, ChildText;
    FilledFirst(e, SOURCE_TAGS, kids, 0);
    FilledFirst(e, SOURCE_TAGS, kids, 1);
    FilledFirst(e, SOURCE_TAGS, kids, 2);
    FilledFirst(e, SOURCE_TAGS, kids, 3);
    FilledFirst(e, SOURCE_TAGS, kids, 4);
    FilledFirst(e, SOURCE_TAGS, kids, 5);
    ReadAttrChild(e, "dir", "path", source.dir);
    ReadAttrChild(e, "device", "path", source.device);
    ReadTextChild(e, "name", source.name);
    ReadAttrChild(e, "host", "name", source.host);
    ReadAttrChild(e, "format", "type", source.format);
    ReadInitiator(e, source.initiator);
  }

  lemma ReadInitiator(e: Node, initiator: OptString)
    requires First(e, "initiator") == InitiatorChild(initiator)
    ensures GetAttr(Some(e), [Tag("initiator"), Tag("iqn")], "name") == NonEmpty(initiator)
    ensures First(e, "initiator").None? <==> initiator == None || initiator == Some("")
  {
    GetChildFirstTwice(e, "initiator", "iqn");
    if Truthy(initiator) {
      FirstOnly(InitiatorChild(initiator).value);
    }
  }

  function TargetChild(target: string): (r: Option<Node>)
    ensures HasTag(r, "target")
  {
    if target == "" then None
    else Some(AppendChild(CreateElement("target"), Some(TextElement("path", target))))
  }

  /** getPoolXML: reading the definition back shows what was asked for. */
  method BuildPool(name: string, kind: string, source: PoolSource, target: string) returns (pool: Node)
    ensures ParsePool(pool) == Pool(kind, name, None, None, None, None,
                                    if HasTargetPath(kind) then Some(NonEmpty(Some(target))) else None,
                                    if source.Any() then Some(ExpectedSource(source)) else None)
  {
    hide TargetChild, AppendChild, HasTag, HasTargetPath, Filled, ParsePool, ParsePoolSource, ExpectedSource,
         NonEmpty, GetAttr, PoolSource.Any, TextElement, Present;
    pool := CreateElement("pool");
    pool := SetAttribute(pool, "type", kind);
    FilledCreate("pool");
    FilledAttribute(CreateElement("pool"), "type", kind, [], []);
    ghost var tags, kids := [], [];
    var nameElem := TextElement("name", name);
    TaggedText("name", name);
    pool, tags, kids := Fill(pool, tags, kids, "name", Some(nameElem));
    var targetElem := TargetChild(target);
    pool, tags, kids := Fill(pool, tags, kids, "target", targetElem);
    var sourceElem := BuildPoolSource(source);
    var given := if source.Any() then Some(sourceElem) else None;
    Tagged(given, "source");
    pool, tags, kids := Fill(pool, tags, kids, "source", given);
    assert tags == POOL_TAGS;
    PoolRead(pool, name, kind, source, sourceElem, target, kids);
  }

  lemma Tagged(c: Option<Node>, tag: string)
    requires c.Some? ==> c.value.Element? && c.value.tag == tag
    ensures HasTag(c, tag)
  {
  }

  lemma TaggedText(tag: string, text: string)
    ensures HasTag(Some(TextElement(tag, text)), tag)
  {
  }

  const POOL_TAGS := ["name", "target", "source"]

  lemma PoolRead(
    pool: Node, name: string, kind: string, source: PoolSource, sourceElem: Node, target: string, kids: seq<Option<Node>>)
    requires pool.Element? && Filled(pool, POOL_TAGS, kids) && pool.attrs == map["type" := kind]
    requires kids == [Some(TextElement("name", name)), TargetChild(target), if source.Any() then Some(sourceElem) else None]
    requires ParsePoolSource(sourceElem) == ExpectedSource(source)
    ensures ParsePool(pool) == Pool(kind, name, None, None, None, None,
                                    if HasTargetPath(kind) then Some(NonEmpty(Some(target))) else None,
                                    if source.Any() then Some(ExpectedSource(source)) else None)
  {
    hide TargetChild, First, Filled, ParsePoolSource, ExpectedSource, ChildText, HasTargetPath, TextElement;
    FilledFirst(pool, POOL_TAGS, kids, 0);
    FilledFirst(pool, POOL_TAGS, kids, 1);
    FilledFirst(pool, POOL_TAGS, kids, 2);
    ReadText(pool, "name", name);
    ReadMissing(pool, "uuid", POOL_TAGS, kids);
    ReadMissing(pool, "capacity", POOL_TAGS, kids);
    ReadMissing(pool, "available", POOL_TAGS, kids);
    ReadMissing(pool, "allocation", POOL_TAGS, kids);
    GetChildFirst(pool, "source");
    ReadTarget(pool, target);
  }

  lemma ReadText(n: Node, tag: string, text: string)
    requires First(n, tag) == Some(TextElement(tag, text))
    ensures ChildText(n, tag) == Some(text)
  {
    GetChildFirst(n, tag);
  }

  lemma ReadMissing(n: Node, tag: string, tags: seq<string>, kids: seq<Option<Node>>)
    requires Filled(n, tags, kids) && tag !in tags
    ensures First(n, tag) == None && ChildText(n, tag) == None
  {
    FilledNone(n, tags, kids, tag);
    GetChildFirst(n, tag);
  }

  lemma ReadTarget(n: Node, target: string)
    requires First(n, "target") == TargetChild(target)
    ensures GetText(Some(n), [Tag("target"), Tag("path")]) == NonEmpty(Some(target))
  {
    hide First;
    GetChildFirstTwice(n, "target", "path");
    if target != "" {
      var path := Some(TextElement("path", target));
      FilledCreate("target");
      FilledAppend(CreateElement("target"), [], [], "path", path);
      FilledFirst(AppendChild(CreateElement("target"), path), [] + ["path"], [] + [path], 0);
    }
  }

  // ----- Snapshots -----

  function MemoryChild(path: OptString): (r: Option<Node>)
    ensures HasTag(r, "memory")
  {
    if Truthy(path)
    then Some(SetAttribute(SetAttribute(CreateElement("memory"), "snapshot", "external"), "file", path.value))
    else None
  }

  const SNAPSHOT_TAGS := ["name", "description", "memory"]

  /** getSnapshotXML: name, description and memory file come back; empty ones were left out. */
  method BuildSnapshot(name: OptString, description: OptString, memoryPath: OptString) returns (snap: Node)
    ensures ParseSnapshot(snap) == Snapshot(OrEmpty(name), NonEmpty(description), None, "", None, NonEmpty(memoryPath))
    ensures ChildAttr(snap, "memory", "snapshot") == if Truthy(memoryPath) then Some("external") else None
  {
    hide MemoryChild, TextChild, HasTag, Filled, ParseSnapshot, ChildAttr;
    snap := CreateElement("domainsnapshot");
    FilledCreate("domainsnapshot");
    ghost var tags, kids := [], [];
    var nameElem, descriptionElem := TextChild("name", name), TextChild("description", description);
    var memoryElem := MemoryChild(memoryPath);
    snap, tags, kids := Fill(snap, tags, kids, "name", nameElem);
    snap, tags, kids := Fill(snap, tags, kids, "description", descriptionElem);
    snap, tags, kids := Fill(snap, tags, kids, "memory", memoryElem);
    assert tags == SNAPSHOT_TAGS;
    SnapshotRead(snap, name, description, memoryPath, kids);
  }

  lemma SnapshotRead(snap: Node, name: OptString, description: OptString, memoryPath: OptString, kids: seq<Option<Node>>)
    requires Filled(snap, SNAPSHOT_TAGS, kids)
    requires kids == [TextChild("name", name), TextChild("description", description), MemoryChild(memoryPath)]
    ensures ParseSnapshot(snap) == Snapshot(OrEmpty(name), NonEmpty(description), None, "", None, NonEmpty(memoryPath))
    ensures ChildAttr(snap, "memory", "snapshot") == if Truthy(memoryPath) then Some("external") else None
  {
    hide First, Filled, TextChild, ChildText;
    FilledFirst(snap, SNAPSHOT_TAGS, kids, 0);
    FilledFirst(snap, SNAPSHOT_TAGS, kids, 1);
    FilledFirst(snap, SNAPSHOT_TAGS, kids, 2);
    ReadTextChild(snap, "name", name);
    ReadTextChild(snap, "description", description);
    ReadMissing(snap, "state", SNAPSHOT_TAGS, kids);
    ReadMissing(snap, "creationTime", SNAPSHOT_TAGS, kids);
    ReadMissing(snap, "parent", SNAPSHOT_TAGS, kids);
    GetChildFirstTwice(snap, "parent", "name");
    GetChildFirst(snap, "memory");
  }

  // ----- Networks -----

  datatype NetworkSpec = NetworkSpec(
    name: string, forwardMode: string, device: string,
    ipv4: OptString, netmask: string, ipv6: OptString, prefix: string,
    ipv4DhcpRangeStart: string, ipv4DhcpRangeEnd: string, ipv6DhcpRangeStart: string, ipv6DhcpRangeEnd: string)

  function ExpectedIpv4(spec: NetworkSpec): seq<NetworkIp> {
    if !Truthy(spec.ipv4) then []
    else [NetworkIp(spec.ipv4, "ipv4", NonEmpty(Some(spec.netmask)), None, NonEmpty(Some(spec.ipv4DhcpRangeStart)),
                    if spec.ipv4DhcpRangeStart == "" then None else NonEmpty(Some(spec.ipv4DhcpRangeEnd)), [], None)]
  }

  function ExpectedIpv6(spec: NetworkSpec): seq<NetworkIp> {
    if !Truthy(spec.ipv6) then []
    else [NetworkIp(spec.ipv6, "ipv6", None, NonEmpty(Some(spec.prefix)), NonEmpty(Some(spec.ipv6DhcpRangeStart)),
                    if spec.ipv6DhcpRangeStart == "" then None else NonEmpty(Some(spec.ipv6DhcpRangeEnd)), [], None)]
  }

  /** What parsing the definition of a network shows as its forwarding. The device is asked for by
      an attribute; it is parsed from the <interface> child that libvirt's own definition has. */
  function ExpectedForward(mode: string): Option<Forward> {
    if mode == "none" then None else Some(Forward(if mode == "" then "nat" else mode, None))
  }

  /** The <dhcp> child of an address, if a start of the range is given. */
  function DhcpChild(start: string, end: string): (r: Option<Node>)
    ensures HasTag(r, "dhcp")
  {
    if start == "" then None
    else Some(AppendChild(CreateElement("dhcp"), Some(Range(start, end))))
  }

  function Range(start: string, end: string): (r: Node)
    ensures r.Element? && r.tag == "range"
  {
    SetAttribute(SetAttribute(CreateElement("range"), "start", start), "end", end)
  }

  /** Reading an address whose only child, if any, is its <dhcp>. */
  lemma ReadIp(ip: Node, start: string, end: string)
    requires Filled(ip, ["dhcp"], [DhcpChild(start, end)])
    ensures var r := ParseIp(ip);
            && r.rangeStart == NonEmpty(Some(start))
            && r.rangeEnd == (if start == "" then None else NonEmpty(Some(end)))
            && r.hosts == [] && r.bootp == None
  {
    hide First, Filled, GetChildren;
    FilledFirst(ip, ["dhcp"], [DhcpChild(start, end)], 0);
    GetChildFirst(ip, "dhcp");
    var dhcp := DhcpChild(start, end);
    if start == "" {
      NoParent([Tag("range")]);
      NoChildren("host");
    } else {
      var range := Some(Range(start, end));
      FilledCreate("dhcp");
      Tagged(range, "range");
      FilledAppend(CreateElement("dhcp"), [], [], "range", range);
      assert [] + ["range"] == ["range"] && [] + [range] == [range];
      FilledFirst(dhcp.value, ["range"], [range], 0);
      GetChildFirst(dhcp.value, "range");
      ReadMissing(dhcp.value, "bootp", ["range"], [range]);
      GetChildFirst(dhcp.value, "bootp");
      FilledChildren(dhcp.value, ["range"], [range], "host");
      assert ["range"][1..] == [] && [range][1..] == [];
    }
  }

  lemma NoChildren(tag: string)
    ensures GetChildren(None, [Tag(tag)]) == []
  {
    assert [Tag(tag)][..0] == [];
  }

  method BuildIpv4(spec: NetworkSpec) returns (r: Option<Node>)
    ensures HasTag(r, "ip") && r.Some? == Truthy(spec.ipv4)
    ensures r.Some? ==> [ParseIp(r.value)] == ExpectedIpv4(spec) && Attribute(r.value, "localPtr") == Some("yes")
  {
    hide Filled, DhcpChild, GetChildren, GetChild;
    r := None;
    if Truthy(spec.ipv4) {
      var ip := CreateElement("ip");
      ip := SetAttribute(ip, "address", spec.ipv4.value);
      ip := SetAttribute(ip, "netmask", spec.netmask);
      ip := SetAttribute(ip, "localPtr", "yes");
      EmptyFilled(ip);
      var dhcp := DhcpChild(spec.ipv4DhcpRangeStart, spec.ipv4DhcpRangeEnd);
      ghost var tags, kids;
      ip, tags, kids := Fill(ip, [], [], "dhcp", dhcp);
      assert tags == ["dhcp"] && kids == [dhcp];
      ReadIp(ip, spec.ipv4DhcpRangeStart, spec.ipv4DhcpRangeEnd);
      ReadOwn(ip);
      r := Some(ip);
    }
  }

  method BuildIpv6(spec: NetworkSpec) returns (r: Option<Node>)
    ensures HasTag(r, "ip") && r.Some? == Truthy(spec.ipv6)
    ensures r.Some? ==> [ParseIp(r.value)] == ExpectedIpv6(spec)
  {
    hide Filled, DhcpChild, GetChildren, GetChild;
    r := None;
    if Truthy(spec.ipv6) {
      var ip := CreateElement("ip");
      ip := SetAttribute(ip, "family", "ipv6");
      ip := SetAttribute(ip, "address", spec.ipv6.value);
      ip := SetAttribute(ip, "prefix", spec.prefix);
      EmptyFilled(ip);
      var dhcp := DhcpChild(spec.ipv6DhcpRangeStart, spec.ipv6DhcpRangeEnd);
      ghost var tags, kids;
      ip, tags, kids := Fill(ip, [], [], "dhcp", dhcp);
      assert tags == ["dhcp"] && kids == [dhcp];
      ReadIp(ip, spec.ipv6DhcpRangeStart, spec.ipv6DhcpRangeEnd);
      ReadOwn(ip);
      r := Some(ip);
    }
  }

  lemma EmptyFilled(e: Node)
    requires e.Element? && e.nodes == []
    ensures Filled(e, [], [])
  {
  }

  lemma ReadOwn(n: Node)
    ensures GetChild(Some(n), []) == Some(n)
  {
  }

  /** The modes of forwarding with a device, and those with a domain name. */
  ghost predicate TakesDevice(mode: string) {
    mode == "nat" || mode == "route"
  }

  ghost predicate NamesDomain(mode: string) {
    mode == "none" || mode == "nat" || mode == "route" || mode == "open"
  }

  method BuildForward(mode: string, device: string) returns (r: Option<Node>)
    ensures HasTag(r, "forward") && r.Some? == (mode != "none")
    ensures GetAttr(r, [], "dev") == if TakesDevice(mode) && device != "automatic" then NonEmpty(Some(device)) else None
    ensures r.Some? ==> OwnAttr(r.value, "mode") == NonEmpty(Some(mode)) && ChildAttr(r.value, "interface", "dev") == None
  {
    r := None;
    if mode != "none" {
      var forward := CreateElement("forward");
      forward := SetAttribute(forward, "mode", mode);
      if (mode == "nat" || mode == "route") && device != "automatic" {
        forward := SetAttribute(forward, "dev", device);
      }
      NoChildElements(forward, "interface");
      r := Some(forward);
    }
  }

  lemma NoChildElements(e: Node, tag: string)
    requires e.Element? && e.nodes == []
    ensures GetChild(Some(e), [Tag(tag)]) == None
  {
    GetChildFirst(e, tag);
  }

  method BuildDomain(mode: string, name: string) returns (r: Option<Node>)
    ensures HasTag(r, "domain") && r.Some? == NamesDomain(mode)
    ensures GetAttr(r, [], "name") == if NamesDomain(mode) then NonEmpty(Some(name)) else None
    ensures GetAttr(r, [], "localOnly") == if NamesDomain(mode) then Some("yes") else None
  {
    r := None;
    if mode == "none" || mode == "nat" || mode == "route" || mode == "open" {
      var domain := CreateElement("domain");
      domain := SetAttribute(domain, "name", name);
      domain := SetAttribute(domain, "localOnly", "yes");
      r := Some(domain);
    }
  }

  /** The DNS entry that makes an IPv4 gateway known by name. */
  method BuildDns(address: OptString) returns (r: Option<Node>)
    ensures HasTag(r, "dns") && r.Some? == Truthy(address)
    ensures GetAttr(r, [Tag("host")], "ip") == NonEmpty(address)
    ensures GetText(r, [Tag("host"), Tag("hostname")]) == if Truthy(address) then Some("gateway") else None
  {
    r := None;
    NoParent([Tag("host")]);
    NoParent([Tag("host"), Tag("hostname")]);
    if Truthy(address) {
      var host := CreateElement("host");
      host := SetAttribute(host, "ip", address.value);
      host := AppendChild(host, Some(TextElement("hostname", "gateway")));
      var dns := CreateElement("dns");
      dns := AppendChild(dns, Some(host));
      FirstOnly(host);
      FirstOnly(dns);
      GetChildFirst(dns, "host");
      GetChildFirstTwice(dns, "host", "hostname");
      r := Some(dns);
    }
  }

  lemma FirstOnly(e: Node)
    requires e.Element? && |e.nodes| == 1 && e.nodes[0].Element?
    ensures First(e, e.nodes[0].tag) == Some(e.nodes[0])
  {
    assert e.nodes[1..] == [] && Children(e.nodes) == [e.nodes[0]];
  }

  const NETWORK_TAGS := ["name", "forward", "domain", "dns", "ip", "ip"]

  /** What libvirt finds in the definition besides what this program reads back. */
  ghost predicate AsksFor(net: Node, spec: NetworkSpec) {
    && ChildText(net, "name") == Some(spec.name)
    && ChildAttr(net, "forward", "dev")
       == (if TakesDevice(spec.forwardMode) && spec.device != "automatic" then NonEmpty(Some(spec.device)) else None)
    && ChildAttr(net, "domain", "name") == (if NamesDomain(spec.forwardMode) then NonEmpty(Some(spec.name)) else None)
    && GetAttr(Some(net), [Tag("dns"), Tag("host")], "ip") == NonEmpty(spec.ipv4)
  }

  /** getNetworkXML: the forward mode and every address with its mask, family and range come back. */
  method BuildNetwork(spec: NetworkSpec) returns (net: Node)
    ensures AsksFor(net, spec)
    ensures ParseNetwork(net) == Network(None, ExpectedIpv4(spec) + ExpectedIpv6(spec), None, None, ExpectedForward(spec.forwardMode))
  {
    hide HasTag, Filled, ParseNetwork, ParseIp, ExpectedIpv4, ExpectedIpv6, ExpectedForward, OwnAttr, ChildAttr,
         AppendChild, Present, Truthy, NonEmpty, AsksFor, GetAttr, GetText, TakesDevice, NamesDomain;
    var nameElem := Some(TextElement("name", spec.name));
    Tagged(nameElem, "name");
    var forwardElem := BuildForward(spec.forwardMode, spec.device);
    var domainElem := BuildDomain(spec.forwardMode, spec.name);
    var dnsElem := BuildDns(spec.ipv4);
    var ipElem := BuildIpv4(spec);
    var ipv6Elem := BuildIpv6(spec);
    net := AppendAll(nameElem, forwardElem, domainElem, dnsElem, ipElem, ipv6Elem);
    ghost var kids := [nameElem, forwardElem, domainElem, dnsElem, ipElem, ipv6Elem];
    NetworkRead(net, spec, kids);
    NetworkAsks(net, spec, kids);
  }

  method AppendAll(name: Option<Node>, forward: Option<Node>, domain: Option<Node>, dns: Option<Node>,
                   ip: Option<Node>, ipv6: Option<Node>) returns (net: Node)
    requires HasTag(name, "name") && HasTag(forward, "forward") && HasTag(domain, "domain") && HasTag(dns, "dns")
    requires HasTag(ip, "ip") && HasTag(ipv6, "ip")
    ensures Filled(net, NETWORK_TAGS, [name, forward, domain, dns, ip, ipv6])
  {
    hide HasTag, Filled;
    net := CreateElement("network");
    FilledCreate("network");
    ghost var tags, kids := [], [];
    net, tags, kids := Fill(net, tags, kids, "name", name);
    net, tags, kids := Fill(net, tags, kids, "forward", forward);
    net, tags, kids := Fill(net, tags, kids, "domain", domain);
    net, tags, kids := Fill(net, tags, kids, "dns", dns);
    net, tags, kids := Fill(net, tags, kids, "ip", ip);
    net, tags, kids := Fill(net, tags, kids, "ip", ipv6);
    assert tags == NETWORK_TAGS;
    assert kids == [name, forward, domain, dns, ip, ipv6];
  }

  lemma NetworkRead(net: Node, spec: NetworkSpec, kids: seq<Option<Node>>)
    requires |kids| == 6 && Filled(net, NETWORK_TAGS, kids)
    requires kids[1].Some? == (spec.forwardMode != "none")
    requires kids[1].Some? ==> OwnAttr(kids[1].value, "mode") == NonEmpty(Some(spec.forwardMode))
                               && ChildAttr(kids[1].value, "interface", "dev") == None
    requires kids[4].Some? == Truthy(spec.ipv4) && (kids[4].Some? ==> [ParseIp(kids[4].value)] == ExpectedIpv4(spec))
    requires kids[5].Some? == Truthy(spec.ipv6) && (kids[5].Some? ==> [ParseIp(kids[5].value)] == ExpectedIpv6(spec))
    ensures ParseNetwork(net) == Network(None, ExpectedIpv4(spec) + ExpectedIpv6(spec), None, None, ExpectedForward(spec.forwardMode))
  {
    hide First, Filled, ParseIp, ParseIps, ChildText, OwnAttr, GetChildren, Under, Present;
    FilledFirst(net, NETWORK_TAGS, kids, 1);
    ReadMissing(net, "uuid", NETWORK_TAGS, kids);
    ReadMissing(net, "mtu", NETWORK_TAGS, kids);
    ReadMissing(net, "bridge", NETWORK_TAGS, kids);
    GetChildFirst(net, "forward");
    GetChildFirst(net, "mtu");
    GetChildFirst(net, "bridge");
    FilledChildren(net, NETWORK_TAGS, kids, "ip");
    UnderIp(kids);
    ParseTwo(kids[4], kids[5]);
  }

  lemma NetworkAsks(net: Node, spec: NetworkSpec, kids: seq<Option<Node>>)
    requires |kids| == 6 && Filled(net, NETWORK_TAGS, kids) && kids[0] == Some(TextElement("name", spec.name))
    requires GetAttr(kids[1], [], "dev")
          == if TakesDevice(spec.forwardMode) && spec.device != "automatic" then NonEmpty(Some(spec.device)) else None
    requires GetAttr(kids[2], [], "name") == if NamesDomain(spec.forwardMode) then NonEmpty(Some(spec.name)) else None
    requires GetAttr(kids[3], [Tag("host")], "ip") == NonEmpty(spec.ipv4)
    ensures AsksFor(net, spec)
  {
    hide First, Filled, Present, TakesDevice, NamesDomain, NonEmpty, ChildText, TextElement;
    FilledFirst(net, NETWORK_TAGS, kids, 0);
    FilledFirst(net, NETWORK_TAGS, kids, 1);
    FilledFirst(net, NETWORK_TAGS, kids, 2);
    FilledFirst(net, NETWORK_TAGS, kids, 3);
    ReadText(net, "name", spec.name);
    GetChildFirst(net, "forward");
    GetChildFirst(net, "domain");
    GetChildFirst(net, "dns");
    assert [Tag("dns"), Tag("host")] == [Tag("dns")] + [Tag("host")];
    GetChildCompose(Some(net), [Tag("dns")], [Tag("host")]);
  }

  lemma UnderIp(kids: seq<Option<Node>>)
    requires |kids| == 6
    ensures Under(NETWORK_TAGS, kids, "ip") == [kids[4], kids[5]]
  {
    hide Under;
    UnderTail(NETWORK_TAGS, kids, "ip", 0);
    UnderTail(NETWORK_TAGS, kids, "ip", 1);
    UnderTail(NETWORK_TAGS, kids, "ip", 2);
    UnderTail(NETWORK_TAGS, kids, "ip", 3);
    UnderTail(NETWORK_TAGS, kids, "ip", 4);
    UnderTail(NETWORK_TAGS, kids, "ip", 5);
  }

  lemma UnderTail(tags: seq<string>, kids: seq<Option<Node>>, tag: string, i: nat)
    requires |tags| == |kids| && i < |kids|
    ensures Under(tags[i..], kids[i..], tag) == (if tags[i] == tag then [kids[i]] else []) + Under(tags[i + 1..], kids[i + 1..], tag)
    ensures i == 0 ==> Under(tags[i..], kids[i..], tag) == Under(tags, kids, tag)
    ensures i + 1 == |kids| ==> Under(tags[i + 1..], kids[i + 1..], tag) == []
  {
    assert tags[i..][1..] == tags[i + 1..] && kids[i..][1..] == kids[i + 1..];
    assert tags[0..] == tags && kids[0..] == kids;
  }

  lemma ParseTwo(a: Option<Node>, b: Option<Node>)
    ensures ParseIps(Present([a, b]))
         == (if a.Some? then [ParseIp(a.value)] else []) + (if b.Some? then [ParseIp(b.value)] else [])
  {
    hide ParseIp;
    assert [a, b][1..] == [b] && [b][1..] == [];
    var rest := if b.Some? then [b.value] else [];
    assert Present([b]) == rest;
    if b.Some? {
      assert rest[1..] == [];
    }
    assert ParseIps(rest) == if b.Some? then [ParseIp(b.value)] else [];
    if a.Some? {
      assert Present([a, b]) == [a.value] + rest && ([a.value] + rest)[1..] == rest;
    } else {
      assert Present([a, b]) == [] + rest == rest;
    }
  }
}
