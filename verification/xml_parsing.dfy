/**
 * Definitions in the form libvirt gives them: whatever a pool, snapshot or network is, parsing
 * a document that describes it gives back all its fields.
 */
module XmlParsing {
  import opened Options
  import opened XmlTree
  import opened XmlDocuments

  // ----- How a field is written -----

  /** `<tag>text</tag>`, or no such child. */
  predicate TextField(n: Node, tag: string, text: OptString) {
    First(n, tag) == if text.None? then None else Some(TextElement(tag, text.value))
  }

  /** `attr=value` with a value, or no such attribute. */
  predicate AttrField(n: Node, attr: string, value: OptString) {
    Attribute(n, attr) == value && value != Some("")
  }

  /** `<tag attr=value/>`, with or without the attribute, or no such child. */
  predicate RecordField(n: Node, tag: string, attr: string, record: Option<OptString>) {
    if record.None? then First(n, tag) == None
    else First(n, tag).Some? && AttrField(First(n, tag).value, attr, record.value)
  }

  /** `<outer><inner>text</inner></outer>`, or one of the two is missing. */
  predicate NestedText(n: Node, outer: string, inner: string, text: OptString) {
    if First(n, outer).None? then text == None else TextField(First(n, outer).value, inner, text)
  }

  lemma ReadTextField(n: Node, tag: string, text: OptString)
    requires TextField(n, tag, text)
    ensures ChildText(n, tag) == text
  {
    GetChildFirst(n, tag);
    if text.Some? {
      TextOfOne(tag, text.value);
    }
  }

  lemma TextOfOne(tag: string, text: string)
    ensures TextContent(TextElement(tag, text)) == text
  {
  }

  lemma ReadAttrField(n: Node, attr: string, value: OptString)
    requires AttrField(n, attr, value)
    ensures OwnAttr(n, attr) == value
  {
  }

  lemma ReadRecordField(n: Node, tag: string, attr: string, record: Option<OptString>)
    requires RecordField(n, tag, attr, record)
    ensures ChildRecord(n, tag, attr) == record
    ensures ChildAttr(n, tag, attr) == record.GetOr(None)
  {
    GetChildFirst(n, tag);
  }

  lemma ReadNestedText(n: Node, outer: string, inner: string, text: OptString)
    requires NestedText(n, outer, inner, text)
    ensures GetText(Some(n), [Tag(outer), Tag(inner)]) == text
  {
    GetChildFirstTwice(n, outer, inner);
    if First(n, outer).Some? && text.Some? {
      TextOfOne(inner, text.value);
    }
  }

  // ----- Storage pools -----

  ghost predicate SourceDocument(n: Node, source: PoolSourceInfo) {
    && RecordField(n, "host", "name", source.host) && RecordField(n, "device", "path", source.device)
    && RecordField(n, "dir", "path", source.dir) && TextField(n, "name", source.name)
    && RecordField(n, "format", "type", source.format)
  }

  /** The kinds of pools whose target is parsed. */
  predicate TargetKind(kind: string) {
    kind in {"dir", "fs", "netfs", "logical", "disk", "iscsi", "scsi", "mpath", "zfs"}
  }

  ghost predicate PoolDocument(n: Node, pool: Pool) {
    && Attribute(n, "type") == Some(pool.kind)
    && TextField(n, "name", Some(pool.name)) && TextField(n, "uuid", pool.uuid)
    && TextField(n, "capacity", pool.capacity) && TextField(n, "available", pool.available)
    && TextField(n, "allocation", pool.allocation)
    && pool.targetPath.Some? == TargetKind(pool.kind)
    && (pool.targetPath.Some? ==> NestedText(n, "target", "path", pool.targetPath.value))
    && (if pool.source.None? then First(n, "source") == None
        else First(n, "source").Some? && SourceDocument(First(n, "source").value, pool.source.value))
  }

  lemma SourceParsed(n: Node, source: PoolSourceInfo)
    requires SourceDocument(n, source)
    ensures ParsePoolSource(n) == source
  {
    hide TextField, RecordField, ChildRecord, ChildText;
    ReadRecordField(n, "host", "name", source.host);
    ReadRecordField(n, "device", "path", source.device);
    ReadRecordField(n, "dir", "path", source.dir);
    ReadTextField(n, "name", source.name);
    ReadRecordField(n, "format", "type", source.format);
  }

  lemma TargetKinds(kind: string)
    ensures HasTargetPath(kind) <==> TargetKind(kind)
  {
  }

  /** Parsing a document that describes a pool gives back the pool. */
  lemma PoolParsed(n: Node, pool: Pool)
    requires PoolDocument(n, pool)
    ensures ParsePool(n) == pool
  {
    hide TextField, RecordField, NestedText, SourceDocument, ParsePoolSource, ChildText, GetText, HasTargetPath, TargetKind;
    TargetKinds(pool.kind);
    ReadTextField(n, "name", Some(pool.name));
    ReadTextField(n, "uuid", pool.uuid);
    ReadTextField(n, "capacity", pool.capacity);
    ReadTextField(n, "available", pool.available);
    ReadTextField(n, "allocation", pool.allocation);
    if pool.targetPath.Some? {
      ReadNestedText(n, "target", "path", pool.targetPath.value);
    }
    GetChildFirst(n, "source");
    if pool.source.Some? {
      SourceParsed(First(n, "source").value, pool.source.value);
    }
  }

  // ----- Snapshots -----

  ghost predicate SnapshotDocument(n: Node, snap: Snapshot) {
    && TextField(n, "name", Some(snap.name)) && TextField(n, "description", snap.description)
    && NestedText(n, "parent", "name", snap.parentName)
    && TextField(n, "state", Some(snap.state)) && TextField(n, "creationTime", snap.creationTime)
    && RecordField(n, "memory", "file", if snap.memoryPath.None? then None else Some(snap.memoryPath))
  }

  lemma SnapshotParsed(n: Node, snap: Snapshot)
    requires SnapshotDocument(n, snap)
    ensures ParseSnapshot(n) == snap
  {
    hide TextField, RecordField, NestedText, ChildText, ChildAttr, GetText;
    ReadTextField(n, "name", Some(snap.name));
    ReadTextField(n, "description", snap.description);
    ReadNestedText(n, "parent", "name", snap.parentName);
    ReadTextField(n, "state", Some(snap.state));
    ReadTextField(n, "creationTime", snap.creationTime);
    ReadRecordField(n, "memory", "file", if snap.memoryPath.None? then None else Some(snap.memoryPath));
  }

  // ----- Networks -----

  ghost predicate HostDocument(n: Node, host: DhcpHost) {
    && Attribute(n, "ip") == Some(host.ip) && AttrField(n, "name", host.name)
    && Attribute(n, "mac") == Some(host.mac) && AttrField(n, "id", host.id)
  }

  /** A DHCP entry with a range of addresses, hosts and a boot file. */
  ghost predicate DhcpDocument(n: Node, ip: NetworkIp) {
    && (if First(n, "range").None? then ip.rangeStart == ip.rangeEnd == None
        else AttrField(First(n, "range").value, "start", ip.rangeStart) && AttrField(First(n, "range").value, "end", ip.rangeEnd))
    && RecordField(n, "bootp", "file", ip.bootp)
    && var hosts := Matching(ElementNodes(n), Tag("host"));
       |hosts| == |ip.hosts| && forall i :: 0 <= i < |hosts| ==> HostDocument(hosts[i], ip.hosts[i])
  }

  /** A missing family is IPv4. */
  ghost predicate IpDocument(n: Node, ip: NetworkIp) {
    && AttrField(n, "address", ip.address) && AttrField(n, "netmask", ip.netmask) && AttrField(n, "prefix", ip.prefix)
    && (AttrField(n, "family", Some(ip.family)) || (ip.family == "ipv4" && Attribute(n, "family") == None))
    && (if First(n, "dhcp").None? then ip.rangeStart == ip.rangeEnd == None && ip.hosts == [] && ip.bootp == None
        else DhcpDocument(First(n, "dhcp").value, ip))
  }

  /** A missing forward mode is NAT. */
  ghost predicate ForwardDocument(n: Node, forward: Forward) {
    && (AttrField(n, "mode", Some(forward.mode)) || (forward.mode == "nat" && Attribute(n, "mode") == None))
    && RecordField(n, "interface", "dev", if forward.dev.None? then None else Some(forward.dev))
  }

  ghost predicate NetworkDocument(n: Node, net: Network) {
    && TextField(n, "uuid", net.uuid)
    && RecordField(n, "mtu", "size", if net.mtu.None? then None else Some(net.mtu))
    && RecordField(n, "bridge", "name", net.bridge)
    && (if net.forward.None? then First(n, "forward") == None
        else First(n, "forward").Some? && ForwardDocument(First(n, "forward").value, net.forward.value))
    && var ips := Matching(ElementNodes(n), Tag("ip"));
       |ips| == |net.ips| && forall i :: 0 <= i < |ips| ==> IpDocument(ips[i], net.ips[i])
  }

  lemma HostParsed(n: Node, host: DhcpHost)
    requires HostDocument(n, host)
    ensures OrEmpty(OwnAttr(n, "ip")) == host.ip && OwnAttr(n, "name") == host.name
    ensures OrEmpty(OwnAttr(n, "mac")) == host.mac && OwnAttr(n, "id") == host.id
  {
  }

  lemma {:induction false} HostsParsed(elems: seq<Node>, hosts: seq<DhcpHost>)
    requires |elems| == |hosts| && forall i :: 0 <= i < |elems| ==> HostDocument(elems[i], hosts[i])
    ensures ParseHosts(elems) == hosts
  {
    hide HostDocument, OwnAttr;
    if elems != [] {
      HostParsed(elems[0], hosts[0]);
      HostsParsed(elems[1..], hosts[1..]);
      assert hosts == [hosts[0]] + hosts[1..];
    }
  }

  lemma ChildrenMatching(n: Node, tag: string)
    ensures GetChildren(Some(n), [Tag(tag)]) == Matching(ElementNodes(n), Tag(tag))
  {
    assert [Tag(tag)][..0] == [];
  }

  lemma DhcpParsed(ip: Node, r: NetworkIp)
    requires First(ip, "dhcp").Some? && DhcpDocument(First(ip, "dhcp").value, r)
    ensures var p := ParseIp(ip);
            p.rangeStart == r.rangeStart && p.rangeEnd == r.rangeEnd && p.hosts == r.hosts && p.bootp == r.bootp
  {
    hide HostDocument, RecordField, ChildRecord, ParseHosts, GetChildren;
    var dhcp := First(ip, "dhcp").value;
    GetChildFirst(ip, "dhcp");
    GetChildFirst(dhcp, "range");
    ChildrenMatching(dhcp, "host");
    HostsParsed(Matching(ElementNodes(dhcp), Tag("host")), r.hosts);
    ReadRecordField(dhcp, "bootp", "file", r.bootp);
  }

  lemma IpParsed(n: Node, ip: NetworkIp)
    requires IpDocument(n, ip)
    ensures ParseIp(n) == ip
  {
    if First(n, "dhcp").Some? {
      DhcpParsed(n, ip);
    } else {
      GetChildFirst(n, "dhcp");
      NoParent([Tag("range")]);
      NoChildren("host");
    }
    hide DhcpDocument, First, GetChildren, ParseHosts;
    ReadAttrField(n, "address", ip.address);
    ReadAttrField(n, "netmask", ip.netmask);
    ReadAttrField(n, "prefix", ip.prefix);
  }

  lemma {:induction false} IpsParsed(elems: seq<Node>, ips: seq<NetworkIp>)
    requires |elems| == |ips| && forall i :: 0 <= i < |elems| ==> IpDocument(elems[i], ips[i])
    ensures ParseIps(elems) == ips
  {
    hide IpDocument, ParseIp;
    if elems != [] {
      IpParsed(elems[0], ips[0]);
      IpsParsed(elems[1..], ips[1..]);
      assert ips == [ips[0]] + ips[1..];
    }
  }

  lemma ForwardParsed(n: Node, forward: Forward)
    requires ForwardDocument(n, forward)
    ensures NonEmpty(OwnAttr(n, "mode")).GetOr("nat") == forward.mode
    ensures ChildAttr(n, "interface", "dev") == forward.dev
  {
    ReadRecordField(n, "interface", "dev", if forward.dev.None? then None else Some(forward.dev));
  }

  /** Parsing a document that describes a network gives back the network. */
  lemma NetworkParsed(n: Node, net: Network)
    requires NetworkDocument(n, net)
    ensures ParseNetwork(n) == net
  {
    hide TextField, RecordField, IpDocument, ForwardDocument, ChildText, ChildRecord, ChildAttr, OwnAttr, ParseIps, GetChildren;
    ReadTextField(n, "uuid", net.uuid);
    ReadRecordField(n, "mtu", "size", if net.mtu.None? then None else Some(net.mtu));
    ReadRecordField(n, "bridge", "name", net.bridge);
    GetChildFirst(n, "forward");
    if net.forward.Some? {
      ForwardParsed(First(n, "forward").value, net.forward.value);
    }
    ChildrenMatching(n, "ip");
    IpsParsed(Matching(ElementNodes(n), Tag("ip")), net.ips);
  }
}
