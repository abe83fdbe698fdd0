/**
 * PCI addresses: the hexadecimal text of a node device's address, and the search for the node
 * devices that a host device of a virtual machine may be.
 */
module PciAddresses {
  import opened Options
  import opened Sequences
  import opened Texts
  import opened Numerals

  /** What is known of a node device, as text; addresses of PCI devices are decimal. */
  datatype NodeDevice = NodeDevice(kind: string, domain: OptString, bus: OptString, slot: OptString, func: OptString)

  /** The source address of a PCI host device: hexadecimal text. */
  datatype Address = Address(domain: OptString, bus: OptString, slot: OptString, func: OptString)

  // ----- The text of an address -----

  /** `Number(s).toString(16).padStart(width, '0')` */
  function HexField(s: OptString, width: nat): string {
    var n := if s.None? then None else ToNumber(s.value);
    PadStart(if n.None? then "NaN" else Print(n.value, 16), width)
  }

  /** getNodeDevSource, for PCI devices. */
  function PciSource(dev: NodeDevice): string {
    HexField(dev.domain, 4) + ":" + HexField(dev.bus, 2) + ":" + HexField(dev.slot, 2) + "." + HexField(dev.func, 1)
  }

  datatype Numbers = Numbers(domain: nat, bus: nat, slot: nat, func: nat)

  /** A PCI node device as libvirt describes it: with four decimal numbers. */
  function PciDevice(n: Numbers): NodeDevice {
    NodeDevice("pci", Some(Decimal(n.domain)), Some(Decimal(n.bus)), Some(Decimal(n.slot)), Some(Decimal(n.func)))
  }

  lemma HexFieldOf(n: nat, width: nat)
    ensures var s := HexField(Some(Decimal(n)), width);
            && s == PadStart(Print(n, 16), width)
            && ParseDigits(s, 16) == Some(n) && ParseHex(Some(s)) == Some(n)
            && ':' !in s && '.' !in s && 'x' !in s && 'X' !in s
  {
    hide Print, ParseDigits, ToNumber, PadStart, Decimal;
    ToNumberDecimal(n);
    ParsePrinted(n, width, 16);
    ReadPadded(n, width, 16);
    DigitsOnly(PadStart(Print(n, 16), width));
  }

  lemma DigitsOnly(s: string)
    requires AllDigits(s, 16)
    ensures ':' !in s && '.' !in s && 'x' !in s && 'X' !in s
  {
    forall c | c in s ensures c != ':' && c != '.' && c != 'x' && c != 'X' {
      var i :| 0 <= i < |s| && s[i] == c;
    }
  }

  /** The four texts of an address: domain:bus:slot.function */
  function Fields(text: string): Option<seq<string>> {
    var parts := Split(text, ':');
    if |parts| != 3 then None
    else
      var last := Split(parts[2], '.');
      if |last| != 2 then None else Some([parts[0], parts[1], last[0], last[1]])
  }

  lemma FieldsOf(d: string, b: string, s: string, f: string)
    requires ':' !in d && ':' !in b && ':' !in s && ':' !in f && '.' !in s && '.' !in f
    ensures Fields(d + ":" + b + ":" + s + "." + f) == Some([d, b, s, f])
  {
    hide Split;
    var last := s + "." + f;
    SplitFirst(s, f, '.');
    SplitNone(f, '.');
    SplitNone(last, ':');
    SplitFirst(b, last, ':');
    SplitFirst(d, b + [':'] + last, ':');
    assert d + ":" + b + ":" + s + "." + f == d + [':'] + (b + [':'] + last);
  }

  /** The number that a text stands for in base 16. */
  function ReadSource(text: string): Option<Numbers> {
    var fields := Fields(text);
    if fields.None? then None
    else
      var d, b := ParseDigits(fields.value[0], 16), ParseDigits(fields.value[1], 16);
      var s, f := ParseDigits(fields.value[2], 16), ParseDigits(fields.value[3], 16);
      if d.None? || b.None? || s.None? || f.None? then None else Some(Numbers(d.value, b.value, s.value, f.value))
  }

  /** The text shown for a PCI device gives back its four numbers, for all numbers. */
  lemma SourceReadsBack(n: Numbers)
    ensures ReadSource(PciSource(PciDevice(n))) == Some(n)
  {
    hide HexField, ParseDigits, Fields, Decimal;
    HexFieldOf(n.domain, 4);
    HexFieldOf(n.bus, 2);
    HexFieldOf(n.slot, 2);
    HexFieldOf(n.func, 1);
    FieldsOf(HexField(Some(Decimal(n.domain)), 4), HexField(Some(Decimal(n.bus)), 2),
             HexField(Some(Decimal(n.slot)), 2), HexField(Some(Decimal(n.func)), 1));
  }

  /** The four texts of an address are at least as wide as usual, and exactly so for numbers that
      are small enough. */
  lemma FieldWidths(n: nat, width: nat)
    requires width > 0
    ensures |HexField(Some(Decimal(n)), width)| >= width
    ensures |Print(n, 16)| <= width ==> |HexField(Some(Decimal(n)), width)| == width
  {
    hide Print, Decimal;
    HexFieldOf(n, width);
  }

  /** A part that is missing, or no number, is shown as one that is none. */
  lemma MissingField(s: OptString, width: nat)
    requires s.None? || ToNumber(s.value).None?
    ensures HexField(s, width) == Zeros(if width > 3 then width - 3 else 0) + "NaN"
  {
    assert Zeros(0) + "NaN" == "NaN";
  }

  /** So no two PCI devices are shown alike. */
  lemma SourceInjective(m: Numbers, n: Numbers)
    ensures PciSource(PciDevice(m)) == PciSource(PciDevice(n)) <==> m == n
  {
    hide PciSource, ReadSource;
    SourceReadsBack(m);
    SourceReadsBack(n);
  }

  // ----- Finding node devices -----

  /** `parseInt(s || "", 16)`, with an optional prefix 0x; None is NaN. */
  function ParseHex(s: OptString): Option<nat> {
    var text := OrEmpty(s);
    if |text| >= 2 && text[0] == '0' && (text[1] == 'x' || text[1] == 'X') then ParseDigits(text[2..], 16)
    else ParseDigits(text, 16)
  }

  /** A number is read back from its digits, with or without a prefix; without digits there is none. */
  lemma HexRead(n: nat, width: nat, prefix: string)
    requires prefix == "" || prefix == "0x" || prefix == "0X"
    ensures ParseHex(Some(prefix + PadStart(Print(n, 16), width))) == Some(n)
    ensures ParseHex(None) == None && ParseHex(Some("")) == None
  {
    var s := PadStart(Print(n, 16), width);
    ParsePrinted(n, width, 16);
    hide Print, PadStart, AllDigits;
    if prefix == "" {
      HexUnprefixed(n, width);
      assert prefix + s == s;
    } else {
      assert (prefix + s)[2..] == s;
    }
  }

  lemma HexUnprefixed(n: nat, width: nat)
    ensures ParseHex(Some(PadStart(Print(n, 16), width))) == Some(n)
  {
    hide Print, PadStart, ParseDigits, AllDigits;
    var s := PadStart(Print(n, 16), width);
    ParsePrinted(n, width, 16);
    ReadPadded(n, width, 16);
    DigitsOnly(s);
    if |s| >= 2 {
      assert s[1] in s;
    }
  }

  /** `n.toString()` */
  function NumberText(n: Option<nat>): string {
    if n.None? then "NaN" else Decimal(n.value)
  }

  predicate IsNodeDeviceOf(d: NodeDevice, a: Address) {
    var domain, bus := NumberText(ParseHex(a.domain)), NumberText(ParseHex(a.bus));
    var slot, func := NumberText(ParseHex(a.slot)), NumberText(ParseHex(a.func));
    && bus != "" && slot != "" && func != "" && domain != ""
    && d.kind == "pci" && d.bus == Some(bus) && d.slot == Some(slot) && d.func == Some(func) && d.domain == Some(domain)
  }

  /** findMatchingNodeDevices, for PCI host devices. */
  function FindMatching(a: Address, nodeDevices: seq<NodeDevice>): seq<NodeDevice> {
    Filter(nodeDevices, (d: NodeDevice) => IsNodeDeviceOf(d, a))
  }

  predicate HasNumbers(a: Address, n: Numbers) {
    && ParseHex(a.domain) == Some(n.domain) && ParseHex(a.bus) == Some(n.bus)
    && ParseHex(a.slot) == Some(n.slot) && ParseHex(a.func) == Some(n.func)
  }

  lemma NumberTextIs(n: Option<nat>, m: nat)
    ensures NumberText(n) != ""
    ensures NumberText(n) == Decimal(m) <==> n == Some(m)
  {
    ReadPrint(m, 10);
    if n.Some? {
      ReadPrint(n.value, 10);
      if NumberText(n) == Decimal(m) {
        PrintInjective(n.value, m, 10);
      }
    } else {
      assert !IsDigit("NaN"[0], 10);
    }
  }

  /** A PCI node device is found for a host device exactly if the hexadecimal address has its
      four numbers. */
  lemma FoundByNumbers(a: Address, n: Numbers)
    ensures IsNodeDeviceOf(PciDevice(n), a) <==> HasNumbers(a, n)
  {
    hide Decimal, NumberText, ParseHex;
    NumberTextIs(ParseHex(a.domain), n.domain);
    NumberTextIs(ParseHex(a.bus), n.bus);
    NumberTextIs(ParseHex(a.slot), n.slot);
    NumberTextIs(ParseHex(a.func), n.func);
  }

  /** Exactly those devices of the host are selected, in their order. */
  lemma MatchingExact(a: Address, nodeDevices: seq<NodeDevice>, n: Numbers)
    ensures PciDevice(n) in FindMatching(a, nodeDevices) <==> PciDevice(n) in nodeDevices && HasNumbers(a, n)
    ensures forall d :: d in FindMatching(a, nodeDevices) ==> d.kind == "pci" && d in nodeDevices
  {
    hide PciDevice, HasNumbers;
    FoundByNumbers(a, n);
    forall d ensures d in FindMatching(a, nodeDevices) <==> d in nodeDevices && IsNodeDeviceOf(d, a) {
      FilterMember(nodeDevices, (d: NodeDevice) => IsNodeDeviceOf(d, a), d);
    }
  }

  /** The address that libvirt writes for a device: 0x and the padded numbers. */
  function AddressOf(n: Numbers): Address {
    Address(Some("0x" + PadStart(Print(n.domain, 16), 4)), Some("0x" + PadStart(Print(n.bus, 16), 2)),
            Some("0x" + PadStart(Print(n.slot, 16), 2)), Some("0x" + PadStart(Print(n.func, 16), 1)))
  }

  /** A host device finds the node device with its address, and no other. */
  lemma HostDeviceFindsIts(m: Numbers, n: Numbers)
    ensures IsNodeDeviceOf(PciDevice(n), AddressOf(m)) <==> m == n
  {
    hide ParseHex, PadStart, Print;
    FoundByNumbers(AddressOf(m), n);
    HexRead(m.domain, 4, "0x");
    HexRead(m.bus, 2, "0x");
    HexRead(m.slot, 2, "0x");
    HexRead(m.func, 1, "0x");
  }
}
