/**
 * The memory size in the creation dialog: its value in the chosen unit, through every change
 * of size, unit and operating system, and the check before a machine is created.
 */
module MemorySize {
  import opened Options

  // ----- Units -----

  function Exponent(unit: string): Option<nat> {
    if unit == "B" then Some(0)
    else if unit == "KiB" then Some(1)
    else if unit == "MiB" then Some(2)
    else if unit == "GiB" then Some(3)
    else if unit == "TiB" then Some(4)
    else if unit == "PiB" then Some(5)
    else if unit == "EiB" then Some(6)
    else None
  }

  function Power(n: nat): (r: real)
    ensures r >= 1.0
  {
    if n == 0 then 1.0 else 1024.0 * Power(n - 1)
  }

  /** convertToUnit; None is an input that is not a number. */
  function Convert(input: Option<real>, inUnit: string, outUnit: string): real {
    if input.None? || input.value < 0.0 then 0.0
    else if Exponent(inUnit).None? || Exponent(outUnit).None? then 0.0
    else
      var i, o := Exponent(inUnit).value, Exponent(outUnit).value;
      if i < o then input.value / Power(o - i) else input.value * Power(i - o)
  }

  lemma {:induction false} PowerSum(m: nat, n: nat)
    ensures Power(m + n) == Power(m) * Power(n)
  {
    if m > 0 {
      PowerSum(m - 1, n);
      Associate(1024.0, Power(m - 1), Power(n));
    }
  }

  lemma Associate(a: real, b: real, c: real)
    ensures a * (b * c) == (a * b) * c
  {
  }

  lemma Cancel(x: real, y: real, p: real)
    requires p > 0.0
    ensures x * p == y * p <==> x == y
    ensures x * p <= y * p <==> x <= y
  {
    if x < y {
      assert (y - x) * p > 0.0;
    } else if y < x {
      assert (x - y) * p > 0.0;
    }
  }

  /** A quantity is the same in every unit. */
  lemma ConvertScale(x: real, inUnit: string, outUnit: string)
    requires x >= 0.0 && Exponent(inUnit).Some? && Exponent(outUnit).Some?
    ensures var y := Convert(Some(x), inUnit, outUnit);
            y >= 0.0 && y * Power(Exponent(outUnit).value) == x * Power(Exponent(inUnit).value)
  {
    hide Exponent, Power;
    var i, o := Exponent(inUnit).value, Exponent(outUnit).value;
    if i < o {
      PowerSum(o - i, i);
      var p := Power(o - i);
      var y := x / p;
      assert y * p == x;
      Associate(y, p, Power(i));
      NotNegative(x, p);
    } else {
      PowerSum(i - o, o);
      Associate(x, Power(i - o), Power(o));
    }
  }

  lemma NotNegative(x: real, p: real)
    requires x >= 0.0 && p > 0.0
    ensures x / p >= 0.0
  {
  }

  /** Converting in two steps is converting at once. */
  lemma ConvertTwice(x: real, a: string, b: string, c: string)
    requires x >= 0.0 && Exponent(a).Some? && Exponent(b).Some? && Exponent(c).Some?
    ensures Convert(Some(Convert(Some(x), a, b)), b, c) == Convert(Some(x), a, c)
  {
    hide Convert, Exponent, Power;
    ConvertScale(x, a, b);
    ConvertScale(Convert(Some(x), a, b), b, c);
    ConvertScale(x, a, c);
    Cancel(Convert(Some(Convert(Some(x), a, b)), b, c), Convert(Some(x), a, c), Power(Exponent(c).value));
  }

  lemma ConvertSame(x: real, unit: string)
    requires x >= 0.0 && Exponent(unit).Some?
    ensures Convert(Some(x), unit, unit) == x
  {
    assert Power(0) == 1.0;
  }

  lemma ConvertOrder(x: real, y: real, inUnit: string, outUnit: string)
    requires x >= 0.0 && y >= 0.0 && Exponent(inUnit).Some? && Exponent(outUnit).Some?
    ensures Convert(Some(x), inUnit, outUnit) <= Convert(Some(y), inUnit, outUnit) <==> x <= y
    ensures Convert(Some(x), inUnit, outUnit) == Convert(Some(y), inUnit, outUnit) <==> x == y
  {
    hide Convert, Exponent, Power;
    ConvertScale(x, inUnit, outUnit);
    ConvertScale(y, inUnit, outUnit);
    var p, q := Power(Exponent(inUnit).value), Power(Exponent(outUnit).value);
    Cancel(x, y, p);
    Cancel(Convert(Some(x), inUnit, outUnit), Convert(Some(y), inUnit, outUnit), q);
  }

  // ----- The dialog -----

  datatype State = State(size: real, unit: string)

  /** What virt-install is asked for, in MiB. */
  function Request(s: State): real {
    Convert(Some(s.size), s.unit, "MiB")
  }

  function Floor(x: real): real {
    x.Floor as real
  }

  function Ceil(x: real): real {
    -Floor(-x)
  }

  /** `!!n` */
  predicate Known(nodeMax: Option<real>) {
    nodeMax.Some? && nodeMax.value != 0.0
  }

  /** getMemoryDefaults, from the memory of the host in KiB. */
  function Defaults(nodeMax: Option<real>): State {
    if !Known(nodeMax) then State(0.0, "MiB")
    else
      var size := Floor(Convert(nodeMax, "KiB", "MiB"));
      if size > 1024.0 then State(1.0, "GiB") else State(size, "MiB")
  }

  datatype Event =
    | MemorySize(value: Option<real>)
    | MemorySizeUnit(unit: string)
    /** An operating system with its minimum of memory in bytes, and the exponent of the unit
        that suits this number best. */
    | Os(ram: real, best: nat)
    /** None, or one without a minimum. */
    | NoOs

  /** The best unit, kept between MiB and GiB. */
  function KeptUnit(best: nat): string {
    if best >= 3 then "GiB" else "MiB"
  }

  function OnSize(s: State, value: Option<real>): State {
    State(Convert(Some(Ceil(Convert(value, s.unit, "MiB"))), "MiB", s.unit), s.unit)
  }

  function OnUnit(s: State, unit: string): State {
    State(Convert(Some(s.size), s.unit, unit), unit)
  }

  function Step(s: State, e: Event, nodeMax: Option<real>): State {
    match e
    case MemorySize(value) => OnSize(s, value)
    case MemorySizeUnit(unit) => OnUnit(s, unit)
    case Os(ram, best) =>
      var unit := KeptUnit(best);
      OnSize(s.(unit := unit), Some(Convert(Some(ram), "B", unit)))
    case NoOs => Defaults(nodeMax)
  }

  /** The size in MiB is a whole number; with an unknown unit it is zero. */
  predicate Good(s: State) {
    && s.size >= 0.0
    && (Exponent(s.unit).None? ==> s.size == 0.0)
    && Floor(Request(s)) == Request(s)
  }

  lemma CeilWhole(x: real)
    ensures Floor(Ceil(x)) == Ceil(x)
    ensures x >= 0.0 ==> Ceil(x) >= 0.0
  {
    var n := (-x).Floor;
    WholeFloor(-n);
    assert Ceil(x) == (-n) as real;
    assert n as real <= -x;
  }

  lemma WholeFloor(n: int)
    ensures (n as real).Floor == n
  {
  }

  lemma ConvertNotNegative(input: Option<real>, inUnit: string, outUnit: string)
    ensures Convert(input, inUnit, outUnit) >= 0.0
    ensures Exponent(outUnit).None? ==> Convert(input, inUnit, outUnit) == 0.0
    ensures Exponent(inUnit).None? ==> Convert(input, inUnit, outUnit) == 0.0
  {
    hide Exponent;
    if input.Some? && input.value >= 0.0 && Exponent(inUnit).Some? && Exponent(outUnit).Some? {
      ConvertScale(input.value, inUnit, outUnit);
    }
  }

  lemma OnSizeGood(s: State, value: Option<real>)
    ensures Good(OnSize(s, value))
  {
    hide Convert, Floor, Ceil, Exponent;
    var mib := Convert(value, s.unit, "MiB");
    var whole := Ceil(mib);
    MiBKnown();
    ConvertNotNegative(value, s.unit, "MiB");
    CeilWhole(mib);
    ConvertNotNegative(Some(whole), "MiB", s.unit);
    ConvertNotNegative(Some(OnSize(s, value).size), s.unit, "MiB");
    if Exponent(s.unit).Some? {
      ConvertTwice(whole, "MiB", s.unit, "MiB");
      ConvertSame(whole, "MiB");
    } else {
      ZeroWhole();
    }
  }

  lemma MiBKnown()
    ensures Exponent("MiB").Some? && Exponent("KiB").Some? && Exponent("GiB").Some?
  {
  }

  lemma ZeroWhole()
    ensures Floor(0.0) == 0.0
  {
  }

  lemma OnUnitGood(s: State, unit: string)
    requires Good(s)
    ensures Good(OnUnit(s, unit))
  {
    hide Convert, Floor, Exponent;
    MiBKnown();
    ConvertNotNegative(Some(s.size), s.unit, unit);
    ConvertNotNegative(Some(OnUnit(s, unit).size), unit, "MiB");
    ZeroWhole();
    if Exponent(unit).Some? && Exponent(s.unit).Some? {
      ConvertTwice(s.size, s.unit, unit, "MiB");
    } else if Exponent(unit).Some? {
      assert OnUnit(s, unit).size == 0.0;
      ConvertZero(unit, "MiB");
    }
  }

  lemma ConvertZero(inUnit: string, outUnit: string)
    ensures Convert(Some(0.0), inUnit, outUnit) == 0.0
  {
  }

  lemma DefaultsGood(nodeMax: Option<real>)
    ensures Good(Defaults(nodeMax))
  {
    hide Convert;
    MiBKnown();
    ZeroWhole();
    ConvertZero("MiB", "MiB");
    ConvertNotNegative(nodeMax, "KiB", "MiB");
    var size := Floor(Convert(nodeMax, "KiB", "MiB"));
    ConvertSame(size, "MiB");
    OneGiB();
  }

  lemma OneGiB()
    ensures Convert(Some(1.0), "GiB", "MiB") == 1024.0
  {
    assert Power(0) == 1.0 && Power(1) == 1024.0 * Power(0);
  }

  function Run(s: State, events: seq<Event>, nodeMax: Option<real>): State
    decreases |events|
  {
    if events == [] then s else Run(Step(s, events[0], nodeMax), events[1..], nodeMax)
  }

  /** After any changes the size is a whole number of MiB. */
  lemma {:induction false} RunGood(s: State, events: seq<Event>, nodeMax: Option<real>)
    requires Good(s)
    ensures Good(Run(s, events, nodeMax))
    decreases |events|
  {
    hide Good, OnSize, OnUnit, Defaults, Convert;
    if events != [] {
      match events[0] {
        case MemorySize(value) => OnSizeGood(s, value);
        case MemorySizeUnit(unit) => OnUnitGood(s, unit);
        case Os(ram, best) => OnSizeGood(s.(unit := KeptUnit(best)), Some(Convert(Some(ram), "B", KeptUnit(best))));
        case NoOs => DefaultsGood(nodeMax);
      }
      RunGood(Step(s, events[0], nodeMax), events[1..], nodeMax);
    }
  }

  // ----- What is asked for after a change -----

  /** What x of a unit is in MiB. */
  function Mebibytes(x: real, unit: string): real
    requires unit == "MiB" || unit == "GiB"
  {
    if unit == "GiB" then 1024.0 * x else x
  }

  lemma KnownUnits(x: real, unit: string)
    requires x >= 0.0 && (unit == "MiB" || unit == "GiB")
    ensures Exponent(unit).Some? && Convert(Some(x), unit, "MiB") == Mebibytes(x, unit)
  {
    assert Power(0) == 1.0 && Power(1) == 1024.0 * Power(0);
  }

  /** A size that is entered is rounded up to whole MiB, by less than one; nothing but the size changes. */
  lemma SizeRoundedUp(s: State, value: real, nodeMax: Option<real>)
    requires value >= 0.0 && Exponent(s.unit).Some?
    ensures var t, wanted := Step(s, MemorySize(Some(value)), nodeMax), Convert(Some(value), s.unit, "MiB");
            t.unit == s.unit && wanted <= Request(t) < wanted + 1.0 && Floor(Request(t)) == Request(t)
  {
    hide Convert, Exponent;
    MiBKnown();
    OnSizeGood(s, Some(value));
    var wanted := Convert(Some(value), s.unit, "MiB");
    ConvertNotNegative(Some(value), s.unit, "MiB");
    CeilWhole(wanted);
    ConvertTwice(Ceil(wanted), "MiB", s.unit, "MiB");
    ConvertSame(Ceil(wanted), "MiB");
  }

  /** What is no number, or negative, is entered as zero. */
  lemma NoSize(s: State, value: Option<real>, nodeMax: Option<real>)
    requires value.None? || value.value < 0.0
    ensures Step(s, MemorySize(value), nodeMax) == State(0.0, s.unit)
  {
    ConvertZero("MiB", s.unit);
  }

  /** Choosing another unit does not change what is asked for. */
  lemma UnitKeepsRequest(s: State, unit: string, nodeMax: Option<real>)
    requires s.size >= 0.0 && Exponent(s.unit).Some? && Exponent(unit).Some?
    ensures var t := Step(s, MemorySizeUnit(unit), nodeMax); t.unit == unit && Request(t) == Request(s)
  {
    hide Convert, Exponent;
    MiBKnown();
    ConvertTwice(s.size, s.unit, unit, "MiB");
  }

  /** Choosing an operating system asks for its minimum of memory, rounded up to whole MiB by
      less than one, in GiB if the unit that suits the number best is at least that, else in MiB. */
  lemma OsMinimum(s: State, ram: real, best: nat, nodeMax: Option<real>)
    requires ram >= 0.0
    ensures var t, wanted := Step(s, Os(ram, best), nodeMax), ram / 1048576.0;
            && t.unit == (if best >= 3 then "GiB" else "MiB")
            && wanted <= Mebibytes(t.size, t.unit) < wanted + 1.0
            && Floor(Mebibytes(t.size, t.unit)) == Mebibytes(t.size, t.unit)
  {
    var t := Step(s, Os(ram, best), nodeMax);
    BytesInMiB(ram);
    hide Convert, Exponent, Floor, Ceil;
    MiBKnown();
    var unit := KeptUnit(best);
    var amount := Convert(Some(ram), "B", unit);
    ConvertTwice(ram, "B", unit, "MiB");
    ConvertNotNegative(Some(ram), "B", unit);
    SizeRoundedUp(s.(unit := unit), amount, nodeMax);
    ConvertNotNegative(Some(Ceil(Convert(Some(amount), unit, "MiB"))), "MiB", unit);
    KnownUnits(t.size, unit);
  }

  lemma BytesInMiB(ram: real)
    requires ram >= 0.0
    ensures Exponent("B").Some? && Convert(Some(ram), "B", "MiB") == ram / 1048576.0
  {
    assert Power(2) == 1024.0 * Power(1) == 1024.0 * (1024.0 * Power(0)) == 1048576.0;
  }

  /** Without one, what is asked for is what the host has, in whole MiB, but at most 1024 MiB, and
      nothing if that is not known. */
  lemma DefaultMemory(s: State, kib: Option<real>)
    requires kib.Some? ==> kib.value >= 0.0
    ensures var t := Step(s, NoOs, kib);
            && (t.unit == "MiB" || t.unit == "GiB")
            && var host := Floor(kib.GetOr(0.0) / 1024.0);
               Mebibytes(t.size, t.unit) == if host > 1024.0 then 1024.0 else host
  {
    assert Power(1) == 1024.0 * Power(0) == 1024.0;
    ZeroWhole();
  }

  /** The units are powers of 1024 bytes; there are no others. */
  lemma UnitsInBytes(x: real)
    requires x >= 0.0
    ensures Convert(Some(x), "B", "B") == x
    ensures Convert(Some(x), "KiB", "B") == 1024.0 * x
    ensures Convert(Some(x), "MiB", "KiB") == 1024.0 * x
    ensures Convert(Some(x), "GiB", "MiB") == 1024.0 * x
    ensures Convert(Some(x), "TiB", "GiB") == 1024.0 * x
    ensures Convert(Some(x), "PiB", "TiB") == 1024.0 * x
    ensures Convert(Some(x), "EiB", "PiB") == 1024.0 * x
  {
    assert Power(0) == 1.0 && Power(1) == 1024.0 * Power(0);
  }

  lemma NoOtherUnit(x: Option<real>, unit: string, other: string)
    requires unit !in ["B", "KiB", "MiB", "GiB", "TiB", "PiB", "EiB"]
    ensures Convert(x, unit, other) == 0.0 && Convert(x, other, unit) == 0.0
  {
    var all := ["B", "KiB", "MiB", "GiB", "TiB", "PiB", "EiB"];
    assert all[0] in all && all[1] in all && all[2] in all && all[3] in all && all[4] in all && all[5] in all && all[6] in all;
  }

  // ----- Validation -----

  predicate MemoryError(s: State, nodeMax: Option<real>) {
    s.size == 0.0 || (Known(nodeMax) && s.size > Convert(nodeMax, "KiB", s.unit))
  }

  /** What is asked for is at least 1 MiB, and not more than the host has, if that is known. */
  predicate Acceptable(s: State, nodeMax: Option<real>) {
    Request(s) >= 1.0 && (Known(nodeMax) ==> Request(s) <= Convert(nodeMax, "KiB", "MiB"))
  }

  lemma GoodRequest(s: State)
    requires Good(s)
    ensures Request(s) >= 0.0 && (Request(s) == 0.0 <==> s.size == 0.0)
    ensures Request(s) > 0.0 ==> Request(s) >= 1.0
  {
    hide Convert, Exponent;
    MiBKnown();
    ConvertNotNegative(Some(s.size), s.unit, "MiB");
    ConvertZero(s.unit, "MiB");
    if Exponent(s.unit).Some? {
      ConvertOrder(s.size, 0.0, s.unit, "MiB");
    }
  }

  lemma HostLimit(s: State, nodeMax: Option<real>)
    requires Good(s) && Known(nodeMax) && nodeMax.value > 0.0 && s.size > 0.0
    ensures s.size > Convert(nodeMax, "KiB", s.unit) <==> Request(s) > Convert(nodeMax, "KiB", "MiB")
  {
    hide Convert, Exponent;
    MiBKnown();
    var limit := Convert(nodeMax, "KiB", s.unit);
    ConvertNotNegative(nodeMax, "KiB", s.unit);
    ConvertTwice(nodeMax.value, "KiB", s.unit, "MiB");
    ConvertOrder(s.size, limit, s.unit, "MiB");
  }

  /** After any changes, a machine can be created exactly if its memory is acceptable. */
  lemma {:induction false} NoErrorIsAcceptable(events: seq<Event>, nodeMax: Option<real>)
    requires nodeMax.Some? ==> nodeMax.value >= 0.0
    ensures var s := Run(Defaults(nodeMax), events, nodeMax);
            !MemoryError(s, nodeMax) <==> Acceptable(s, nodeMax)
    ensures var s := Run(Defaults(nodeMax), events, nodeMax); Floor(Request(s)) == Request(s)
  {
    hide Convert, Run, Request, Good;
    DefaultsGood(nodeMax);
    RunGood(Defaults(nodeMax), events, nodeMax);
    var s := Run(Defaults(nodeMax), events, nodeMax);
    GoodParts(s);
    GoodRequest(s);
    if Known(nodeMax) && s.size > 0.0 {
      HostLimit(s, nodeMax);
    }
  }

  lemma GoodParts(s: State)
    requires Good(s)
    ensures s.size >= 0.0 && Floor(Request(s)) == Request(s)
  {
  }

  // ----- The component -----

  class CreateVmModal {
    var memorySize: real
    var memorySizeUnit: string
    const nodeMaxMemory: Option<real>

    ghost function Now(): State
      reads this
    {
      State(memorySize, memorySizeUnit)
    }

    constructor (nodeMaxMemory: Option<real>)
      ensures Now() == Defaults(nodeMaxMemory) && this.nodeMaxMemory == nodeMaxMemory && Good(Now())
    {
      this.nodeMaxMemory := nodeMaxMemory;
      var defaults := Defaults(nodeMaxMemory);
      DefaultsGood(nodeMaxMemory);
      memorySize, memorySizeUnit := defaults.size, defaults.unit;
    }

    method OnValueChanged(e: Event)
      requires Good(Now())
      modifies this
      ensures Good(Now()) && Now() == Step(old(Now()), e, nodeMaxMemory)
    {
      hide Good, Convert, Defaults;
      RunGood(Now(), [e], nodeMaxMemory);
      assert Run(Now(), [e], nodeMaxMemory) == Step(Now(), e, nodeMaxMemory) by {
        assert [e][1..] == [];
      }
      match e {
        case MemorySize(value) => SetMemorySize(value);
        case MemorySizeUnit(unit) =>
          memorySize := Convert(Some(memorySize), memorySizeUnit, unit);
          memorySizeUnit := unit;
        case Os(ram, best) =>
          var bestUnit := KeptUnit(best);
          var converted := Convert(Some(ram), "B", bestUnit);
          memorySizeUnit := bestUnit;
          SetMemorySize(Some(converted));
        case NoOs =>
          var defaults := Defaults(nodeMaxMemory);
          memorySize, memorySizeUnit := defaults.size, defaults.unit;
      }
    }

    method SetMemorySize(value: Option<real>)
      modifies this`memorySize
      ensures Now() == OnSize(old(Now()), value)
    {
      var valueMiB := Ceil(Convert(value, memorySizeUnit, "MiB"));
      memorySize := Convert(Some(valueMiB), "MiB", memorySizeUnit);
    }
  }
}
