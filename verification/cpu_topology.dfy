/**
 * The vCPU dialog: handlers that keep sockets * cores * threads equal to the
 * maximum number of vCPUs while the user edits any of them.
 */
module CpuTopology {
  import opened Options

  // ----- Divisors -----

  predicate Divides(d: nat, n: nat) {
    d > 0 && n % d == 0
  }

  /** The divisors of n below bound, other than 1, ascending. */
  function ProperDivisors(n: nat, bound: nat): seq<nat> {
    if bound <= 2 then []
    else ProperDivisors(n, bound - 1) + (if n % (bound - 1) == 0 then [bound - 1] else [])
  }

  /** What the dialog offers for a maximum of n. */
  function Dividers(n: nat): (divs: seq<nat>)
    ensures divs != []
  {
    [1] + ProperDivisors(n, n) + (if n > 1 then [n] else [])
  }

  method ComputeDividers(num: nat) returns (divs: seq<nat>)
    ensures divs != [] && divs == Dividers(num)
  {
    divs := [1];
    var i := 2;
    while i < num
      invariant 2 <= i && (i <= num || i == 2)
      invariant divs == [1] + ProperDivisors(num, i)
    {
      if num % i == 0 {
        divs := divs + [i];
      }
      i := i + 1;
    }
    assert num <= 2 ==> ProperDivisors(num, num) == [];
    if num > 1 {
      divs := divs + [num];
    }
  }

  lemma {:induction false} ProperDivisorsExact(n: nat, bound: nat)
    ensures forall d :: d in ProperDivisors(n, bound) <==> 2 <= d < bound && n % d == 0
    ensures forall i, j :: 0 <= i < j < |ProperDivisors(n, bound)| ==> ProperDivisors(n, bound)[i] < ProperDivisors(n, bound)[j]
  {
    if bound > 2 {
      ProperDivisorsExact(n, bound - 1);
      var p := ProperDivisors(n, bound - 1);
      forall i | 0 <= i < |p| ensures p[i] < bound - 1 {
        assert p[i] in p;
      }
    }
  }

  /** For a positive number, the list is exactly its divisors, in ascending order, itself last. */
  lemma DividersExact(n: nat)
    requires n > 0
    ensures forall d :: d in Dividers(n) <==> Divides(d, n)
    ensures forall i, j :: 0 <= i < j < |Dividers(n)| ==> Dividers(n)[i] < Dividers(n)[j]
    ensures Dividers(n)[|Dividers(n)| - 1] == n
  {
    ProperDivisorsExact(n, n);
    var p := ProperDivisors(n, n);
    forall i | 0 <= i < |p| ensures 1 < p[i] < n {
      assert p[i] in p;
    }
    forall d ensures d in Dividers(n) <==> Divides(d, n) {
      DividersMember(d, n);
    }
  }

  lemma DividersMember(d: nat, n: nat)
    requires n > 0
    ensures d in Dividers(n) <==> Divides(d, n)
  {
    ProperDivisorsExact(n, n);
    hide ProperDivisors;
    assert n % 1 == 0 && n % n == 0;
    if Divides(d, n) {
      DivisorBound(d, n);
    }
  }

  lemma DivisorBound(d: nat, n: nat)
    requires n > 0 && Divides(d, n)
    ensures 1 <= d <= n
  {
    var q := n / d;
    assert n == q * d;
    AtLeast(q, d);
  }

  lemma AtLeast(a: nat, b: nat)
    ensures a >= 1 ==> a * b >= b
    ensures a >= 2 && b >= 1 ==> a * b > b
  {
    if a >= 1 {
      assert a * b == (a - 1) * b + b;
      assert (a - 1) * b >= 0;
    }
  }

  // ----- The state and its handlers -----

  datatype Topology = Topology(max: nat, count: nat, sockets: nat, cores: nat, threads: nat) {

    /** Unless the maximum is emptied: a true factorisation into offered values, and no
        more vCPUs in use than there are. */
    ghost predicate Consistent() {
      max >= 1 ==>
        && Factored(this, max)
        && count <= max
    }
  }

  /** What a field may send: nothing, or text that parseInt reads as a number or as NaN (None). */
  datatype Input = Empty | Typed(value: Option<int>)

  datatype Event =
    | MaxChange(input: Input)
    | CountSelect(input: Input)
    | SocketChange(value: nat)
    | CoresChange(value: nat)
    | ThreadsChange(value: nat)
  {
    /** The three selects only offer dividers of the maximum. */
    predicate Offered(t: Topology) {
      match this
      case SocketChange(v) => v in Dividers(t.max)
      case CoresChange(v) => v in Dividers(t.max)
      case ThreadsChange(v) => v in Dividers(t.max)
      case _ => true
    }
  }

  function Clamp(value: Option<int>, max: nat, min: nat): nat {
    if value.None? || value.value < min then min else if value.value > max then max else value.value
  }

  /** Keep the value if it divides n, else take the largest divisor. */
  function KeepOrLargest(value: nat, n: nat): nat {
    var divs := Dividers(n);
    if value in divs then value else divs[|divs| - 1]
  }

  /** JavaScript's x / y where it is known to be a whole number. */
  function Quotient(x: nat, y: nat): nat {
    if y == 0 then 0 else x / y
  }

  /** onMaxChange with text in the field. The sockets follow the maximum while they have the
      value the machine came with. */
  function AfterMax(t: Topology, maxValue: nat, vmSockets: nat): Topology {
    var sockets := if t.sockets == vmSockets then Dividers(maxValue)[|Dividers(maxValue)| - 1]
                   else KeepOrLargest(t.sockets, maxValue);
    var cores := KeepOrLargest(t.cores, Quotient(maxValue, sockets));
    var count := if maxValue < t.count && maxValue != 0 then maxValue else t.count;
    Topology(maxValue, count, sockets, cores, Quotient(maxValue, cores * sockets))
  }

  function Apply(t: Topology, e: Event, maxHypervisor: nat, vmSockets: nat): Topology {
    match e
    case MaxChange(Empty) => t.(max := 0)
    case MaxChange(Typed(v)) => AfterMax(t, Clamp(v, maxHypervisor, 1), vmSockets)
    case CountSelect(Empty) => t.(count := 0)
    case CountSelect(Typed(v)) => t.(count := Clamp(v, t.max, 1))
    case SocketChange(v) =>
      var cores := KeepOrLargest(t.cores, Quotient(t.max, v));
      t.(sockets := v, cores := cores, threads := Quotient(t.max, v * cores))
    case CoresChange(v) =>
      var sockets := KeepOrLargest(t.sockets, Quotient(t.max, v));
      t.(cores := v, sockets := sockets, threads := Quotient(t.max, sockets * v))
    case ThreadsChange(v) =>
      var sockets := KeepOrLargest(t.sockets, Quotient(t.max, v));
      t.(threads := v, sockets := sockets, cores := Quotient(t.max, sockets * v))
  }

  function Run(t: Topology, es: seq<Event>, maxHypervisor: nat, vmSockets: nat): Topology {
    if es == [] then t else Apply(Run(t, es[..|es| - 1], maxHypervisor, vmSockets), es[|es| - 1], maxHypervisor, vmSockets)
  }

  /** Every event of the run was possible when it happened. */
  predicate Possible(t: Topology, es: seq<Event>, maxHypervisor: nat, vmSockets: nat) {
    es == [] ||
    (Possible(t, es[..|es| - 1], maxHypervisor, vmSockets) &&
     es[|es| - 1].Offered(Run(t, es[..|es| - 1], maxHypervisor, vmSockets)))
  }

  // ----- Arithmetic -----

  lemma MulDiv(a: nat, b: nat)
    requires a > 0
    ensures (a * b) / a == b && (a * b) % a == 0
  {
    var q: int, r: int := (a * b) / a, (a * b) % a;
    assert a * (b - q) == r;
    Magnitude(a, b - q);
  }

  lemma Magnitude(a: int, d: int)
    requires a >= 0
    ensures d >= 1 ==> a * d >= a
    ensures d <= -1 ==> a * d <= -a
  {
    if d >= 1 {
      AtLeast(d, a);
    } else if d <= -1 {
      AtLeast(-d, a);
      assert a * d == -(-d * a);
    }
  }

  lemma ProductPositive(a: nat, b: nat)
    requires a > 0 && b > 0
    ensures a * b > 0
  {
  }

  /** Dividing n by a divisor, and that by a divisor, leaves a third factor. */
  lemma ThreeFactors(n: nat, a: nat, b: nat)
    requires n > 0 && Divides(a, n) && Divides(b, Quotient(n, a))
    ensures var c := Quotient(n, a * b); c > 0 && a * b * c == n
    ensures Divides(b, n) && Divides(Quotient(n, a * b), n)
  {
    var q := n / a;
    assert n == a * q;
    var c := q / b;
    assert q == b * c;
    assert n == a * (b * c) == (a * b) * c == b * (a * c) == c * (a * b);
    ProductPositive(a, b);
    assert c > 0;
    MulDiv(a * b, c);
    MulDiv(b, a * c);
    MulDiv(c, a * b);
  }

  lemma QuotientPositive(n: nat, a: nat)
    requires n > 0 && Divides(a, n)
    ensures Quotient(n, a) > 0
  {
    assert n == a * (n / a);
  }

  lemma KeepOrLargestDivides(value: nat, n: nat)
    requires n > 0
    ensures Divides(KeepOrLargest(value, n), n)
  {
    DividersExact(n);
    var divs := Dividers(n);
    assert divs[|divs| - 1] in divs;
  }

  /** A first factor that divides max, a second kept or replaced, and the quotient as the third. */
  lemma Split(max: nat, first: nat, old_second: nat)
    requires max > 0 && Divides(first, max)
    ensures var second := KeepOrLargest(old_second, Quotient(max, first));
            var third := Quotient(max, first * second);
            && first in Dividers(max) && second in Dividers(max) && third in Dividers(max)
            && first * second * third == max
  {
    var second := KeepOrLargest(old_second, Quotient(max, first));
    QuotientPositive(max, first);
    KeepOrLargestDivides(old_second, Quotient(max, first));
    ThreeFactors(max, first, second);
    DividersExact(max);
  }

  lemma Rearrange(a: nat, b: nat, c: nat)
    ensures a * b * c == b * a * c == a * c * b == c * b * a == b * c * a
  {
  }

  // ----- Results -----

  ghost predicate Factored(t: Topology, max: nat) {
    && t.sockets in Dividers(max) && t.cores in Dividers(max) && t.threads in Dividers(max)
    && t.sockets * t.cores * t.threads == max
  }

  lemma LargestDivides(n: nat)
    requires n > 0
    ensures Divides(Dividers(n)[|Dividers(n)| - 1], n)
  {
    DividersExact(n);
    assert n in Dividers(n);
  }

  lemma AfterMaxFactored(t: Topology, max: nat, vmSockets: nat)
    requires max > 0
    ensures Factored(AfterMax(t, max, vmSockets), max)
  {
    hide Dividers, KeepOrLargest, Quotient, Divides;
    var t' := AfterMax(t, max, vmSockets);
    LargestDivides(max);
    KeepOrLargestDivides(t.sockets, max);
    Split(max, t'.sockets, t.cores);
    Swap(t'.cores, t'.sockets);
  }

  /** Typing a maximum restores consistency from any state whatever, emptied or wrong. */
  lemma MaxChangeRestores(t: Topology, value: Option<int>, maxHypervisor: nat, vmSockets: nat)
    requires maxHypervisor >= 1
    ensures var t' := Apply(t, MaxChange(Typed(value)), maxHypervisor, vmSockets);
            t'.Consistent() && 1 <= t'.max <= maxHypervisor
  {
    hide Factored, Dividers;
    AfterMaxFactored(t, Clamp(value, maxHypervisor, 1), vmSockets);
  }

  /** Choosing a factor keeps it and the maximum, and makes the other two fit. */
  lemma ChoiceKept(t: Topology, e: Event, maxHypervisor: nat, vmSockets: nat)
    requires e.SocketChange? || e.CoresChange? || e.ThreadsChange?
    requires e.Offered(t) && t.max >= 1
    ensures var t' := Apply(t, e, maxHypervisor, vmSockets);
            && t'.max == t.max && t'.count == t.count
            && (if e.SocketChange? then t'.sockets else if e.CoresChange? then t'.cores else t'.threads) == e.value
            && Factored(t', t.max)
  {
    hide Dividers, KeepOrLargest, Quotient;
    var t' := Apply(t, e, maxHypervisor, vmSockets);
    DividersExact(t.max);
    match e
    case SocketChange(v) =>
      Split(t.max, v, t.cores);
    case CoresChange(v) =>
      Split(t.max, v, t.sockets);
      Rearrange(v, t'.sockets, t'.threads);
      Swap(t'.sockets, v);
    case ThreadsChange(v) =>
      Split(t.max, v, t.sockets);
      Rearrange(v, t'.sockets, t'.cores);
      Swap(t'.sockets, v);
  }

  lemma Swap(a: nat, b: nat)
    ensures a * b == b * a
  {
  }

  /** What a maximum that is typed in makes of each field. The maximum is the number itself, or the
      limit it exceeds, 1 for no number; vCPUs beyond it go. The sockets become all of it while
      they have the value the machine came with, else they and the cores are kept where they
      still divide what there is to divide, and become all of it where they do not. */
  lemma TypedMaximum(t: Topology, value: Option<int>, maxHypervisor: nat, vmSockets: nat)
    requires maxHypervisor >= 1
    ensures var t' := Apply(t, MaxChange(Typed(value)), maxHypervisor, vmSockets);
            && t'.max == (if value.None? || value.value < 1 then 1
                          else if value.value > maxHypervisor then maxHypervisor else value.value)
            && t'.count == (if t.count > t'.max then t'.max else t.count)
            && t'.sockets == (if t.sockets != vmSockets && t.sockets > 0 && t'.max % t.sockets == 0 then t.sockets else t'.max)
            && t'.sockets > 0
            && t'.cores == (if t.cores > 0 && (t'.max / t'.sockets) % t.cores == 0 then t.cores else t'.max / t'.sockets)
            && t'.sockets * t'.cores * t'.threads == t'.max
  {
    hide Factored, Dividers, KeepOrLargest, Clamp;
    var max := Clamp(value, maxHypervisor, 1);
    ClampValue(value, maxHypervisor);
    var t' := AfterMax(t, max, vmSockets);
    AfterMaxFactored(t, max, vmSockets);
    FactoredParts(t', max);
    KeptOrAll(t.sockets, max);
    DividersExact(max);
    DividesPositive(t'.sockets, max);
    KeptOrAll(t.cores, max / t'.sockets);
  }

  lemma ClampValue(value: Option<int>, limit: nat)
    requires limit >= 1
    ensures Clamp(value, limit, 1)
         == if value.None? || value.value < 1 then 1 else if value.value > limit then limit else value.value
  {
  }

  lemma FactoredParts(t: Topology, max: nat)
    requires max > 0 && Factored(t, max)
    ensures Divides(t.sockets, max) && t.sockets * t.cores * t.threads == max
  {
    DividersExact(max);
  }

  lemma DividesPositive(d: nat, n: nat)
    requires n > 0 && Divides(d, n)
    ensures d > 0 && n / d > 0
  {
    QuotientPositive(n, d);
  }

  /** A value is kept if it divides n, and else becomes all of it. */
  lemma KeptOrAll(value: nat, n: nat)
    requires n > 0
    ensures KeepOrLargest(value, n) == if value > 0 && n % value == 0 then value else n
  {
    DividersExact(n);
  }

  /** An emptied maximum is none, and leaves everything else. */
  lemma EmptiedMaximum(t: Topology, maxHypervisor: nat, vmSockets: nat)
    ensures var t' := Apply(t, MaxChange(Empty), maxHypervisor, vmSockets);
            t'.max == 0 && t'.(max := t.max) == t
  {
  }

  /** The count chosen is the number typed, or the limit it exceeds, 1 for no number, and none for
      nothing; everything else stays. */
  lemma CountChosen(t: Topology, input: Input, maxHypervisor: nat, vmSockets: nat)
    requires t.max >= 1
    ensures var t' := Apply(t, CountSelect(input), maxHypervisor, vmSockets);
            && t'.(count := t.count) == t
            && t'.count == (if input.Empty? then 0
                            else if input.value.None? || input.value.value < 1 then 1
                            else if input.value.value > t.max then t.max else input.value.value)
  {
  }

  /** A factor that was not chosen is kept if it divides what the chosen one leaves, and else
      becomes all of it: the cores when sockets are chosen, and else the sockets. */
  lemma OtherFactorKept(t: Topology, e: Event, maxHypervisor: nat, vmSockets: nat)
    requires e.SocketChange? || e.CoresChange? || e.ThreadsChange?
    requires e.Offered(t) && t.max >= 1
    ensures e.value > 0
    ensures var t', rest := Apply(t, e, maxHypervisor, vmSockets), t.max / e.value;
            if e.SocketChange?
            then t'.cores == if t.cores > 0 && rest % t.cores == 0 then t.cores else rest
            else t'.sockets == if t.sockets > 0 && rest % t.sockets == 0 then t.sockets else rest
  {
    hide Dividers, KeepOrLargest;
    DividersExact(t.max);
    DividesPositive(e.value, t.max);
    KeptOrAll(if e.SocketChange? then t.cores else t.sockets, t.max / e.value);
  }

  lemma ApplyConsistent(t: Topology, e: Event, maxHypervisor: nat, vmSockets: nat)
    requires t.Consistent() && e.Offered(t)
    ensures Apply(t, e, maxHypervisor, vmSockets).Consistent()
  {
    match e
    case MaxChange(Empty) =>
    case MaxChange(Typed(v)) =>
      if maxHypervisor >= 1 {
        MaxChangeRestores(t, v, maxHypervisor, vmSockets);
      } else {
        EmptyHypervisor(t, v, vmSockets);
      }
    case CountSelect(_) =>
    case _ =>
      if t.max >= 1 {
        ChoiceKept(t, e, maxHypervisor, vmSockets);
      }
  }

  /** A hypervisor maximum of zero clamps numbers to zero, which leaves the count, and everything
      else to one. */
  lemma EmptyHypervisor(t: Topology, value: Option<int>, vmSockets: nat)
    ensures var t' := Apply(t, MaxChange(Typed(value)), 0, vmSockets);
            && t'.Consistent()
            && t'.max == (if value.None? || value.value < 1 then 1 else 0)
            && (t'.max == 0 ==> t'.count == t.count)
  {
    var max := Clamp(value, 0, 1);
    if max == 1 {
      MaxChangeRestores(t, None, 1, vmSockets);
    }
  }

  /** Every state reached by any run of the dialog is consistent. */
  lemma {:induction false} RunConsistent(t: Topology, es: seq<Event>, maxHypervisor: nat, vmSockets: nat)
    requires t.Consistent() && Possible(t, es, maxHypervisor, vmSockets)
    ensures Run(t, es, maxHypervisor, vmSockets).Consistent()
  {
    if es != [] {
      RunConsistent(t, es[..|es| - 1], maxHypervisor, vmSockets);
      ApplyConsistent(Run(t, es[..|es| - 1], maxHypervisor, vmSockets), es[|es| - 1], maxHypervisor, vmSockets);
    }
  }

  /** getInt */
  function GetInt(val: Option<nat>, def: nat): nat {
    val.GetOr(def)
  }

  /** What the dialog opens with: missing sockets and threads are 1, missing cores the maximum. */
  function Opening(max: nat, count: nat, sockets: Option<nat>, cores: Option<nat>, threads: Option<nat>): Topology {
    Topology(max, count, GetInt(sockets, 1), GetInt(cores, max), GetInt(threads, 1))
  }

  lemma FactorsDivide(a: nat, b: nat, c: nat)
    requires a * b * c >= 1
    ensures var n := a * b * c; a in Dividers(n) && b in Dividers(n) && c in Dividers(n)
  {
    var n := a * b * c;
    Rearrange(a, b, c);
    assert n == a * (b * c) == b * (a * c) == c * (a * b);
    assert a > 0 && b > 0 && c > 0;
    MulDiv(a, b * c);
    MulDiv(b, a * c);
    MulDiv(c, a * b);
    DividersExact(n);
  }

  /** The dialog opens consistent exactly if no more vCPUs are in use than there are, and the
      factors, with the defaults filled in, multiply to the maximum. */
  lemma OpensConsistent(max: nat, count: nat, sockets: Option<nat>, cores: Option<nat>, threads: Option<nat>)
    requires max >= 1
    ensures Opening(max, count, sockets, cores, threads).Consistent()
       <==> count <= max && sockets.GetOr(1) * cores.GetOr(max) * threads.GetOr(1) == max
  {
    hide Dividers;
    if GetInt(sockets, 1) * GetInt(cores, max) * GetInt(threads, 1) == max {
      FactorsDivide(GetInt(sockets, 1), GetInt(cores, max), GetInt(threads, 1));
    }
  }

  /** Without cores in the definition, it does so exactly if sockets and threads are 1 as well:
      cores then default to the maximum although the others already multiply it. */
  lemma PartialTopologyOpensWrong(max: nat, count: nat, sockets: Option<nat>, threads: Option<nat>)
    requires max >= 1 && count <= max
    ensures Opening(max, count, sockets, None, threads).Consistent()
       <==> sockets.GetOr(1) == 1 && threads.GetOr(1) == 1
  {
    hide Opening, GetInt, Topology.Consistent;
    OpensConsistent(max, count, sockets, None, threads);
    AllCores(sockets.GetOr(1), threads.GetOr(1), max);
  }

  lemma AllCores(s: nat, t: nat, max: nat)
    requires max >= 1
    ensures s * max * t == max <==> s == 1 && t == 1
  {
    var p := s * t;
    Rearrange(s, max, t);
    OneProduct(s, t);
    AtLeast(p, max);
    assert s * max * t == p * max;
    if p == 0 {
      assert p * max == 0;
    }
  }

  lemma OneProduct(a: nat, b: nat)
    ensures a * b == 1 <==> a == 1 && b == 1
  {
    AtLeast(a, b);
    AtLeast(b, a);
    if a * b == 1 {
      assert a >= 1 && b >= 1;
    }
  }

  // ----- The dialog -----

  class CpuModal {
    var max: nat
    var count: nat
    var sockets: nat
    var cores: nat
    var threads: nat
    const maxHypervisor: nat
    const vmSockets: nat   // getInt(vm.cpu.topology.sockets, 1)

    ghost function State(): Topology
      reads this
    {
      Topology(max, count, sockets, cores, threads)
    }

    ghost function After(e: Event): Topology
      reads this
    {
      Apply(State(), e, maxHypervisor, vmSockets)
    }

    constructor (max: nat, count: nat, sockets: Option<nat>, threads: Option<nat>, cores: Option<nat>, maxHypervisor: nat)
      ensures State() == Opening(max, count, sockets, cores, threads)
      ensures vmSockets == GetInt(sockets, 1) && this.maxHypervisor == maxHypervisor
    {
      this.max, this.count, this.maxHypervisor := max, count, maxHypervisor;
      this.sockets, this.threads, this.cores := GetInt(sockets, 1), GetInt(threads, 1), GetInt(cores, max);
      vmSockets := GetInt(sockets, 1);
    }

    method OnMaxChange(value: Input)
      modifies this
      ensures State() == old(After(MaxChange(value)))
    {
      hide Dividers, Quotient, Clamp;
      if value.Empty? {
        max := 0;
        return;
      }
      var maxValue := Clamp(value.value, maxHypervisor, 1);
      var delta := Topology(maxValue, count, sockets, cores, threads);
      if maxValue < count {
        delta := delta.(count := maxValue);
      }
      var divs := ComputeDividers(delta.max);
      if sockets !in divs || vmSockets == sockets {
        delta := delta.(sockets := divs[|divs| - 1]);
      }
      divs := ComputeDividers(Quotient(delta.max, delta.sockets));
      if cores !in divs {
        delta := delta.(cores := divs[|divs| - 1]);
      }
      delta := delta.(threads := Quotient(delta.max, delta.cores * delta.sockets));
      sockets := delta.sockets;
      cores := delta.cores;
      threads := delta.threads;
      if delta.count != 0 {
        count := delta.count;
      }
      max := delta.max;
    }

    method OnCountSelect(value: Input)
      modifies this
      ensures State() == old(After(CountSelect(value)))
    {
      if value.Empty? {
        count := 0;
        return;
      }
      count := Clamp(value.value, max, 1);
    }

    method OnSocketChange(value: nat)
      requires SocketChange(value).Offered(State())
      modifies this
      ensures State() == old(After(SocketChange(value)))
    {
      hide Dividers, Quotient;
      var divs := ComputeDividers(Quotient(max, value));
      var newCores := cores;
      if cores !in divs {
        newCores := divs[|divs| - 1];
      }
      threads := Quotient(max, value * newCores);
      sockets := value;
      cores := newCores;
    }

    method OnThreadsChange(value: nat)
      requires ThreadsChange(value).Offered(State())
      modifies this
      ensures State() == old(After(ThreadsChange(value)))
    {
      hide Dividers, Quotient;
      var divs := ComputeDividers(Quotient(max, value));
      var newSockets := sockets;
      if newSockets !in divs {
        newSockets := divs[|divs| - 1];
      }
      cores := Quotient(max, newSockets * value);
      sockets := newSockets;
      threads := value;
    }

    method OnCoresChange(value: nat)
      requires CoresChange(value).Offered(State())
      modifies this
      ensures State() == old(After(CoresChange(value)))
    {
      hide Dividers, Quotient;
      var divs := ComputeDividers(Quotient(max, value));
      var newSockets := sockets;
      if newSockets !in divs {
        newSockets := divs[|divs| - 1];
      }
      threads := Quotient(max, newSockets * value);
      sockets := newSockets;
      cores := value;
    }
  }
}
