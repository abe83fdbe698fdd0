/**
 * The boot order dialog: opening it, choosing and moving devices, saving, and opening it again.
 */
module BootOrderDialog {
  import opened Options
  import opened Sequences
  import opened XmlTree
  import opened BootOrderList
  import opened BootDevices
  import opened BootOrderUpdate
  import opened BootOrderRoundTrip

  datatype Row = Row(entry: BootEntry, checked: bool)

  /** getUIBootOrderDevices: devices with a boot order start out checked. */
  function Open(list: seq<BootEntry>): seq<Row> {
    Map(list, (e: BootEntry) => Row(e, e.order.Some?))
  }

  datatype Action = Toggle(at: nat) | MoveUp(at: nat) | MoveDown(at: nat)

  /** The check box is always there; the arrows are disabled at the ends, the upward one also
      on unchecked rows and the downward one above unchecked rows. */
  predicate Enabled(rows: seq<Row>, a: Action) {
    match a
    case Toggle(i) => i < |rows|
    case MoveUp(i) => 0 < i < |rows| && rows[i].checked
    case MoveDown(i) => i + 1 < |rows| && rows[i + 1].checked
  }

  function Swapped(rows: seq<Row>, i: nat, j: nat): seq<Row>
    requires i < |rows| && j < |rows|
  {
    rows[i := rows[j]][j := rows[i]]
  }

  function Apply(rows: seq<Row>, a: Action): seq<Row>
    requires Enabled(rows, a)
  {
    match a
    case Toggle(i) => rows[i := rows[i].(checked := !rows[i].checked)]
    case MoveUp(i) => Swapped(rows, i, i - 1)
    case MoveDown(i) => Swapped(rows, i, i + 1)
  }

  predicate AllEnabled(rows: seq<Row>, actions: seq<Action>)
    decreases |actions|
  {
    actions == [] || (Enabled(rows, actions[0]) && AllEnabled(Apply(rows, actions[0]), actions[1..]))
  }

  function Run(rows: seq<Row>, actions: seq<Action>): seq<Row>
    requires AllEnabled(rows, actions)
    decreases |actions|
  {
    if actions == [] then rows else Run(Apply(rows, actions[0]), actions[1..])
  }

  /** The devices that are saved, in the order of the rows. */
  function Chosen(rows: seq<Row>): seq<Device> {
    if rows == [] then []
    else (if rows[0].checked then [rows[0].entry.device] else []) + Chosen(rows[1..])
  }

  class Dialog {
    var rows: seq<Row>

    constructor (list: seq<BootEntry>)
      ensures rows == Open(list)
    {
      rows := Open(list);
    }

    method OnToggleDevice(at: nat)
      requires Enabled(rows, Toggle(at))
      modifies this
      ensures rows == Apply(old(rows), Toggle(at))
    {
      rows := rows[at := rows[at].(checked := !rows[at].checked)];
    }

    method OnMoveUp(at: nat)
      requires Enabled(rows, MoveUp(at))
      modifies this
      ensures rows == Apply(old(rows), MoveUp(at))
    {
      Exchange(at, at - 1);
    }

    method OnMoveDown(at: nat)
      requires Enabled(rows, MoveDown(at))
      modifies this
      ensures rows == Apply(old(rows), MoveDown(at))
    {
      Exchange(at, at + 1);
    }

    method Exchange(index: nat, other: nat)
      requires index < |rows| && other < |rows|
      modifies this
      ensures rows == Swapped(old(rows), index, other)
    {
      var devices := rows;
      var tmp := devices[other];
      devices := devices[other := devices[index]];
      devices := devices[index := tmp];
      rows := devices;
    }

    method Save() returns (chosen: seq<Device>)
      ensures chosen == Chosen(rows)
    {
      hide Chosen;
      chosen := [];
      var i := 0;
      assert rows[0..] == rows;
      while i < |rows|
        invariant 0 <= i <= |rows|
        invariant chosen + Chosen(rows[i..]) == Chosen(rows)
      {
        ChosenStep(rows, i);
        if rows[i].checked {
          chosen := chosen + [rows[i].entry.device];
        }
        i := i + 1;
      }
      ChosenNone(rows);
    }
  }

  lemma ChosenStep(rows: seq<Row>, i: nat)
    requires i < |rows|
    ensures Chosen(rows[i..]) == (if rows[i].checked then [rows[i].entry.device] else []) + Chosen(rows[i + 1..])
  {
    assert rows[i..][1..] == rows[i + 1..];
  }

  lemma ChosenNone(rows: seq<Row>)
    ensures Chosen(rows[|rows|..]) == []
  {
  }

  // ----- What the actions keep -----

  function RowDevices(rows: seq<Row>): seq<Device> {
    Map(rows, (r: Row) => r.entry.device)
  }

  /** Actions never lose, add or double a device. */
  lemma ApplyPermutes(rows: seq<Row>, a: Action)
    requires Enabled(rows, a)
    ensures multiset(RowDevices(Apply(rows, a))) == multiset(RowDevices(rows))
  {
    hide RowDevices;
    match a {
      case Toggle(i) => ToggleDevices(rows, i);
      case MoveUp(i) => SwappedDevices(rows, i, i - 1);
      case MoveDown(i) => SwappedDevices(rows, i, i + 1);
    }
  }

  lemma ToggleDevices(rows: seq<Row>, i: nat)
    requires i < |rows|
    ensures RowDevices(rows[i := rows[i].(checked := !rows[i].checked)]) == RowDevices(rows)
  {
  }

  lemma SwappedDevices(rows: seq<Row>, i: nat, j: nat)
    requires i < |rows| && j < |rows|
    ensures multiset(RowDevices(Swapped(rows, i, j))) == multiset(RowDevices(rows))
  {
    var s := RowDevices(rows);
    assert RowDevices(Swapped(rows, i, j)) == s[i := s[j]][j := s[i]];
    SwapPermutes(s, i, j);
  }

  lemma SwapPermutes<T>(s: seq<T>, i: nat, j: nat)
    requires i < |s| && j < |s|
    ensures multiset(s[i := s[j]][j := s[i]]) == multiset(s)
  {
  }

  lemma {:induction false} RunPermutes(rows: seq<Row>, actions: seq<Action>)
    requires AllEnabled(rows, actions)
    ensures multiset(RowDevices(Run(rows, actions))) == multiset(RowDevices(rows))
    decreases |actions|
  {
    hide RowDevices;
    if actions != [] {
      ApplyPermutes(rows, actions[0]);
      RunPermutes(Apply(rows, actions[0]), actions[1..]);
    }
  }

  lemma {:induction false} ChosenDistinct(rows: seq<Row>)
    requires NoDuplicates(RowDevices(rows))
    ensures NoDuplicates(Chosen(rows))
    ensures forall d :: d in Chosen(rows) ==> d in RowDevices(rows)
  {
    if rows != [] {
      var devices := RowDevices(rows);
      assert devices[1..] == RowDevices(rows[1..]);
      ChosenDistinct(rows[1..]);
      assert devices == [devices[0]] + devices[1..];
      assert devices[0] !in devices[1..];
    }
  }

  // ----- What the actions can do -----

  /** A check mark is flipped, and nothing else; flipping it again restores the rows. */
  lemma ToggleFlips(rows: seq<Row>, i: nat, j: nat)
    requires i < |rows| && j < |rows|
    ensures var r := Apply(rows, Toggle(i));
            |r| == |rows| && r[j].entry == rows[j].entry && r[j].checked == (if i == j then !rows[j].checked else rows[j].checked)
    ensures Apply(Apply(rows, Toggle(i)), Toggle(i)) == rows
  {
  }

  /** A row and the one above are exchanged, and no other row moves. */
  lemma MoveUpExchanges(rows: seq<Row>, i: nat, j: nat)
    requires 0 < i < |rows| && rows[i].checked && j < |rows|
    ensures Enabled(rows, MoveUp(i))
    ensures var r := Apply(rows, MoveUp(i));
            |r| == |rows| && r[j] == if j == i then rows[i - 1] else if j == i - 1 then rows[i] else rows[j]
  {
  }

  /** Moving a row down is moving the next one up. */
  lemma MoveDownIsMoveUp(rows: seq<Row>, i: nat)
    requires Enabled(rows, MoveDown(i))
    ensures Enabled(rows, MoveUp(i + 1)) && Apply(rows, MoveDown(i)) == Apply(rows, MoveUp(i + 1))
  {
  }

  lemma RunNone(rows: seq<Row>)
    ensures AllEnabled(rows, []) && Run(rows, []) == rows
  {
  }

  lemma RunCons(rows: seq<Row>, a: Action, actions: seq<Action>)
    requires Enabled(rows, a) && AllEnabled(Apply(rows, a), actions)
    ensures AllEnabled(rows, [a] + actions) && Run(rows, [a] + actions) == Run(Apply(rows, a), actions)
  {
    assert ([a] + actions)[1..] == actions;
  }

  lemma {:induction false} RunConcat(rows: seq<Row>, first: seq<Action>, rest: seq<Action>)
    requires AllEnabled(rows, first) && AllEnabled(Run(rows, first), rest)
    ensures AllEnabled(rows, first + rest) && Run(rows, first + rest) == Run(Run(rows, first), rest)
    decreases |first|
  {
    hide Enabled, Apply;
    if first == [] {
      assert first + rest == rest;
    } else {
      RunConcat(Apply(rows, first[0]), first[1..], rest);
      RunCons(rows, first[0], first[1..] + rest);
      assert first + rest == [first[0]] + (first[1..] + rest);
    }
  }

  /** Two lists of rows show the same devices with the same check marks, up to a place. */
  predicate LookAlike(a: seq<Row>, b: seq<Row>, upTo: nat) {
    && |a| == |b| && upTo <= |a|
    && forall i :: 0 <= i < upTo ==> a[i].entry.device == b[i].entry.device && a[i].checked == b[i].checked
  }

  /** Sets a check mark as wanted. */
  lemma Checking(rows: seq<Row>, i: nat, wanted: bool) returns (actions: seq<Action>)
    requires i < |rows|
    ensures AllEnabled(rows, actions) && Run(rows, actions) == rows[i := rows[i].(checked := wanted)]
  {
    RunNone(rows);
    if rows[i].checked == wanted {
      actions := [];
      assert rows[i := rows[i].(checked := wanted)] == rows;
    } else {
      actions := [Toggle(i)];
      RunNone(Apply(rows, Toggle(i)));
      RunCons(rows, Toggle(i), []);
      assert [Toggle(i)] + [] == [Toggle(i)];
    }
  }

  /** Brings the device at place i up to place k; rows above stay as they are. */
  lemma {:induction false} Raising(rows: seq<Row>, i: nat, k: nat) returns (actions: seq<Action>)
    requires k <= i < |rows|
    ensures AllEnabled(rows, actions)
    ensures var r := Run(rows, actions);
            |r| == |rows| && r[..k] == rows[..k] && r[k].entry.device == rows[i].entry.device
    decreases i
  {
    hide Run, AllEnabled;
    if i == k {
      actions := [];
      RunNone(rows);
    } else {
      var mark := Checking(rows, i, true);
      var marked := rows[i := rows[i].(checked := true)];
      MoveUpExchanges(marked, i, i - 1);
      var moved := Apply(marked, MoveUp(i));
      var rest := Raising(moved, i - 1, k);
      RunCons(marked, MoveUp(i), rest);
      RunConcat(rows, mark, [MoveUp(i)] + rest);
      actions := mark + ([MoveUp(i)] + rest);
      assert moved[..k] == rows[..k];
    }
  }

  /** A device of the target is still to be found at or below its place. */
  lemma StillBelow(rows: seq<Row>, target: seq<Row>, k: nat) returns (i: nat)
    requires multiset(RowDevices(rows)) == multiset(RowDevices(target)) && LookAlike(rows, target, k) && k < |rows|
    ensures k <= i < |rows| && rows[i].entry.device == target[k].entry.device
  {
    var a, b := RowDevices(rows), RowDevices(target);
    assert a[..k] == b[..k];
    assert a == a[..k] + a[k..] && b == b[..k] + b[k..];
    assert multiset(a[..k] + a[k..]) == multiset(a[..k]) + multiset(a[k..]);
    assert multiset(b[..k] + b[k..]) == multiset(b[..k]) + multiset(b[k..]);
    SameRest(multiset(a[..k]), multiset(a[k..]), multiset(b[k..]));
    assert b[k..][0] == b[k] && b[k] in multiset(b[k..]);
    assert b[k] in a[k..];
    var j :| 0 <= j < |a[k..]| && a[k..][j] == b[k];
    i := k + j;
  }

  lemma SameRest<T(!new)>(front: multiset<T>, a: multiset<T>, b: multiset<T>)
    requires front + a == front + b
    ensures a == b
  {
    assert forall x :: (front + a)[x] == front[x] + a[x] && (front + b)[x] == front[x] + b[x];
  }

  lemma {:induction false} Arranging(rows: seq<Row>, target: seq<Row>, k: nat) returns (actions: seq<Action>)
    requires multiset(RowDevices(rows)) == multiset(RowDevices(target)) && LookAlike(rows, target, k)
    ensures AllEnabled(rows, actions) && LookAlike(Run(rows, actions), target, |target|)
    decreases |rows| - k
  {
    hide Run, AllEnabled, RowDevices;
    if k == |rows| {
      actions := [];
      RunNone(rows);
    } else {
      var i := StillBelow(rows, target, k);
      var raise := Raising(rows, i, k);
      var raised := Run(rows, raise);
      RunPermutes(rows, raise);
      var mark := Checking(raised, k, target[k].checked);
      var marked := Run(raised, mark);
      RunPermutes(raised, mark);
      AlikeOneMore(rows, raised, marked, target, k);
      var rest := Arranging(marked, target, k + 1);
      RunConcat(raised, mark, rest);
      RunConcat(rows, raise, mark + rest);
      actions := raise + (mark + rest);
    }
  }

  lemma AlikeOneMore(rows: seq<Row>, raised: seq<Row>, marked: seq<Row>, target: seq<Row>, k: nat)
    requires LookAlike(rows, target, k) && k < |rows| && |raised| == |rows| && raised[..k] == rows[..k]
    requires raised[k].entry.device == target[k].entry.device
    requires marked == raised[k := raised[k].(checked := target[k].checked)]
    ensures LookAlike(marked, target, k + 1)
  {
    forall i | 0 <= i < k ensures marked[i] == rows[i] {
      assert raised[..k][i] == rows[..k][i];
    }
  }

  ghost predicate Reaches(rows: seq<Row>, actions: seq<Action>, target: seq<Row>) {
    AllEnabled(rows, actions) && LookAlike(Run(rows, actions), target, |target|)
  }

  /** Enabled actions reach an arrangement exactly if it has the same devices: every order of the
      rows, with any of them checked. */
  lemma EveryArrangement(rows: seq<Row>, target: seq<Row>)
    ensures (exists actions :: Reaches(rows, actions, target)) <==> multiset(RowDevices(rows)) == multiset(RowDevices(target))
  {
    hide Run, AllEnabled;
    if multiset(RowDevices(rows)) == multiset(RowDevices(target)) {
      PermutedMembers(RowDevices(rows), RowDevices(target));
      var actions := Arranging(rows, target, 0);
      assert Reaches(rows, actions, target);
    }
    forall actions | Reaches(rows, actions, target) ensures multiset(RowDevices(rows)) == multiset(RowDevices(target)) {
      RunPermutes(rows, actions);
      assert RowDevices(Run(rows, actions)) == RowDevices(target);
    }
  }

  ghost predicate Saves(rows: seq<Row>, actions: seq<Action>, chosen: seq<Device>) {
    AllEnabled(rows, actions) && Chosen(Run(rows, actions)) == chosen
  }

  /** So every choice of devices, in every order, can be made and saved, and no other. */
  lemma EveryChoice(rows: seq<Row>, chosen: seq<Device>)
    requires NoDuplicates(RowDevices(rows))
    ensures (exists actions :: Saves(rows, actions, chosen))
       <==> NoDuplicates(chosen) && forall d :: d in chosen ==> d in RowDevices(rows)
  {
    hide Run, AllEnabled, Chosen, NoDuplicates, Shown, RowDevices;
    var devices := RowDevices(rows);
    if NoDuplicates(chosen) && forall d :: d in chosen ==> d in devices {
      var target := Open(Shown(devices, chosen));
      ShownPermutes(devices, chosen);
      EveryArrangement(rows, target);
      var actions :| Reaches(rows, actions, target);
      ShownRows(devices, chosen);
      ChosenAlike(Run(rows, actions), target);
      assert Saves(rows, actions, chosen);
    }
    forall actions | Saves(rows, actions, chosen) ensures NoDuplicates(chosen) && forall d :: d in chosen ==> d in devices {
      var left := RowDevices(Run(rows, actions));
      RunPermutes(rows, actions);
      NoDuplicatesPermuted(devices, left);
      PermutedMembers(devices, left);
      ChosenDistinct(Run(rows, actions));
    }
  }

  lemma {:induction false} ChosenAlike(a: seq<Row>, b: seq<Row>)
    requires LookAlike(a, b, |b|)
    ensures Chosen(a) == Chosen(b)
  {
    if a != [] {
      ChosenAlike(a[1..], b[1..]);
    }
  }

  lemma ShownPermutes(devices: seq<Device>, chosen: seq<Device>)
    requires NoDuplicates(devices) && NoDuplicates(chosen) && forall d :: d in chosen ==> d in devices
    ensures multiset(RowDevices(Open(Shown(devices, chosen)))) == multiset(devices)
  {
    var others := Others(devices, chosen);
    assert RowDevices(Open(Shown(devices, chosen))) == chosen + others;
    FilterKeepsDistinct(devices, d => d !in chosen);
    forall d ensures d in others <==> d in devices && d !in chosen {
      FilterMember(devices, d => d !in chosen, d);
    }
    hide NoDuplicates, Others;
    NoDuplicatesCounts(devices);
    NoDuplicatesCounts(chosen);
    NoDuplicatesCounts(others);
    forall d ensures multiset(chosen + others)[d] == multiset(devices)[d] {
      assert multiset(chosen + others)[d] == multiset(chosen)[d] + multiset(others)[d];
      assert (d in chosen <==> d in multiset(chosen)) && (d in others <==> d in multiset(others)) && (d in devices <==> d in multiset(devices));
    }
  }

  lemma {:induction false} FilterKeepsDistinct(s: seq<Device>, p: Device -> bool)
    requires NoDuplicates(s)
    ensures NoDuplicates(Filter(s, p))
  {
    if s != [] {
      FilterKeepsDistinct(s[1..], p);
      FilterMember(s[1..], p, s[0]);
      assert s[0] !in s[1..];
    }
  }

  // ----- From opening to opening again -----

  lemma OpenDevices(list: seq<BootEntry>)
    ensures RowDevices(Open(list)) == DevicesOf(list)
  {
  }

  /** The dialog lists every device of a well-formed machine once, legacy boot list or not. */
  lemma OpenedDevices(os: seq<Node>, nodes: seq<Node>)
    requires WellFormed(nodes)
    ensures multiset(RowDevices(Open(SortedBootList(ParseMachine(os, nodes)))))
         == multiset(DescribedDevices(DeviceElements(nodes)))
  {
    hide Open, SortedBootList, DescribedDevices, RowDevices, DeviceElements, WellFormed, ParseMachine;
    var m := ParseMachine(os, nodes);
    OpenDevices(SortedBootList(m));
    SortedBootListConserves(m);
    ParsedDevices(os, nodes);
  }

  lemma ParsedDevices(os: seq<Node>, nodes: seq<Node>)
    requires WellFormed(nodes)
    ensures ParseMachine(os, nodes).Devices() == DescribedDevices(DeviceElements(nodes))
  {
    hide DevicesOf, Describing, Entries, PutDisks, DescribedDevices, OsBootTypes, IsDevice, PlainDevices,
         Distinguishable;
    DisksOfWellFormed(nodes);
    var d, i := Describing(nodes, "disk"), Describing(nodes, "interface");
    var r, h := Describing(nodes, "redirdev"), Describing(nodes, "hostdev");
    DevicesOfEntries(d);
    DevicesOfEntries(i);
    DevicesOfEntries(r);
    DevicesOfEntries(h);
    DescribedConcat(d, i);
    DescribedConcat(d + i, r);
    DescribedConcat(d + i + r, h);
  }

  lemma DescribedConcat(a: seq<DeviceElement>, b: seq<DeviceElement>)
    ensures DescribedDevices(a + b) == DescribedDevices(a) + DescribedDevices(b)
  {
    hide DeviceAt, IsDevice;
    var r, s := DescribedDevices(a + b), DescribedDevices(a) + DescribedDevices(b);
    assert |r| == |s|;
    forall i | 0 <= i < |r| ensures r[i] == s[i] {
      assert (a + b)[i] == if i < |a| then a[i] else b[i - |a|];
    }
  }

  lemma DevicesOfEntries(elems: seq<DeviceElement>)
    ensures DevicesOf(Entries(elems)) == DescribedDevices(elems)
  {
    hide DeviceAt;
  }

  lemma DisksOfWellFormed(nodes: seq<Node>)
    requires WellFormed(nodes)
    ensures PutDisks([], Entries(Describing(nodes, "disk"))) == Entries(Describing(nodes, "disk"))
  {
    hide Describing, PutDisks, Entries, DeviceAt, SameTarget, TakenFor, PlainDevices, NoDuplicates;
    var disks, elems := Describing(nodes, "disk"), DeviceElements(nodes);
    forall i, j | 0 <= i < j < |disks| ensures !SameTarget(DeviceAt(disks[i]), DeviceAt(disks[j])) {
      assert elems[i] == disks[i] && elems[j] == disks[j];
    }
    DisksKept(disks);
  }

  /** Whatever is done in the dialog, what is saved is a choice among the machine's devices. */
  lemma SavedIsChoice(os: seq<Node>, nodes: seq<Node>, actions: seq<Action>)
    requires WellFormed(nodes) && AllEnabled(Open(SortedBootList(ParseMachine(os, nodes))), actions)
    ensures ChoiceOf(DeviceElements(nodes), Chosen(Run(Open(SortedBootList(ParseMachine(os, nodes))), actions)))
  {
    hide Open, SortedBootList, ParseMachine, DeviceElements, DescribedDevices, RowDevices, Run, Chosen,
         NoDuplicates, Distinguishable, PlainDevices;
    var rows := Open(SortedBootList(ParseMachine(os, nodes)));
    var devices, left := DescribedDevices(DeviceElements(nodes)), RowDevices(Run(rows, actions));
    OpenedDevices(os, nodes);
    RunPermutes(rows, actions);
    NothingTwice(DeviceElements(nodes));
    NoDuplicatesPermuted(devices, left);
    ChosenDistinct(Run(rows, actions));
    PermutedMembers(devices, left);
  }

  /** What the dialog opens with; a definition may have no <os>. */
  function OpenedRows(os: Option<seq<Node>>, nodes: seq<Node>): seq<Row> {
    Open(SortedBootList(ParseMachine(os.GetOr([]), nodes)))
  }

  /** Save and open again: saving succeeds, and the checked devices come first, in the order they
      were left in and still checked, then all others unchecked, exactly if there is an <os>, all
      that the update dereferences is there, the checked devices are recognised and no host device
      was left first. */
  lemma {:induction false} SaveAndReopen(os: Option<seq<Node>>, nodes: seq<Node>, actions: seq<Action>)
    requires WellFormed(nodes) && AllEnabled(OpenedRows(os, nodes), actions)
    ensures var elems := DeviceElements(nodes);
            var chosen := Chosen(Run(OpenedRows(os, nodes), actions));
            var saved := Saved(os, nodes, chosen);
            saved.Some? && Open(SortedBootList(saved.value)) == Open(Shown(DescribedDevices(elems), chosen))
            <==> os.Some? && AllLocatable(nodes) && AllRecognised(elems, chosen) && !StartsWithHostDevice(chosen)
  {
    hide Open, SortedBootList, ParseMachine, DeviceElements, DescribedDevices, Run, Chosen, WellFormed,
         Saved, Shown, AllRecognised, AllLocatable;
    var chosen := Chosen(Run(OpenedRows(os, nodes), actions));
    var saved := Saved(os, nodes, chosen);
    SavedIsChoice(os.GetOr([]), nodes, actions);
    RoundTrip(os, nodes, chosen);
    if saved.Some? {
      OpenInjective(SortedBootList(saved.value), Shown(DescribedDevices(DeviceElements(nodes)), chosen));
    }
  }

  lemma OpenInjective(a: seq<BootEntry>, b: seq<BootEntry>)
    ensures Open(a) == Open(b) <==> a == b
  {
    if Open(a) == Open(b) {
      forall i | 0 <= i < |a| ensures a[i] == b[i] {
        assert Open(a)[i] == Open(b)[i];
      }
    }
  }

  /** Where it holds, the checked rows are exactly the chosen devices, at the top. */
  lemma ShownRows(devices: seq<Device>, chosen: seq<Device>)
    ensures var rows := Open(Shown(devices, chosen));
            |rows| >= |chosen| && Chosen(rows) == chosen
            && forall i :: 0 <= i < |rows| ==> rows[i].checked == (i < |chosen|)
  {
    hide Chosen, Others;
    var rows := Open(Shown(devices, chosen));
    ChosenPrefix(rows, chosen, 0);
    assert rows[0..] == rows && chosen[0..] == chosen;
  }

  lemma {:induction false} ChosenPrefix(rows: seq<Row>, chosen: seq<Device>, i: nat)
    requires i <= |rows| && |chosen| <= |rows|
    requires forall j :: 0 <= j < |rows| ==> rows[j].checked == (j < |chosen|)
    requires forall j :: 0 <= j < |chosen| ==> rows[j].entry.device == chosen[j]
    ensures Chosen(rows[i..]) == if i < |chosen| then chosen[i..] else []
    decreases |rows| - i
  {
    hide Chosen;
    if i == |rows| {
      ChosenNone(rows);
    } else {
      ChosenStep(rows, i);
      ChosenPrefix(rows, chosen, i + 1);
      if i < |chosen| {
        assert chosen[i..] == [chosen[i]] + chosen[i + 1..];
      }
    }
  }
}
