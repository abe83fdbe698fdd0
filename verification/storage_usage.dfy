/**
 * Which virtual machines use which volumes of a storage pool, and what is decided by it:
 * whether a pool can be deleted, and which volumes are offered for a new disk.
 */
module StorageUsage {
  import opened Options
  import opened Sequences

  datatype Disk = Disk(kind: OptString, pool: OptString, volume: OptString, file: OptString, dev: OptString)

  datatype Vm = Vm(name: string, connectionName: string, disks: seq<Disk>)

  datatype Volume = Volume(name: string, path: OptString)

  datatype Pool = Pool(name: string, connectionName: string, volumes: seq<Volume>)

  // ----- What it means to use a volume -----

  predicate ByName(d: Disk, vol: Volume, pool: Pool) {
    d.kind == Some("volume") && d.volume == Some(vol.name) && d.pool == Some(pool.name)
  }

  predicate ByPath(d: Disk, vol: Volume) {
    (d.kind == Some("file") && d.file == vol.path) || (d.kind == Some("block") && d.dev == vol.path)
  }

  predicate DiskUses(d: Disk, vol: Volume, pool: Pool) {
    ByName(d, vol, pool) || ByPath(d, vol)
  }

  ghost predicate VmUses(vm: Vm, vol: Volume, pool: Pool) {
    exists d :: d in vm.disks && DiskUses(d, vol, pool)
  }

  /** A machine of that name on the pool's connection uses the volume. */
  ghost predicate IsUser(vms: seq<Vm>, pool: Pool, vol: Volume, name: string) {
    exists vm :: vm in vms && vm.name == name && vm.connectionName == pool.connectionName && VmUses(vm, vol, pool)
  }

  // ----- Disks by machine -----

  datatype DiskMap =
    | VolumeDisk(pool: OptString, volume: OptString)
    | FileDisk(source: OptString)
    | BlockDisk(source: OptString)

  function DiskMapOf(d: Disk): seq<DiskMap> {
    if d.kind == Some("volume") then [VolumeDisk(d.pool, d.volume)]
    else if d.kind == Some("file") then [FileDisk(d.file)]
    else if d.kind == Some("block") then [BlockDisk(d.dev)]
    else []
  }

  predicate MapUses(m: DiskMap, vol: Volume, pool: Pool) {
    match m
    case VolumeDisk(p, v) => v == Some(vol.name) && p == Some(pool.name)
    case FileDisk(source) => source == vol.path
    case BlockDisk(source) => source == vol.path
  }

  function DiskMapsOf(disks: seq<Disk>): seq<DiskMap> {
    if disks == [] then [] else DiskMapsOf(disks[..|disks| - 1]) + DiskMapOf(disks[|disks| - 1])
  }

  /** A dictionary in insertion order. */
  datatype Named = Named(name: string, disks: seq<DiskMap>)

  /** `m[name]` with more disks, the name added at the end if it is new. */
  function AddDisks(m: seq<Named>, name: string, disks: seq<DiskMap>): seq<Named> {
    match FindIndex(m, (e: Named) => e.name == name)
    case Some(i) => m[i := Named(name, m[i].disks + disks)]
    case None => m + [Named(name, disks)]
  }

  function VmDisksMap(vms: seq<Vm>, connectionName: string): seq<Named> {
    if vms == [] then []
    else
      var m, vm := VmDisksMap(vms[..|vms| - 1], connectionName), vms[|vms| - 1];
      if vm.connectionName != connectionName then m else AddDisks(m, vm.name, DiskMapsOf(vm.disks))
  }

  /** getVmDisksMap */
  method GetVmDisksMap(vms: seq<Vm>, connectionName: string) returns (m: seq<Named>)
    ensures m == VmDisksMap(vms, connectionName)
  {
    hide AddDisks, DiskMapsOf;
    m := [];
    var i := 0;
    while i < |vms|
      invariant 0 <= i <= |vms| && m == VmDisksMap(vms[..i], connectionName)
    {
      assert vms[..i + 1][..i] == vms[..i];
      var vm := vms[i];
      if vm.connectionName == connectionName {
        var disks := CollectDisks(vm.disks);
        m := AddDisks(m, vm.name, disks);
      }
      i := i + 1;
    }
    assert vms[..i] == vms;
  }

  method CollectDisks(disks: seq<Disk>) returns (r: seq<DiskMap>)
    ensures r == DiskMapsOf(disks)
  {
    r := [];
    var j := 0;
    while j < |disks|
      invariant 0 <= j <= |disks| && r == DiskMapsOf(disks[..j])
    {
      assert disks[..j + 1][..j] == disks[..j];
      var d := disks[j];
      if d.kind == Some("volume") {
        r := r + [VolumeDisk(d.pool, d.volume)];
      } else if d.kind == Some("file") {
        r := r + [FileDisk(d.file)];
      } else if d.kind == Some("block") {
        r := r + [BlockDisk(d.dev)];
      }
      j := j + 1;
    }
    assert disks[..j] == disks;
  }

  /** A name has a disk that uses the volume. */
  ghost predicate Listed(m: seq<Named>, name: string, vol: Volume, pool: Pool) {
    exists i :: 0 <= i < |m| && m[i].name == name && AnyUses(m[i].disks, vol, pool)
  }

  ghost predicate AnyUses(disks: seq<DiskMap>, vol: Volume, pool: Pool) {
    exists d :: d in disks && MapUses(d, vol, pool)
  }

  lemma AnyUsesConcat(a: seq<DiskMap>, b: seq<DiskMap>, vol: Volume, pool: Pool)
    ensures AnyUses(a + b, vol, pool) <==> AnyUses(a, vol, pool) || AnyUses(b, vol, pool)
  {
  }

  lemma DiskMapUses(d: Disk, vol: Volume, pool: Pool)
    ensures AnyUses(DiskMapOf(d), vol, pool) <==> DiskUses(d, vol, pool)
  {
    if d.kind == Some("volume") {
      assert VolumeDisk(d.pool, d.volume) in DiskMapOf(d);
    } else if d.kind == Some("file") {
      assert FileDisk(d.file) in DiskMapOf(d);
    } else if d.kind == Some("block") {
      assert BlockDisk(d.dev) in DiskMapOf(d);
    }
  }

  ghost predicate AnyDiskUses(disks: seq<Disk>, vol: Volume, pool: Pool) {
    exists d :: d in disks && DiskUses(d, vol, pool)
  }

  lemma AnyDiskUsesLast(disks: seq<Disk>, vol: Volume, pool: Pool)
    requires disks != []
    ensures AnyDiskUses(disks, vol, pool)
       <==> AnyDiskUses(disks[..|disks| - 1], vol, pool) || DiskUses(disks[|disks| - 1], vol, pool)
  {
    hide DiskUses;
    assert disks == disks[..|disks| - 1] + [disks[|disks| - 1]];
  }

  lemma {:induction false} DiskMapsUse(disks: seq<Disk>, vol: Volume, pool: Pool)
    ensures AnyUses(DiskMapsOf(disks), vol, pool) <==> AnyDiskUses(disks, vol, pool)
  {
    hide DiskMapOf, DiskUses, MapUses;
    if disks != [] {
      var front, last := disks[..|disks| - 1], disks[|disks| - 1];
      DiskMapsUse(front, vol, pool);
      DiskMapUses(last, vol, pool);
      AnyUsesConcat(DiskMapsOf(front), DiskMapOf(last), vol, pool);
      AnyDiskUsesLast(disks, vol, pool);
    }
  }

  ghost predicate UniqueNames(m: seq<Named>) {
    forall i, j :: 0 <= i < j < |m| ==> m[i].name != m[j].name
  }

  lemma AddDisksLists(m: seq<Named>, name: string, disks: seq<DiskMap>, n: string, vol: Volume, pool: Pool)
    requires UniqueNames(m)
    ensures UniqueNames(AddDisks(m, name, disks))
    ensures Listed(AddDisks(m, name, disks), n, vol, pool) <==> Listed(m, n, vol, pool) || (n == name && AnyUses(disks, vol, pool))
  {
    hide AnyUses;
    var r := AddDisks(m, name, disks);
    var at := FindIndex(m, (e: Named) => e.name == name);
    match at {
      case Some(i) =>
        AnyUsesConcat(m[i].disks, disks, vol, pool);
        if Listed(m, n, vol, pool) {
          var j :| 0 <= j < |m| && m[j].name == n && AnyUses(m[j].disks, vol, pool);
          assert r[j].name == n && AnyUses(r[j].disks, vol, pool);
        }
        if n == name && AnyUses(disks, vol, pool) {
          assert r[i].name == n && AnyUses(r[i].disks, vol, pool);
        }
      case None =>
        if Listed(m, n, vol, pool) {
          var j :| 0 <= j < |m| && m[j].name == n && AnyUses(m[j].disks, vol, pool);
          assert r[j] == m[j];
        }
        if n == name && AnyUses(disks, vol, pool) {
          assert r[|m|].name == n && AnyUses(r[|m|].disks, vol, pool);
        }
    }
  }

  lemma IsUserLast(vms: seq<Vm>, pool: Pool, vol: Volume, name: string)
    requires vms != []
    ensures var last := vms[|vms| - 1];
            IsUser(vms, pool, vol, name)
            <==> IsUser(vms[..|vms| - 1], pool, vol, name)
                 || (last.name == name && last.connectionName == pool.connectionName && VmUses(last, vol, pool))
  {
    hide VmUses;
    assert vms == vms[..|vms| - 1] + [vms[|vms| - 1]];
  }

  /** The dictionary knows every user of every volume, and nobody else. */
  lemma {:induction false} VmDisksMapLists(vms: seq<Vm>, pool: Pool, vol: Volume, name: string)
    ensures UniqueNames(VmDisksMap(vms, pool.connectionName))
    ensures Listed(VmDisksMap(vms, pool.connectionName), name, vol, pool) <==> IsUser(vms, pool, vol, name)
  {
    hide AddDisks, IsUser, Listed, UniqueNames, AnyUses;
    if vms == [] {
      NobodyListed(pool, vol, name);
    } else {
      var front, last := vms[..|vms| - 1], vms[|vms| - 1];
      VmDisksMapLists(front, pool, vol, name);
      IsUserLast(vms, pool, vol, name);
      DiskMapsUse(last.disks, vol, pool);
      AddDisksLists(VmDisksMap(front, pool.connectionName), last.name, DiskMapsOf(last.disks), name, vol, pool);
    }
  }

  lemma NobodyListed(pool: Pool, vol: Volume, name: string)
    ensures UniqueNames([]) && !Listed([], name, vol, pool) && !IsUser([], pool, vol, name)
  {
  }

  // ----- Users by volume -----

  /** The names pushed for one volume, once for each disk that uses it. */
  function UsersOf(m: seq<Named>, vol: Volume, pool: Pool): seq<string> {
    if m == [] then []
    else UsersOf(m[..|m| - 1], vol, pool) + Repeated(m[|m| - 1].name, m[|m| - 1].disks, vol, pool)
  }

  function Repeated(name: string, disks: seq<DiskMap>, vol: Volume, pool: Pool): seq<string> {
    if disks == [] then []
    else Repeated(name, disks[..|disks| - 1], vol, pool) + if MapUses(disks[|disks| - 1], vol, pool) then [name] else []
  }

  function Usage(m: seq<Named>, volumes: seq<Volume>, pool: Pool): map<string, seq<string>> {
    if volumes == [] then map[]
    else
      var last := volumes[|volumes| - 1];
      Usage(m, volumes[..|volumes| - 1], pool)[last.name := UsersOf(m, last, pool)]
  }

  /** getStorageVolumesUsage */
  method GetStorageVolumesUsage(vms: seq<Vm>, pool: Pool) returns (isVolumeUsed: map<string, seq<string>>)
    ensures isVolumeUsed == Usage(VmDisksMap(vms, pool.connectionName), pool.volumes, pool)
  {
    hide UsersOf;
    var m := GetVmDisksMap(vms, pool.connectionName);
    isVolumeUsed := map[];
    var i := 0;
    while i < |pool.volumes|
      invariant 0 <= i <= |pool.volumes| && isVolumeUsed == Usage(m, pool.volumes[..i], pool)
    {
      assert pool.volumes[..i + 1][..i] == pool.volumes[..i];
      var vol := pool.volumes[i];
      var users := CollectUsers(m, vol, pool);
      isVolumeUsed := isVolumeUsed[vol.name := users];
      i := i + 1;
    }
    assert pool.volumes[..i] == pool.volumes;
  }

  method CollectUsers(m: seq<Named>, vol: Volume, pool: Pool) returns (users: seq<string>)
    ensures users == UsersOf(m, vol, pool)
  {
    hide Repeated, MapUses;
    users := [];
    var i := 0;
    while i < |m|
      invariant 0 <= i <= |m| && users == UsersOf(m[..i], vol, pool)
    {
      assert m[..i + 1][..i] == m[..i];
      var j := 0;
      ghost var before := users;
      RepeatedNone(m[i].name, vol, pool);
      while j < |m[i].disks|
        invariant 0 <= j <= |m[i].disks| && users == before + Repeated(m[i].name, m[i].disks[..j], vol, pool)
      {
        RepeatedStep(m[i].name, m[i].disks, j, vol, pool);
        if MapUses(m[i].disks[j], vol, pool) {
          users := users + [m[i].name];
        }
        j := j + 1;
      }
      assert m[i].disks[..j] == m[i].disks;
      i := i + 1;
    }
    assert m[..i] == m;
  }

  lemma RepeatedNone(name: string, vol: Volume, pool: Pool)
    ensures Repeated(name, [], vol, pool) == []
  {
  }

  lemma RepeatedStep(name: string, disks: seq<DiskMap>, j: nat, vol: Volume, pool: Pool)
    requires j < |disks|
    ensures disks[..0] == []
    ensures Repeated(name, disks[..j + 1], vol, pool)
         == Repeated(name, disks[..j], vol, pool) + if MapUses(disks[j], vol, pool) then [name] else []
  {
    assert disks[..j + 1][..j] == disks[..j];
  }

  lemma {:induction false} RepeatedMember(name: string, disks: seq<DiskMap>, vol: Volume, pool: Pool, n: string)
    ensures n in Repeated(name, disks, vol, pool) <==> n == name && AnyUses(disks, vol, pool)
  {
    if disks != [] {
      var front, last := disks[..|disks| - 1], disks[|disks| - 1];
      RepeatedMember(name, front, vol, pool, n);
      hide MapUses;
      assert disks == front + [last];
      AnyUsesConcat(front, [last], vol, pool);
      assert AnyUses([last], vol, pool) <==> MapUses(last, vol, pool) by {
        assert last in [last];
      }
    }
  }

  lemma {:induction false} UsersOfMember(m: seq<Named>, vol: Volume, pool: Pool, n: string)
    ensures n in UsersOf(m, vol, pool) <==> Listed(m, n, vol, pool)
  {
    hide AnyUses, Repeated;
    if m != [] {
      var front, last := m[..|m| - 1], m[|m| - 1];
      UsersOfMember(front, vol, pool, n);
      RepeatedMember(last.name, last.disks, vol, pool, n);
      ListedLast(m, n, vol, pool);
    }
  }

  lemma ListedLast(m: seq<Named>, n: string, vol: Volume, pool: Pool)
    requires m != []
    ensures Listed(m, n, vol, pool)
       <==> Listed(m[..|m| - 1], n, vol, pool) || (m[|m| - 1].name == n && AnyUses(m[|m| - 1].disks, vol, pool))
  {
    hide AnyUses;
    var front := m[..|m| - 1];
    if Listed(front, n, vol, pool) {
      var i :| 0 <= i < |front| && front[i].name == n && AnyUses(front[i].disks, vol, pool);
      assert m[i] == front[i];
    }
    if Listed(m, n, vol, pool) {
      var i :| 0 <= i < |m| && m[i].name == n && AnyUses(m[i].disks, vol, pool);
      assert i < |front| ==> front[i] == m[i];
    }
  }

  /** The last volume with a name is the one whose users are kept under it. */
  predicate LastNamed(volumes: seq<Volume>, i: nat) {
    i < |volumes| && forall j :: i < j < |volumes| ==> volumes[j].name != volumes[i].name
  }

  lemma {:induction false} UsageAt(m: seq<Named>, volumes: seq<Volume>, pool: Pool, i: nat)
    requires LastNamed(volumes, i)
    ensures volumes[i].name in Usage(m, volumes, pool)
    ensures Usage(m, volumes, pool)[volumes[i].name] == UsersOf(m, volumes[i], pool)
  {
    hide UsersOf;
    if i < |volumes| - 1 {
      var front := volumes[..|volumes| - 1];
      assert forall j :: 0 <= j < |front| ==> front[j] == volumes[j];
      UsageAt(m, front, pool, i);
    }
  }

  /** A machine's name is listed for a volume exactly if a machine of that name on the pool's
      connection has a disk with the volume, by pool and name or by path. */
  lemma UsageExact(vms: seq<Vm>, pool: Pool, i: nat, name: string)
    requires LastNamed(pool.volumes, i)
    ensures var usage := Usage(VmDisksMap(vms, pool.connectionName), pool.volumes, pool);
            && pool.volumes[i].name in usage
            && (name in usage[pool.volumes[i].name] <==> IsUser(vms, pool, pool.volumes[i], name))
  {
    hide Usage, UsersOf, VmDisksMap, IsUser, Listed;
    var m := VmDisksMap(vms, pool.connectionName);
    UsageAt(m, pool.volumes, pool, i);
    UsersOfMember(m, pool.volumes[i], pool, name);
    VmDisksMapLists(vms, pool, pool.volumes[i], name);
  }

  /** With distinct volume names this is so for every volume of the pool. */
  lemma DistinctNamesUsage(vms: seq<Vm>, pool: Pool, vol: Volume, name: string)
    requires forall j, k :: 0 <= j < k < |pool.volumes| ==> pool.volumes[j].name != pool.volumes[k].name
    requires vol in pool.volumes
    ensures var usage := Usage(VmDisksMap(vms, pool.connectionName), pool.volumes, pool);
            vol.name in usage && (name in usage[vol.name] <==> IsUser(vms, pool, vol, name))
  {
    hide Usage, VmDisksMap, IsUser;
    var i :| 0 <= i < |pool.volumes| && pool.volumes[i] == vol;
    UsageExact(vms, pool, i, name);
  }

  // ----- Deleting a pool -----

  predicate MentionsPool(vm: Vm, pool: Pool) {
    exists d :: d in vm.disks && d.pool == Some(pool.name)
  }

  method CanDelete(pool: Pool, vms: seq<Vm>) returns (r: bool)
    ensures r <==> forall vm :: vm in vms ==> !MentionsPool(vm, pool)
  {
    hide MentionsPool;
    var i := 0;
    while i < |vms|
      invariant 0 <= i <= |vms| && forall j :: 0 <= j < i ==> !MentionsPool(vms[j], pool)
    {
      var at := FindIndex(vms[i].disks, (d: Disk) => d.pool == Some(pool.name));
      MentionFound(vms[i], pool);
      if at.Some? {
        assert vms[i] in vms;
        return false;
      }
      i := i + 1;
    }
    return true;
  }

  lemma MentionFound(vm: Vm, pool: Pool)
    ensures MentionsPool(vm, pool) <==> FindIndex(vm.disks, (d: Disk) => d.pool == Some(pool.name)).Some?
  {
    var p := (d: Disk) => d.pool == Some(pool.name);
    var at := FindIndex(vm.disks, p);
    if at.Some? {
      assert p(vm.disks[at.value]) && vm.disks[at.value] in vm.disks;
    } else {
      assert forall i :: 0 <= i < |vm.disks| ==> !p(vm.disks[i]);
    }
  }

  ghost predicate Deletable(pool: Pool, vms: seq<Vm>) {
    forall vm :: vm in vms ==> !MentionsPool(vm, pool)
  }

  ghost predicate IsUserByPath(vms: seq<Vm>, pool: Pool, vol: Volume, name: string) {
    exists vm, d :: vm in vms && vm.name == name && vm.connectionName == pool.connectionName && d in vm.disks && ByPath(d, vol)
  }

  /** If a pool can be deleted, all listed uses of its volumes are by path. */
  lemma DeletableUsedByPath(pool: Pool, vms: seq<Vm>, i: nat, name: string)
    requires Deletable(pool, vms) && LastNamed(pool.volumes, i)
    ensures var usage := Usage(VmDisksMap(vms, pool.connectionName), pool.volumes, pool);
            && pool.volumes[i].name in usage
            && (name in usage[pool.volumes[i].name] <==> IsUserByPath(vms, pool, pool.volumes[i], name))
  {
    hide Usage, VmDisksMap, ByPath;
    UsageExact(vms, pool, i, name);
    var vol := pool.volumes[i];
    if IsUser(vms, pool, vol, name) {
      var vm :| vm in vms && vm.name == name && vm.connectionName == pool.connectionName && VmUses(vm, vol, pool);
      var d :| d in vm.disks && DiskUses(d, vol, pool);
      assert !MentionsPool(vm, pool);
      assert ByPath(d, vol);
    }
    if IsUserByPath(vms, pool, vol, name) {
      var vm, d :| vm in vms && vm.name == name && vm.connectionName == pool.connectionName && d in vm.disks && ByPath(d, vol);
      assert DiskUses(d, vol, pool) && VmUses(vm, vol, pool);
    }
  }

  /** The pool can go, but its volumes cannot: one of them is in use. */
  method CanDeleteOnlyWithoutVolumes(pool: Pool, vms: seq<Vm>) returns (r: bool)
    ensures r <==> Deletable(pool, vms)
                   && exists i: nat, name :: LastNamed(pool.volumes, i) && IsUser(vms, pool, pool.volumes[i], name)
  {
    hide Usage, VmDisksMap, IsUser, LastNamed;
    var can := CanDelete(pool, vms);
    if !can {
      return false;
    }
    var isVolumeUsed := GetStorageVolumesUsage(vms, pool);
    var i := 0;
    while i < |pool.volumes|
      invariant 0 <= i <= |pool.volumes|
      invariant forall j, name :: 0 <= j < i && LastNamed(pool.volumes, j) ==> !IsUser(vms, pool, pool.volumes[j], name)
    {
      UsageKeys(VmDisksMap(vms, pool.connectionName), pool.volumes, pool, i);
      var used := isVolumeUsed[pool.volumes[i].name];
      if |used| > 0 {
        var k := LastWithName(pool.volumes, i);
        UsageExact(vms, pool, k, used[0]);
        return true;
      }
      forall name | LastNamed(pool.volumes, i) ensures !IsUser(vms, pool, pool.volumes[i], name) {
        UsageExact(vms, pool, i, name);
      }
      i := i + 1;
    }
    NoneBeyond(pool.volumes);
    return false;
  }

  lemma NoneBeyond(volumes: seq<Volume>)
    ensures forall i: nat :: LastNamed(volumes, i) ==> i < |volumes|
  {
  }

  lemma {:induction false} UsageKeys(m: seq<Named>, volumes: seq<Volume>, pool: Pool, i: nat)
    requires i < |volumes|
    ensures volumes[i].name in Usage(m, volumes, pool)
  {
    hide UsersOf;
    if i < |volumes| - 1 {
      UsageKeys(m, volumes[..|volumes| - 1], pool, i);
    }
  }

  lemma LastWithName(volumes: seq<Volume>, i: nat) returns (k: nat)
    requires i < |volumes|
    ensures LastNamed(volumes, k) && volumes[k].name == volumes[i].name
    decreases |volumes| - i
  {
    if LastNamed(volumes, i) {
      k := i;
    } else {
      var j :| i < j < |volumes| && volumes[j].name == volumes[i].name;
      k := LastWithName(volumes, j);
    }
  }

  // ----- Offering volumes -----

  /** What a disk counts as using: its file, or else its volume name, or else its device. */
  function UsedPath(d: Disk): OptString {
    if Truthy(d.file) then d.file else if Truthy(d.volume) then d.volume else NonEmpty(d.dev)
  }

  function UsedPaths(disks: seq<Disk>): seq<string> {
    if disks == [] then []
    else (if UsedPath(disks[0]).Some? then [UsedPath(disks[0]).value] else []) + UsedPaths(disks[1..])
  }

  predicate Offered(volume: Volume, disks: seq<Disk>) {
    !(volume.path.Some? && volume.path.value in UsedPaths(disks)) && volume.name !in UsedPaths(disks)
  }

  /** getFilteredVolumes, sorted by a comparison of names that depends on the language. */
  function FilteredVolumes(pool: Pool, disks: seq<Disk>, byName: Comparator<Volume>): seq<Volume> {
    Sort(Filter(pool.volumes, (v: Volume) => Offered(v, disks)), byName)
  }

  lemma {:induction false} UsedPathsMember(disks: seq<Disk>, path: string)
    ensures path in UsedPaths(disks) <==> exists d :: d in disks && UsedPath(d) == Some(path)
  {
    hide UsedPath;
    if disks != [] {
      UsedPathsMember(disks[1..], path);
      assert disks == [disks[0]] + disks[1..];
    }
  }

  lemma OfferedVolumes(pool: Pool, disks: seq<Disk>, byName: Comparator<Volume>, v: Volume)
    ensures v in FilteredVolumes(pool, disks, byName) <==> v in pool.volumes && Offered(v, disks)
  {
    hide Offered, Sort;
    var kept := Filter(pool.volumes, (v: Volume) => Offered(v, disks));
    SortElements(kept, byName);
    PermutedMembers(Sort(kept, byName), kept);
    FilterMember(pool.volumes, (v: Volume) => Offered(v, disks), v);
  }

  /** The source of a disk is given by the field that its type asks for. */
  predicate FieldsMatchType(d: Disk) {
    && (d.kind == Some("file") ==> Truthy(d.file))
    && (d.kind == Some("volume") ==> !Truthy(d.file) && Truthy(d.volume))
    && (d.kind == Some("block") ==> !Truthy(d.file) && !Truthy(d.volume) && Truthy(d.dev))
  }

  /** No volume is offered to a machine that uses it already. */
  lemma OfferedUnused(vm: Vm, pool: Pool, byName: Comparator<Volume>, v: Volume)
    requires forall d :: d in vm.disks ==> FieldsMatchType(d)
    requires v in FilteredVolumes(pool, vm.disks, byName)
    ensures !VmUses(vm, v, pool)
  {
    hide FilteredVolumes, UsedPaths;
    OfferedVolumes(pool, vm.disks, byName, v);
    forall d | d in vm.disks ensures !DiskUses(d, v, pool) {
      UsedPathsMember(vm.disks, v.name);
      if v.path.Some? {
        UsedPathsMember(vm.disks, v.path.value);
      }
      UsedPathOfUser(d, v, pool);
    }
  }

  lemma UsedPathOfUser(d: Disk, v: Volume, pool: Pool)
    requires FieldsMatchType(d)
    ensures DiskUses(d, v, pool) ==> UsedPath(d) == Some(v.name) || (v.path.Some? && UsedPath(d) == v.path)
  {
  }

  /** A disk that counts as using the volume without doing so: its path or volume is called like
      the volume but it is something else. */
  predicate Namesake(d: Disk, v: Volume, pool: Pool) {
    var path := UsedPath(d);
    path.Some? &&
    if d.kind == Some("volume") then
      if path == Some(v.name) then d.pool != Some(pool.name) else path == v.path
    else if d.kind == Some("file") || d.kind == Some("block") then
      path == Some(v.name) && path != v.path
    else
      path == Some(v.name) || path == v.path
  }

  /** A disk counts as using a volume if it uses it, or is a namesake of it. */
  lemma CountsAsUser(d: Disk, v: Volume, pool: Pool)
    requires FieldsMatchType(d)
    ensures UsedPath(d) == Some(v.name) || (v.path.Some? && UsedPath(d) == v.path)
       <==> DiskUses(d, v, pool) || Namesake(d, v, pool)
  {
  }

  /** A volume of the pool is offered to a machine exactly if no disk uses it or is a namesake of it. */
  lemma OfferedExactly(vm: Vm, v: Volume, pool: Pool)
    requires forall d :: d in vm.disks ==> FieldsMatchType(d)
    ensures Offered(v, vm.disks) <==> forall d :: d in vm.disks ==> !DiskUses(d, v, pool) && !Namesake(d, v, pool)
  {
    hide UsedPath, UsedPaths, DiskUses, Namesake, FieldsMatchType;
    UsedPathsMember(vm.disks, v.name);
    if v.path.Some? {
      UsedPathsMember(vm.disks, v.path.value);
    }
    forall d | d in vm.disks
      ensures UsedPath(d) == Some(v.name) || (v.path.Some? && UsedPath(d) == v.path)
         <==> DiskUses(d, v, pool) || Namesake(d, v, pool)
    {
      CountsAsUser(d, v, pool);
    }
  }

  /** A disk with a volume of the same name on another pool is a namesake. */
  lemma OtherPoolHides(v: Volume, pool: Pool, other: string)
    requires v.name != "" && other != pool.name
    ensures var vm := Vm("vm", pool.connectionName, [Disk(Some("volume"), Some(other), Some(v.name), None, None)]);
            !VmUses(vm, v, pool) && !Offered(v, vm.disks)
  {
    var d := Disk(Some("volume"), Some(other), Some(v.name), None, None);
    OfferedExactly(Vm("vm", pool.connectionName, [d]), v, pool);
    assert d in [d] && Namesake(d, v, pool);
  }
}
