/**
 * The application state: its keyed lists, and the asynchronous functions that load it, cut
 * at their awaits.
 */
module AppStates {
  import opened Options
  import opened KeyedLists
  import Loading

  datatype ResourceKey = ResourceKey(connectionName: string, id: string)

  /** Virtual machines that exist in the user interface only, and node devices, go by name. */
  datatype NameKey = NameKey(connectionName: string, name: string)

  class AppState<V(!new)> {
    var vms: seq<Item<ResourceKey, V>>
    var uivms: seq<Item<NameKey, V>>
    var nodeDevices: seq<Item<NameKey, V>>
    var storagePools: seq<Item<ResourceKey, V>>
    var networks: seq<Item<ResourceKey, V>>

    var loadingResources: bool
    var commonDataInited: bool
    var vmsInited: bool
    var initPromise: bool
    var allVmsPromise: bool
    var vmRequested: string

    /** What the asynchronous functions are waiting for. */
    ghost var initPending: bool
    ghost var namesPending: bool
    ghost var quiet: bool
    ghost var allPending: bool
    ghost var vmPending: multiset<string>
    ghost var fullLoads: nat
    ghost var fullLoadDone: bool

    ghost function Progress(): Loading.State
      reads this
    {
      Loading.State(commonDataInited, vmsInited, loadingResources, initPromise, allVmsPromise, vmRequested,
                    initPending, namesPending, quiet, allPending, vmPending, fullLoads, fullLoadDone)
    }

    ghost predicate Valid()
      reads this
    {
      ListsValid() && Loading.Good(Progress())
    }

    ghost predicate ListsValid()
      reads this`vms, this`uivms, this`nodeDevices, this`storagePools, this`networks
    {
      UniqueKeys(vms) && UniqueKeys(uivms) && UniqueKeys(nodeDevices) && UniqueKeys(storagePools) && UniqueKeys(networks)
    }

    constructor ()
      ensures Valid() && Progress() == Loading.INITIAL
      ensures vms == [] && uivms == [] && nodeDevices == [] && storagePools == [] && networks == []
    {
      vms, uivms, nodeDevices, storagePools, networks := [], [], [], [], [];
      loadingResources, commonDataInited, vmsInited := true, false, true;
      initPromise, allVmsPromise, vmRequested := false, false, "";
      initPending, namesPending, quiet, allPending := false, false, false, false;
      vmPending, fullLoads, fullLoadDone := multiset{}, 0, false;
    }

    /** #update */
    method Update()
      modifies this`loadingResources
      ensures Progress() == Loading.Refresh(old(Progress()))
    {
      loadingResources := !(commonDataInited && vmsInited);
    }

    // ----- Virtual machines -----

    method UpdateOrAddVm(props: Item<ResourceKey, V>)
      requires Valid()
      modifies this`vms, this`loadingResources
      ensures Valid() && Progress() == old(Progress())
      ensures vms == Apply(old(vms), MergeIn(props))
      ensures Contents(vms) == ApplyMap(old(Contents(vms)), MergeIn(props))
    {
      hide UniqueKeys, Contents, ReplaceAtIndex;
      ApplyRefines(vms, MergeIn(props));
      var index := FindKey(vms, props.key);
      if index.Some? {
        vms := ReplaceAtIndex(vms, index.value, Merge(vms[index.value], Partial(None, props.props)));
      } else {
        vms := vms + [props];
      }
      Update();
    }

    method UpdateVm(key: ResourceKey, props: Partial<ResourceKey, V>)
      requires Valid()
      modifies this`vms, this`loadingResources
      ensures Progress() == old(Progress())
      ensures vms == Apply(old(vms), Call.Update(key, props))
      ensures Valid() <==> !old(Collides(Contents(vms), Call.Update(key, props)))
      ensures Valid() ==> Contents(vms) == ApplyMap(old(Contents(vms)), Call.Update(key, props))
    {
      hide UniqueKeys, Contents, Collides, UpdateExisting;
      ApplyRefines(vms, Call.Update(key, props));
      vms := UpdateExisting(vms, key, props);
      Update();
    }

    method UndefineVm(key: ResourceKey)
      requires Valid()
      modifies this`vms, this`loadingResources
      ensures Valid() && Progress() == old(Progress())
      ensures vms == Apply(old(vms), Remove(key))
      ensures Contents(vms) == old(Contents(vms)) - {key}
    {
      hide UniqueKeys, Contents, RemoveExisting;
      ApplyRefines(vms, Remove(key));
      vms := RemoveExisting(vms, key);
      Update();
    }

    method DeleteUnlistedVMs(connectionName: string, ids: seq<string>)
      requires Valid()
      modifies this`vms, this`loadingResources
      ensures Valid() && Progress() == old(Progress())
      ensures Contents(vms)
           == map k | k in old(Contents(vms)) && (k.connectionName == connectionName ==> k.id in ids) :: old(Contents(vms))[k]
    {
      hide UniqueKeys, Contents, DeleteUnlisted;
      var listed := (k: ResourceKey) => connectionName != k.connectionName || k.id in ids;
      ApplyRefines(vms, Retain(listed));
      vms := DeleteUnlisted(vms, listed);
      Update();
    }

    // ----- Virtual machines of the user interface only -----

    method SetUiVm(connectionName: string, name: string, props: map<string, V>)
      requires Valid()
      modifies this`uivms, this`loadingResources
      ensures Valid() && Progress() == old(Progress())
      ensures Contents(uivms) == ApplyMap(old(Contents(uivms)), MergeIn(Item(NameKey(connectionName, name), props)))
    {
      hide UniqueKeys, Contents, ReplaceAtIndex;
      var uivm := Item(NameKey(connectionName, name), props);
      ApplyRefines(uivms, MergeIn(uivm));
      var index := FindKey(uivms, uivm.key);
      if index.None? {
        uivms := uivms + [uivm];
      } else {
        uivms := ReplaceAtIndex(uivms, index.value, Merge(uivms[index.value], Partial(None, props)));
      }
      Update();
    }

    method DeleteUiVm(connectionName: string, name: string)
      requires Valid()
      modifies this`uivms, this`loadingResources
      ensures Valid() && Progress() == old(Progress())
      ensures Contents(uivms) == old(Contents(uivms)) - {NameKey(connectionName, name)}
    {
      hide UniqueKeys, Contents, RemoveExisting;
      ApplyRefines(uivms, Remove(NameKey(connectionName, name)));
      uivms := RemoveExisting(uivms, NameKey(connectionName, name));
      Update();
    }

    // ----- Node devices, storage pools and networks -----

    method AddNodeDevice(dev: Item<NameKey, V>)
      requires Valid()
      modifies this`nodeDevices, this`loadingResources
      ensures Valid() && Progress() == old(Progress())
      ensures Contents(nodeDevices) == old(Contents(nodeDevices))[dev.key := dev.props]
    {
      hide UniqueKeys, Contents, ReplaceOrAdd;
      ApplyRefines(nodeDevices, Put(dev));
      nodeDevices := ReplaceOrAdd(nodeDevices, dev);
      Update();
    }

    method AddStoragePool(pool: Item<ResourceKey, V>)
      requires Valid()
      modifies this`storagePools, this`loadingResources
      ensures Valid() && Progress() == old(Progress())
      ensures Contents(storagePools) == old(Contents(storagePools))[pool.key := pool.props]
    {
      hide UniqueKeys, Contents, ReplaceOrAdd;
      ApplyRefines(storagePools, Put(pool));
      storagePools := ReplaceOrAdd(storagePools, pool);
      Update();
    }

    method UpdateStoragePool(key: ResourceKey, props: Partial<ResourceKey, V>)
      requires Valid()
      modifies this`storagePools, this`loadingResources
      ensures Progress() == old(Progress())
      ensures storagePools == Apply(old(storagePools), Call.Update(key, props))
      ensures Valid() <==> !old(Collides(Contents(storagePools), Call.Update(key, props)))
      ensures Valid() ==> Contents(storagePools) == ApplyMap(old(Contents(storagePools)), Call.Update(key, props))
    {
      hide UniqueKeys, Contents, Collides, UpdateExisting;
      ApplyRefines(storagePools, Call.Update(key, props));
      storagePools := UpdateExisting(storagePools, key, props);
      Update();
    }

    method UndefineStoragePool(key: ResourceKey)
      requires Valid()
      modifies this`storagePools, this`loadingResources
      ensures Valid() && Progress() == old(Progress())
      ensures Contents(storagePools) == old(Contents(storagePools)) - {key}
    {
      hide UniqueKeys, Contents, RemoveExisting;
      ApplyRefines(storagePools, Remove(key));
      storagePools := RemoveExisting(storagePools, key);
      Update();
    }

    method AddNetwork(network: Item<ResourceKey, V>)
      requires Valid()
      modifies this`networks, this`loadingResources
      ensures Valid() && Progress() == old(Progress())
      ensures Contents(networks) == old(Contents(networks))[network.key := network.props]
    {
      hide UniqueKeys, Contents, ReplaceOrAdd;
      ApplyRefines(networks, Put(network));
      networks := ReplaceOrAdd(networks, network);
      Update();
    }

    method UpdateNetwork(key: ResourceKey, props: Partial<ResourceKey, V>)
      requires Valid()
      modifies this`networks, this`loadingResources
      ensures Progress() == old(Progress())
      ensures networks == Apply(old(networks), Call.Update(key, props))
      ensures Valid() <==> !old(Collides(Contents(networks), Call.Update(key, props)))
      ensures Valid() ==> Contents(networks) == ApplyMap(old(Contents(networks)), Call.Update(key, props))
    {
      hide UniqueKeys, Contents, Collides, UpdateExisting;
      ApplyRefines(networks, Call.Update(key, props));
      networks := UpdateExisting(networks, key, props);
      Update();
    }

    method UndefineNetwork(key: ResourceKey)
      requires Valid()
      modifies this`networks, this`loadingResources
      ensures Valid() && Progress() == old(Progress())
      ensures Contents(networks) == old(Contents(networks)) - {key}
    {
      hide UniqueKeys, Contents, RemoveExisting;
      ApplyRefines(networks, Remove(key));
      networks := RemoveExisting(networks, key);
      Update();
    }

    // ----- Loading -----

    method Init()
      requires Valid()
      modifies this`initPromise, this`initPending
      ensures Valid() && Progress() == Loading.Step(old(Progress()), Loading.Init)
    {
      hide ListsValid;
      if initPromise {
        return;
      }
      initPromise := true;
      initPending := true;
    }

    /** init goes on once the common data is there. */
    method InitDone()
      requires Valid() && Loading.Enabled(Progress(), Loading.InitDone)
      modifies this`commonDataInited, this`initPending, this`loadingResources
      ensures Valid() && Progress() == Loading.Step(old(Progress()), Loading.InitDone)
    {
      hide ListsValid;
      commonDataInited := true;
      initPending := false;
      Update();
    }

    method InitAllVMs(quietly: bool)
      requires Valid()
      modifies this`allVmsPromise, this`namesPending, this`quiet, this`fullLoads
      ensures Valid() && Progress() == Loading.Step(old(Progress()), Loading.InitAllVMs(quietly))
    {
      hide ListsValid;
      if allVmsPromise {
        return;
      }
      allVmsPromise := true;
      namesPending, quiet, fullLoads := true, quietly, fullLoads + 1;
    }

    /** initAllVMs goes on once the connection names are known. */
    method NamesDone(quietly: bool)
      requires Valid() && Loading.Enabled(Progress(), Loading.NamesDone) && quietly == quiet
      modifies this`vmsInited, this`namesPending, this`allPending, this`loadingResources
      ensures Valid() && Progress() == Loading.Step(old(Progress()), Loading.NamesDone)
    {
      hide ListsValid;
      namesPending, allPending := false, true;
      if !quietly {
        vmsInited := false;
      }
      Update();
    }

    /** initAllVMs goes on once all virtual machines are there. */
    method AllDone()
      requires Valid() && Loading.Enabled(Progress(), Loading.AllDone)
      modifies this`vmsInited, this`allPending, this`fullLoadDone, this`loadingResources
      ensures Valid() && Progress() == Loading.Step(old(Progress()), Loading.AllDone)
    {
      hide ListsValid;
      vmsInited := true;
      allPending, fullLoadDone := false, true;
      Update();
    }

    method InitVM(name: string, connectionName: string)
      requires Valid()
      modifies this`vmRequested, this`vmsInited, this`vmPending, this`loadingResources
      ensures Valid() && Progress() == Loading.Step(old(Progress()), Loading.InitVM(name, connectionName))
    {
      hide ListsValid;
      var key := Loading.Key(name, connectionName);
      if allVmsPromise || vmRequested == key {
        return;
      }
      vmRequested := key;
      vmsInited := false;
      vmPending := vmPending + multiset{key};
      Update();
    }

    /** initVM goes on once its virtual machine is there. */
    method VmDone(key: string)
      requires Valid() && Loading.Enabled(Progress(), Loading.VmDone(key))
      modifies this`vmsInited, this`vmPending, this`loadingResources
      ensures Valid() && Progress() == Loading.Step(old(Progress()), Loading.VmDone(key))
    {
      hide ListsValid;
      vmPending := vmPending - multiset{key};
      if vmRequested == key {
        vmsInited := true;
        Update();
      }
    }
  }
}
