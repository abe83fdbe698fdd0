# A model of cockpit-machines

cockpit-machines is a web front end for libvirt. This project models the parts of it that
compute something: a bounded cache of console states, the boot order of a virtual machine,
the CPU topology editor, the encoding of virt-xml arguments, the XML builders and parsers, the
application state with its asynchronous loading, usage polling, placeholders for machines
that are being created, port forwards, download progress, storage usage, memory sizes and PCI
addresses. Each module proves what these parts are for, over all inputs and over all runs.

Strings are sequences of characters, XML documents are trees of elements and text, sizes are
exact reals, and an asynchronous function is a set of steps cut at its awaits, so that every
interleaving is a run. Code that changes objects, arrays or module variables step by step is
a class or a method with loops, proved against a function; the laws are lemmas about that
function. `hide` statements in proofs keep definitions out of a proof that does not need them.

| file | what it holds |
|---|---|
| `options.dfy`, `sequences.dfy`, `texts.dfy`, `numerals.dfy` | optional values, array methods (with stable sorting), splitting text, numerals in several bases |
| `request_history.dfy`, `console_states.dfy` | the console state cache, as the most recently requested distinct keys |
| `cpu_topology.dfy` | the CPU topology editor and its divisors |
| `virt_xml_args.dfy`, `virt_xml_reading.dfy` | the virt-xml argument encoder, and the reader it must be undone by |
| `xml_tree.dfy`, `xml_documents.dfy`, `xml_parsing.dfy` | XML navigation; building and parsing pools, snapshots and networks |
| `boot_order_list.dfy`, `boot_devices.dfy`, `boot_parsing.dfy` | the devices parsed, the list of bootable devices and its order |
| `boot_order_editing.dfy`, `boot_order_descendants.dfy`, `boot_order_update.dfy`, `boot_order_outcome.dfy` | writing a boot order into a definition, at any depth, and when that throws |
| `boot_order_round_trip.dfy`, `boot_order_identity.dfy` | reading a boot order back, and which devices are recognised |
| `boot_order_dialog.dfy` | the boot order dialog, from opening to opening again |
| `keyed_lists.dfy`, `loading.dfy`, `app_state.dfy` | the application state: keyed lists, loading flags |
| `usage_polling.dfy`, `placeholders.dfy` | two protocols with timers |
| `port_forwards.dfy`, `download_progress.dfy`, `storage_usage.dfy`, `memory_size.dfy`, `pci_addresses.dfy` | conversions, indices and bounded arithmetic |

## Where the code does not do what it is for

These are results of the proofs. Each is stated as a lemma that says for which inputs it happens.

- A boot order cannot be written at all when any disk, interface, redirected or host device, at any
  depth, lacks a sub-element that is dereferenced. Every network host device is such a case: the
  `<interface>` in its `<source>` has no `<mac>`: `BootOrderUpdate.WrittenExactly`,
  `BootOrderOutcome.NetHostDevicesBlock`, `BootOrderOutcome.NetHostDeviceExactly`.
- A host device that is put first in the boot order gets no order, since index 0 counts as not
  found (`src/libvirt-xml-update.ts:239`): `BootOrderRoundTrip.RoundTrip`, `BootOrderIdentity.UsualRoundTrip`.
- Host devices of the kinds storage, misc and net, iSCSI host devices without an address, and USB
  host devices without a vendor whose first address has no port (such as that of their source) are
  never found by the boot order update: `BootOrderRoundTrip.OtherHostDevicesUnrecognised`,
  `BootOrderRoundTrip.IscsiUnrecognised`, `BootOrderRoundTrip.UsbByAddressUnrecognised`.
- A legacy boot entry takes the first disk left, of whatever kind. The disks claimed are of the kinds
  asked for exactly if the disks stand in the order of the entries: `BootDevices.LegacyIgnoresKind`.
- In virt-xml arguments, an array within an array, names with an equals sign, a dot or a number at
  the end, and bare texts with an equals sign behind something are written like something else. A
  reader that takes them for that other thing gives back exactly the trees whose names have none of
  these and that hold no such arrays and texts: `VirtXmlReading.ReadValueArgs`. What they are written like:
  `VirtXmlReading.NumberedNameAmbiguous`, `VirtXmlReading.DottedNameAmbiguous`,
  `VirtXmlReading.EqualsNameAmbiguous`, `VirtXmlReading.NestedArraysAmbiguous`, `VirtXmlReading.BareTextAmbiguous`.
- The CPU dialog opens with a wrong topology exactly if the factors of the definition, missing ones
  replaced by 1, or by the maximum for the cores, do not multiply to the maximum, or more vCPUs are
  in use than there are: `CpuTopology.OpensConsistent`, `CpuTopology.PartialTopologyOpensWrong`.
- The list of machines can be shown as loaded before it is, exactly if a single machine that was asked
  for last is still awaited when the full load begins to wait: `Loading.LoadedTooEarly`.
- A placeholder can be left without a timer by a download that outlasts it, exactly if progress is
  reported for a name that is not listed and has no timer armed: `Placeholders.UntimedByProgressOnly`,
  `Placeholders.TimedThroughout`, `Placeholders.UntimedStays`.
- A timer left over from an earlier creation takes a later placeholder away too soon. Such timers come
  from announcing a creation anew while a timer of it is armed, and from nothing else:
  `Placeholders.EarlyByOvertakingOnly`, `Placeholders.TooEarlyExactly`, `Placeholders.NeverTooEarly`.
- A port forward without a start port comes back with the port "undefined":
  `PortForwards.RuleReturns`, `PortForwards.MissingStart`.
- A volume that a machine does not use is not offered to it exactly if one of its disks is called
  like it, as by a volume of the same name on another pool: `StorageUsage.OfferedExactly`,
  `StorageUsage.OtherPoolHides`.
- An update of a record that changes its key can give two records the same key, exactly if another
  record has the new key: `KeyedLists.RekeyingBreaksUniqueness`, `KeyedLists.RunRefines`.

## Model

| member | source | states |
|---|---|---|
| ConsoleStates.ConsoleCardStates.Get | src/components/vm/consoles/consoles.tsx:84-94 | the kept keys are always the most recently requested distinct ones; the object handed out is that of the last request of the key if fewer than cap other keys came between, else a new one; what was dropped was closed exactly once, what is kept never |
| ConsoleStates.KeysDistinct | src/components/vm/consoles/consoles.tsx:85 | different machines have different keys, as connection names hold no colon |
| ConsoleStates.ConsoleCardStates.MakeRoom | src/components/vm/consoles/consoles.tsx:96-108 | exactly the newest max states stay, unchanged, and all others are closed once and forgotten in both dictionaries |
| ConsoleStates.ConsoleCardStates.Remove | src/components/vm/consoles/consoles.tsx:102-106 | each key given is closed once and removed from both dictionaries, no other |
| ConsoleStates.NewestUnique | src/components/vm/consoles/consoles.tsx:99-100 | with distinct access times there is one set of newest keys of a given size, and it is the one that keeps later over earlier accesses |
| ConsoleStates.RemainingNewest | src/components/vm/consoles/consoles.tsx:99-100 | dropping the front of the keys sorted by access time leaves the newest keys |
| ConsoleStates.NewestAreRecent | src/components/vm/consoles/consoles.tsx:88-92 | the newest by access time are the most recently requested in the history of requests |
| ConsoleStates.SerialStates.Ensure | src/components/vm/consoles/consoles.tsx:35-45 | there is one state for each alias, in order: the old ones if the aliases are unchanged, else all are closed once and replaced by new ones |
| ConsoleStates.SerialStates.Close | src/components/vm/consoles/consoles.tsx:47-50 | every state is closed once, and none is left |
| RequestHistory.RecentAreLastDistinct | src/components/vm/consoles/consoles.tsx:84-94 | the recent keys are the last cap distinct keys of the history, or all of them if there are fewer |
| RequestHistory.RecentKeysAfterHit | src/components/vm/consoles/consoles.tsx:92 | asking again for a recent key does not change which keys are recent |
| RequestHistory.RecentAfterMiss | src/components/vm/consoles/consoles.tsx:87-90 | after another key is asked for, a key is still recent exactly if it was among the first cap - 1 |
| CpuTopology.ComputeDividers | src/components/vm/overview/cpuModal.tsx:30-44 | the loop computes the list of divisors |
| CpuTopology.DividersExact | src/components/vm/overview/cpuModal.tsx:30-44 | the list holds exactly the divisors of a positive number, in ascending order |
| CpuTopology.MaxChangeRestores | src/components/vm/overview/cpuModal.tsx:77-120 | a maximum that is typed in makes the topology consistent from any state: three positive divisors whose product is the maximum, and a count within it |
| CpuTopology.TypedMaximum | src/components/vm/overview/cpuModal.tsx:77-120 | the maximum becomes the number typed, kept between 1 and the limit; the count is kept if it fits and else becomes the maximum; sockets and cores are kept where they divide what is left, else they become all of it, and sockets also while they have the value the machine came with |
| CpuTopology.EmptyHypervisor | src/components/vm/overview/cpuModal.tsx:77-120 | with a limit of zero a number becomes zero, which leaves the count |
| CpuTopology.EmptiedMaximum | src/components/vm/overview/cpuModal.tsx:78-82 | an emptied maximum changes nothing else |
| CpuTopology.ChoiceKept | src/components/vm/overview/cpuModal.tsx:133-185 | choosing sockets, cores or threads keeps that choice, the maximum and the count, and makes the product of the factors the maximum |
| CpuTopology.OtherFactorKept | src/components/vm/overview/cpuModal.tsx:133-185 | the second factor is kept if it divides what the chosen one leaves, and else becomes all of it |
| CpuTopology.CountChosen | src/components/vm/overview/cpuModal.tsx:122-131 | the count becomes the number typed, kept between 1 and the maximum, or zero for an empty field, and nothing else changes |
| CpuTopology.ApplyConsistent | src/components/vm/overview/cpuModal.tsx:77-185 | every handler keeps the topology consistent, including an emptied maximum |
| CpuTopology.RunConsistent | src/components/vm/overview/cpuModal.tsx:77-185 | every state that any sequence of handler calls reaches is consistent |
| CpuTopology.OpensConsistent | src/components/vm/overview/cpuModal.tsx:61-75 | the dialog opens consistent exactly if the count is within the maximum and the factors, with the defaults filled in, multiply to it |
| CpuTopology.PartialTopologyOpensWrong | src/components/vm/overview/cpuModal.tsx:68-70 | without cores in the definition it does so exactly if sockets and threads are 1 |
| CpuTopology.CpuModal.OnMaxChange | src/components/vm/overview/cpuModal.tsx:77-120 | the fields after typing a maximum are those of the transition function that MaxChangeRestores is about |
| CpuTopology.CpuModal.OnCountSelect | src/components/vm/overview/cpuModal.tsx:122-131 | the count becomes zero or is clamped between 1 and the maximum, as the transition function says |
| CpuTopology.CpuModal.OnSocketChange | src/components/vm/overview/cpuModal.tsx:133-150 | the fields after choosing sockets are those of the transition function that ChoiceKept is about |
| CpuTopology.CpuModal.OnThreadsChange | src/components/vm/overview/cpuModal.tsx:152-167 | the fields after choosing threads are those of the transition function that ChoiceKept is about |
| CpuTopology.CpuModal.OnCoresChange | src/components/vm/overview/cpuModal.tsx:169-185 | the fields after choosing cores are those of the transition function that ChoiceKept is about |
| VirtXmlArgs.SplitQuoted | src/libvirtApi/domain.ts:108-111 | a quoted string is read back whole by quote removal, whatever characters it has |
| VirtXmlArgs.SplitJoined | src/libvirtApi/domain.ts:229-231 | quoting each string, joining with commas and splitting with quote removal gives back exactly the list |
| VirtXmlArgs.EncodeInto | src/libvirtApi/domain.ts:200-211 | the recursive loop appends the pieces of the tree and terminates |
| VirtXmlArgs.AddValues | src/libvirtApi/domain.ts:219-233 | one joined argument is added, a bare number unquoted, and nothing if all values are dropped |
| VirtXmlArgs.PiecesAreLeaves | src/libvirtApi/domain.ts:125-154 | the pieces are exactly the values that are not dropped, one each, depth first, under their dotted and numbered names |
| VirtXmlArgs.MemberWritten | src/libvirtApi/domain.ts:200-202 | under a name a text is written as it is and true as "yes", and nothing for absent values |
| VirtXmlArgs.NumberWritten | src/libvirtApi/domain.ts:201-226 | the text of a number reads back as the number |
| VirtXmlReading.ReadLeafPiece | src/libvirtApi/domain.ts:201-202 | name and value of a piece can be told apart again, and a value without a name that shows none is read as it is |
| VirtXmlReading.ReadValueArgs | src/libvirtApi/domain.ts:200-233 | the argument is read back as the list of all values with their paths exactly if all names are without '=', '.' and trailing digits, no index is right behind an index, and a value without a path has no '=' but at its start |
| VirtXmlReading.ReadSteps | src/libvirtApi/domain.ts:205-208 | whatever text is read as a path, its names are such names, and with enough names in it no index follows an index |
| VirtXmlReading.LeavesExact | src/libvirtApi/domain.ts:200-211 | a value is in that list exactly if the tree has it at that path |
| VirtXmlReading.SameArgsSameTree | src/libvirtApi/domain.ts:200-233 | two trees with the same argument hold the same values at the same paths |
| VirtXmlReading.NestedArraysAmbiguous | src/libvirtApi/domain.ts:203-205 | two different trees with arrays in arrays have the same argument |
| VirtXmlReading.BareTextAmbiguous | src/libvirtApi/domain.ts:149-154 | a bare text has the same argument as some value with a name exactly if it is not read back |
| VirtXmlReading.NumberedNameAmbiguous | src/libvirtApi/domain.ts:203-205 | a name that ends in a number has the same argument as an array below the shorter name |
| VirtXmlReading.DottedNameAmbiguous | src/libvirtApi/domain.ts:206-208 | a name with a dot has the same argument as an object below the first part |
| VirtXmlReading.EqualsNameAmbiguous | src/libvirtApi/domain.ts:201-202 | a name with an equals sign has the same argument as the part before it with a longer text |
| XmlTree.FindChild | src/libvirt-xml-parse.ts:221-236 | the nested loops of get_child follow the path |
| XmlTree.RecordMatches | src/libvirt-xml-parse.ts:205-220 | a record asks for the tag name and the attributes it gives |
| XmlTree.TextOfConcat | src/libvirt-xml-parse.ts:256-262 | the text of an element is that of its nodes in order |
| XmlTree.CollectChildren | src/libvirt-xml-parse.ts:238-254 | the loop of get_children collects what the function says |
| XmlTree.GetChildCompose | src/libvirt-xml-parse.ts:221-236 | a path may be followed in two parts |
| XmlTree.GetChildIsHead | src/libvirt-xml-parse.ts:221-254 | get_child finds the first of what get_children finds |
| XmlTree.ChildrenAreDirect | src/libvirt-xml-parse.ts:238-254 | only matching elements right below the parent are found, and all of them |
| XmlTree.FilledFirst | src/libvirt-xml-parse.ts:221-236 | in an element built child by child, looking for a tag used once finds the child appended under it |
| XmlTree.FilledChildren | src/libvirt-xml-parse.ts:238-254 | looking for all children with a tag finds those appended under it, in order |
| XmlDocuments.BuildPoolSource | src/libvirt-xml-create.ts:184-224 | parsing the source of a pool gives back host, device, directory, name and format; the initiator is there by its path |
| XmlDocuments.BuildPool | src/libvirt-xml-create.ts:156-229 | parsing the definition gives back name, type, the source if any field of it is set, and the target for types that have one |
| XmlDocuments.BuildSnapshot | src/libvirt-xml-create.ts:232-263 | parsing the definition gives back name, description and memory file, which is asked for as an external one |
| XmlDocuments.BuildNetwork | src/libvirt-xml-create.ts:23-111 | parsing the definition gives back the forward mode and each address with mask or prefix, family and DHCP range; name, forward device, domain and DNS entry are there by their paths |
| XmlDocuments.BuildForward | src/libvirt-xml-create.ts:44-50 | a forward element has its mode, and its device exactly for the modes that take one |
| XmlDocuments.BuildDns | src/libvirt-xml-create.ts:62-71 | the gateway's address and host name are there by their paths |
| XmlDocuments.ReadIp | src/libvirt-xml-parse.ts:940-984 | reading an address finds the DHCP range that was asked for, and no hosts |
| XmlParsing.PoolParsed | src/libvirt-xml-parse.ts:1067-1114 | parsing a document that describes a pool gives back the pool, with every field |
| XmlParsing.SnapshotParsed | src/libvirt-xml-parse.ts:346-356 | parsing a document that describes a snapshot gives back the snapshot |
| XmlParsing.NetworkParsed | src/libvirt-xml-parse.ts:913-984 | parsing a document that describes a network gives back the network, with all addresses and their hosts |
| BootOrderList.ByOrderConsistent | src/helpers.ts:633-647 | the comparator is a total preorder |
| BootOrderList.SortedEntries | src/helpers.ts:630-649 | sorting is a stable permutation, ascending with order-less devices last |
| BootOrderList.SortRanked | src/helpers.ts:630-649 | sorting devices that are numbered by a choice shows the choice in its order and then all others |
| BootDevices.GetBootOrderDevices | src/helpers.ts:532-624 | the loops with their splices compute the list in which the n-th disk entry of the legacy list claims the n-th disk and the n-th network entry the n-th interface |
| BootDevices.BootListExact | src/helpers.ts:532-624 | that list is, in order, what each legacy entry "disk", "fd" or "cdrom" gives, the next disk under its place, and each "network", the next interface; then come all devices these do not reach, with their own orders |
| BootDevices.BootListConserves | src/helpers.ts:532-624 | every device of the machine is in the list as often as in the machine |
| BootDevices.SortedBootListConserves | src/helpers.ts:630-649 | the sorted list has every device of the machine as often as the machine, ascending with order-less devices last |
| BootDevices.AnyDiskSuits | src/helpers.ts:546-551 | the search for a disk of the wanted kind always finds the first disk |
| BootDevices.LegacyIgnoresKind | src/helpers.ts:544-560 | every disk claimed by the legacy list is of the kind its entry asks for exactly if the n-th disk entry finds a disk of its kind in n-th place |
| BootDevices.CdromTakesDisk | src/helpers.ts:544-560 | a machine told to boot from its CD-ROM drive is listed as booting from the hard disk before it |
| BootDevices.DistinctTargets | src/libvirt-xml-parse.ts:532-580 | disks with different targets are all kept, in document order |
| BootParsing.DeviceParsed | src/libvirt-xml-parse.ts:532-902 | parsing an element that describes a device of any kind gives back the device |
| BootParsing.SkippedExactly | src/libvirt-xml-parse.ts:532-902 | skipped are exactly disks without a target and host devices of other kinds |
| BootParsing.DescribingMember | src/libvirt-xml-parse.ts:532-902 | the list of a kind has exactly the children of that kind that describe a device |
| BootParsing.DescribingConcat | src/libvirt-xml-parse.ts:532-902 | in document order |
| BootParsing.LastTargetKept | src/libvirt-xml-parse.ts:532-580 | of disks with the same target the last one is kept, once |
| BootParsing.LegacyParsed | src/libvirt-xml-parse.ts:426-441 | each legacy entry with a device is listed under what the device is called |
| BootParsing.LegacySkipped | src/libvirt-xml-parse.ts:426-441 | one without is skipped |
| BootOrderEditing.RemoveAll | src/libvirt-xml-update.ts:75-80 | the removal loop over a live collection ends, takes out every boot element, and leaves the rest |
| BootOrderEditing.RemovalShrinks | src/libvirt-xml-update.ts:78-79 | each removal leaves fewer elements |
| BootOrderEditing.StripComplete | src/libvirt-xml-update.ts:75-80 | what is left has no such element, and is all of it if there was none |
| BootOrderEditing.EditKeepsRest | src/libvirt-xml-update.ts:89-99 | changing or removing the first boot element changes nothing besides boot elements |
| BootOrderEditing.OrderRead | src/libvirt-xml-update.ts:89-99 | the order given to a device is the order read back |
| BootOrderEditing.WithOrderTwice | src/libvirt-xml-update.ts:89-99 | giving the same order again changes nothing |
| BootOrderEditing.AlikeDevice | src/libvirt-xml-parse.ts:532-780 | a device is recognised the same whatever its boot order |
| BootOrderUpdate.Definition.UpdateBootOrder | src/libvirt-xml-update.ts:67-252 | the update throws if <os>, <devices> or a sub-element that a loop dereferences is missing; else the legacy list is gone and the devices are what the four loops over all elements with their tags, at any depth, make of them |
| BootOrderUpdate.Definition.LoopOver | src/libvirt-xml-update.ts:82-249 | one loop over a collection that follows the changes ends, and computes what the function says |
| BootOrderUpdate.ScsiTaken | src/libvirt-xml-update.ts:189-219 | a SCSI host device is taken for a device by the four fields of its address and adapter if it has both, and else by protocol and name of its address |
| BootOrderUpdate.WrittenExactly | src/libvirt-xml-update.ts:82-249 | in a definition whose boot elements hold no elements, the loops throw exactly if some element of the four kinds, at any depth, lacks what is dereferenced in it |
| BootOrderUpdate.WrittenIfComplete | src/libvirt-xml-update.ts:82-249 | that is: a disk without target, an interface without MAC address, a redirected device without address, or a host device without the source or address that its kind is looked up by |
| BootOrderUpdate.UpdateKeepsRest | src/libvirt-xml-update.ts:67-252 | for every definition, besides boot elements nothing is changed |
| BootOrderDescendants.ReplaceKeepsRest | src/libvirt-xml-update.ts:89-99 | replacing an element at any depth by one that differs in boot elements only keeps the rest |
| BootOrderDescendants.StrippedDescendants | src/libvirt-xml-update.ts:67-252 | boot elements that hold no elements do not matter for which other elements are found |
| BootOrderOutcome.WrittenFlat | src/libvirt-xml-update.ts:82-249 | when no device lies within another, the loops give each device element the order of its place in the choice, or none |
| BootOrderOutcome.NetHostDevicesBlock | src/libvirt-xml-update.ts:102-105 | a machine with a network host device whose interface has no MAC address cannot be given any boot order |
| BootOrderOutcome.NetHostDeviceExactly | src/libvirt-xml-update.ts:102-105 | if all else is in order it can exactly if that interface has one |
| BootOrderRoundTrip.RoundTrip | src/libvirt-xml-update.ts:67-252 | writing a choice succeeds and reading it back shows the choice, numbered from 1, and then all other devices without order, exactly if there is an <os>, all that is dereferenced is there, every chosen device is recognised and no host device was put first |
| BootOrderRoundTrip.SavedIs | src/libvirt-xml-update.ts:67-252 | a choice is written exactly if there is an <os> and all that is dereferenced |
| BootOrderRoundTrip.UpdateTwice | src/libvirt-xml-update.ts:67-252 | writing the same choice again, once written, changes nothing |
| BootOrderRoundTrip.LastWriteWins | src/libvirt-xml-update.ts:67-252 | after an update that did not throw the machine is still well formed with the same devices, and a further update does not throw and has the effect it would have had at once |
| BootOrderRoundTrip.BootListAfter | src/libvirt-xml-parse.ts:532-843 | if the update did not throw, the list read after it has every device once, with the order it was given |
| BootOrderRoundTrip.OrderIsRank | src/libvirt-xml-update.ts:139-249 | an element gets the rank of its device in the choice, unless it is not recognised or a host device put first |
| BootOrderRoundTrip.OtherHostDevicesUnrecognised | src/libvirt-xml-update.ts:139-249 | storage, character and network host devices are never found |
| BootOrderRoundTrip.IscsiUnrecognised | src/libvirt-xml-update.ts:189-219 | iSCSI host devices without an address are never found |
| BootOrderRoundTrip.UsbByAddressUnrecognised | src/libvirt-xml-update.ts:147-171 | USB host devices without a vendor are never found when the first address in them has no port |
| BootOrderIdentity.TakenForSame | src/libvirt-xml-update.ts:83-237 | in a definition of the usual layout an element is taken for a device exactly if the fields that identify a device of its kind, as parsed, are there and equal |
| BootOrderIdentity.UsualWellFormed | src/libvirt-xml-update.ts:83-237 | in a definition of the usual layout with different devices, no element is taken for another element's device |
| BootOrderIdentity.UsualRoundTrip | src/libvirt-xml-update.ts:67-252 | there, writing a choice succeeds and reading it back shows the choice exactly if there is an <os>, all that is dereferenced is there, all chosen devices have the fields that identify them and the first is no host device |
| BootOrderDialog.RunPermutes | src/components/vm/overview/bootOrder.tsx:275-308 | any toggles and moves keep the devices a permutation |
| BootOrderDialog.EveryArrangement | src/components/vm/overview/bootOrder.tsx:275-330 | enabled actions reach an arrangement of rows and check marks exactly if it has the same devices |
| BootOrderDialog.EveryChoice | src/components/vm/overview/bootOrder.tsx:259-330 | every choice of devices, in every order, can be made and saved, and nothing else |
| BootOrderDialog.ToggleFlips | src/components/vm/overview/bootOrder.tsx:275-282 | one check mark is flipped and nothing else, and flipping it again restores the rows |
| BootOrderDialog.MoveUpExchanges | src/components/vm/overview/bootOrder.tsx:284-295 | the arrow of a checked row exchanges it with the one above, and no other row moves |
| BootOrderDialog.MoveDownIsMoveUp | src/components/vm/overview/bootOrder.tsx:297-308 | moving a row down is moving the next one up, and is allowed under the same condition |
| BootOrderDialog.SavedIsChoice | src/components/vm/overview/bootOrder.tsx:259-308 | whatever is done in the dialog, what is saved is a choice among the machine's devices, each at most once |
| BootOrderDialog.SaveAndReopen | src/components/vm/overview/bootOrder.tsx:46-55 | saving succeeds and the dialog then opens with the checked devices first, in the order they were left in, exactly if there is an <os>, all that is dereferenced is there, all are recognised and no host device was first |
| BootOrderDialog.ShownRows | src/components/vm/overview/bootOrder.tsx:49-52 | the chosen devices are then the checked ones, at the top |
| BootOrderDialog.Dialog.OnToggleDevice | src/components/vm/overview/bootOrder.tsx:275-282 | the row is checked or unchecked in place, as in the transition function that RunPermutes is about |
| BootOrderDialog.Dialog.OnMoveUp | src/components/vm/overview/bootOrder.tsx:284-295 | the row and the one above it are exchanged |
| BootOrderDialog.Dialog.OnMoveDown | src/components/vm/overview/bootOrder.tsx:297-308 | the row and the one below it are exchanged |
| BootOrderDialog.Dialog.Save | src/components/vm/overview/bootOrder.tsx:259-267 | the checked devices are saved in the order of the rows |
| KeyedLists.ApplyRefines | src/state.ts:62-92 | a call keeps keys unique exactly if it does not give a record the key of another one, and then does to the list what it does to a map |
| KeyedLists.UpdateRefines | src/state.ts:82-88 | an update, with or without a new key, changes the list as it changes a map if the new key is free; an update of an absent key is a no-op |
| KeyedLists.RunRefines | src/state.ts:62-236 | keys are unique after each of any calls exactly if none gives a record the key of another one, and then the list equals the map that the same calls make |
| KeyedLists.RunKeepsOrder | src/state.ts:62-236 | records that stay in the list stay in the order they had |
| KeyedLists.RekeyingBreaksUniqueness | src/state.ts:70-88 | an update keeps keys unique exactly if it does not give a record of the list the key of another one |
| AppStates.AppState.UpdateOrAddVm | src/state.ts:135-143 | a known machine is merged into and an unknown one added, keys stay unique, and loading shows as the flags say |
| AppStates.AppState.UpdateVm | src/state.ts:145-148 | any partial record: the list is what the update makes of it; keys stay unique exactly if it does not carry the key of another record, and then the list changes as a map does |
| AppStates.AppState.UndefineVm | src/state.ts:150-153 | exactly that machine is removed |
| AppStates.AppState.DeleteUnlistedVMs | src/state.ts:155-158 | exactly the machines of the connection that are not listed are removed |
| AppStates.AppState.SetUiVm | src/state.ts:164-178 | a placeholder is merged into or added under its connection and name |
| AppStates.AppState.DeleteUiVm | src/state.ts:180-183 | exactly that placeholder is removed |
| AppStates.AppState.AddNodeDevice | src/state.ts:190-193 | a node device replaces the one with its name, or is added |
| AppStates.AppState.AddStoragePool | src/state.ts:204-207 | a pool replaces the one with its key, or is added |
| AppStates.AppState.UpdateStoragePool | src/state.ts:209-212 | any partial record: the list is what the update makes of it; keys stay unique exactly if it does not carry the key of another record, and then the list changes as a map does |
| AppStates.AppState.UndefineStoragePool | src/state.ts:214-217 | exactly that pool is removed |
| AppStates.AppState.AddNetwork | src/state.ts:223-226 | a network replaces the one with its key, or is added |
| AppStates.AppState.UpdateNetwork | src/state.ts:228-231 | any partial record: the list is what the update makes of it; keys stay unique exactly if it does not carry the key of another record, and then the list changes as a map does |
| AppStates.AppState.UndefineNetwork | src/state.ts:233-236 | exactly that network is removed |
| AppStates.AppState.Init | src/state.ts:250-316 | init is started once |
| AppStates.AppState.InitDone | src/state.ts:311-312 | the common data is marked as loaded |
| AppStates.AppState.InitAllVMs | src/state.ts:321-338 | the full load is started once |
| AppStates.AppState.NamesDone | src/state.ts:326-329 | the VM flag goes down unless the load is quiet |
| AppStates.AppState.AllDone | src/state.ts:333-334 | the VM flag goes up |
| AppStates.AppState.InitVM | src/state.ts:343-350 | a single load starts unless the full load was started or the same machine is being loaded |
| AppStates.AppState.VmDone | src/state.ts:351-355 | the VM flag goes up if this machine was the last one asked for |
| Loading.StepGood | src/state.ts:240-356 | every step keeps the invariant of the loading protocol |
| Loading.OneFetch | src/state.ts:343-355 | a single load that is asked for begins exactly one fetch, and lowers the flag, exactly if the full load was not started and the machine is not the one asked for last; no other step begins one |
| Loading.FetchesConserved | src/state.ts:343-355 | in every run, as many fetches of a machine have begun as have arrived or are awaited |
| Loading.AwaitedUntil | src/state.ts:343-355 | from then on the machine is awaited and the flag down in every run until it or the full load arrives or another one is asked for |
| Loading.StartedExactly | src/state.ts:250-338 | in every run, init is under way or done exactly if it was called, and the full load, started once, exactly if it was asked for |
| Loading.QuietExactly | src/state.ts:321-329 | when the names are known the flag is left alone if the first call was quiet and lowered if not; without other calls a quiet load never lowers it |
| Loading.NeverStuck | src/state.ts:319-356 | in every run, a VM flag that is down has a task under way that raises it |
| Loading.LoadingIsExact | src/state.ts:243-246 | in every run, loading is shown exactly while one of the flags is down |
| Loading.FullLoadOnce | src/state.ts:319-338 | in every run the full load is started at most once |
| Loading.LoadedForGood | src/state.ts:330-334 | once the full load has finished the VM flag stays up |
| Loading.LoadingEnds | src/state.ts:240-356 | when no more calls come, the tasks complete in any order, one more as long as any is outstanding, and then everything is shown as loaded |
| Loading.RaisedEarly | src/state.ts:326-355 | during the full load a step raises the VM flag exactly if the machine asked for last by itself arrives |
| Loading.LoadedTooEarly | src/state.ts:326-355 | in every run, a full load that is not quiet keeps the VM flag down in all continuations until it is done exactly if no machine asked for last by itself is awaited when it begins |
| UsagePolling.StepGood | src/libvirtApi/common.ts:477-531 | every step keeps the invariant of the polling protocol |
| UsagePolling.OneTimer | src/libvirtApi/common.ts:477-531 | in every run at most one timer is armed, it is the recorded one, it is armed only while polling is on and the page visible, and then a timer is armed or a round under way |
| UsagePolling.BegunCovered | src/libvirtApi/common.ts:477-494 | a machine is asked for its usage only while the page is visible and polling covers it |
| UsagePolling.OneRoundStarts | src/libvirtApi/common.ts:497-531 | a round starts exactly when the specification changes, the page is shown or the timer fires |
| UsagePolling.RoundAsks | src/libvirtApi/common.ts:477-494 | a round left alone asks, in order, all machines when everything is polled and the page visible, the one that is named if it is there, and none otherwise |
| UsagePolling.RoundEnds | src/libvirtApi/common.ts:487-509 | a round left alone ends after at most one answer for each of its machines, and then a timer is armed if polling should go on |
| UsagePolling.Poller.EnsureUsagePolling | src/libvirtApi/common.ts:525-531 | a new specification restarts polling, the same one does nothing |
| UsagePolling.Poller.VisibilityChange | src/libvirtApi/common.ts:518-523 | hiding the page cancels the timer, showing it starts a round |
| UsagePolling.Poller.TimerFires | src/libvirtApi/common.ts:504-507 | a timer that fires is forgotten and starts a round |
| UsagePolling.Poller.PollAnswered | src/libvirtApi/common.ts:487-508 | a round goes on to its next machine or ends with setting the timer |
| Placeholders.StepGood | src/components/create-vm-dialog/uiState.ts:20-93 | every step keeps a recorded armed timer for each placeholder marked as being created |
| Placeholders.GoneInTime | src/components/create-vm-dialog/uiState.ts:20-59 | in every run a placeholder marked as being created is never shown for longer than one interval after its creation was last announced |
| Placeholders.ClearTakesAll | src/components/create-vm-dialog/uiState.ts:37-47 | clearing removes a placeholder with its timer and record, and touches no other name |
| Placeholders.ShownAfter | src/components/create-vm-dialog/uiState.ts:20-35 | an announcement marks its name and keeps its progress, a report sets the progress and keeps the mark, and no other name is touched |
| Placeholders.UntimedByProgressOnly | src/components/create-vm-dialog/uiState.ts:20-93 | a step leaves a placeholder without an armed timer exactly if it reports progress for a name that is not listed and that no timer is armed for |
| Placeholders.TimedThroughout | src/components/create-vm-dialog/uiState.ts:20-93 | every placeholder has an armed timer throughout a run exactly if the run has no such report |
| Placeholders.UntimedStays | src/components/create-vm-dialog/uiState.ts:28-47 | a placeholder without a timer stays in every run that neither clears its name nor announces its creation |
| Placeholders.DownloadOutlastsTimer | src/components/create-vm-dialog/uiState.ts:28-59 | a run that ends with a placeholder and no timer at all |
| Placeholders.EarlyByOvertakingOnly | src/components/create-vm-dialog/uiState.ts:49-59 | a step leaves a timer that will fire too early exactly if it announces a creation anew, later, while a timer of it is armed |
| Placeholders.OvertakingRecorded | src/components/create-vm-dialog/uiState.ts:49-59 | while every armed timer is on record, that is announcing a creation again, later, before its timer has fired |
| Placeholders.NeverTooEarly | src/components/create-vm-dialog/uiState.ts:20-59 | in a run without such steps no timer takes a placeholder away before its interval is over |
| Placeholders.TooEarlyExactly | src/components/create-vm-dialog/uiState.ts:20-59 | a step allows a continuation without announcements in which a timer takes a placeholder away before its interval is over exactly if it announces a creation anew, later, while a timer of it is armed |
| Placeholders.EarlyStays | src/components/create-vm-dialog/uiState.ts:61-76 | an early timer is never cancelled |
| Placeholders.StaleTimerFiresEarly | src/components/create-vm-dialog/uiState.ts:56-58 | a timer that fires takes the placeholder of its name away, before the interval is over exactly if it is an early one |
| Placeholders.ShownPlaceholders | src/helpers.ts:23-25 | the placeholders shown are exactly those of machines that do not exist |
| Placeholders.UiState.SetVmCreateInProgress | src/components/create-vm-dialog/uiState.ts:20-26 | the placeholder is marked and a new timer recorded and armed |
| Placeholders.UiState.UpdateImageDownloadProgress | src/components/create-vm-dialog/uiState.ts:28-35 | only the progress of the placeholder changes |
| Placeholders.UiState.ClearVmUiState | src/components/create-vm-dialog/uiState.ts:37-47 | timer, record and placeholder go together |
| Placeholders.UiState.TimerFires | src/components/create-vm-dialog/uiState.ts:56-58 | a timer clears the name it was set for |
| Texts.SplitPieces | src/libvirtApi/domain.ts:517-519 | splitting at a separator gives pieces free of it, one more than separators, whose join is the text |
| Texts.SplitConcat | src/libvirtApi/domain.ts:516-519 | splitting a concatenation glues the last piece of the first text to the first piece of the second |
| PortForwards.RuleReturns | src/components/vm/nics/nicBody.tsx:338-382 | a rule is unchanged by the way to the dialog and back, but for missing and empty fields, exactly if a simple rule has a start port and no dash in its ports |
| PortForwards.SimpleExactly | src/components/vm/nics/nicBody.tsx:338-357 | a rule is edited field by field exactly if it names no device and has one range that is not excluded |
| PortForwards.InterfaceReturns | src/components/vm/nics/nicBody.tsx:338-382 | all rules are unchanged exactly if all have such ports |
| PortForwards.DialogReturns | src/components/vm/nics/nicBody.tsx:338-382 | a rule of the dialog is unchanged by the way to the interface and back exactly if its host is a port or a range, and it is complex only where it has to be |
| PortForwards.MissingStart | src/components/vm/nics/nicBody.tsx:346 | a rule without start port comes back with the port "undefined" |
| PortForwards.GuestRangeAsWide | src/components/vm/nics/nicBody.tsx:330-331 | the last guest port shown is as far from the first as the host ports are apart, and may be negative |
| PortForwards.GuestEndNoNumber | src/components/vm/nics/nicBody.tsx:331 | the last guest port is "NaN" if one of the ports is no number |
| PortForwards.PortForwardText | src/components/vm/nics/nicBody.tsx:312-336 | the loop accumulates the text that TextPieces and TextSaysRanges are about |
| PortForwards.TextPieces | src/components/vm/nics/nicBody.tsx:321-333 | cut at its commas, the text has one piece for each range, the first behind the heading and the last before the protocol |
| PortForwards.TextSaysRanges | src/components/vm/nics/nicBody.tsx:321-333 | the piece of a range with an end and without exclusion shows its host ports and as many guest ports |
| PortForwards.OtherRangesSay | src/components/vm/nics/nicBody.tsx:321-333 | an exclusion is shown without guest ports, a single port with the guest port it goes to or else the same |
| PortForwards.HeadingSays | src/components/vm/nics/nicBody.tsx:314-320 | before the ranges stand the address and the device, if given, and "all" exactly if every range is an exclusion |
| DownloadProgress.Download | src/scripts/rhsm/download_file_and_report_progress.py:19-31 | the percentages printed are exactly those reached at the end of some block, each once, strictly increasing, within 0 to 100 if no more than announced is received; they end with that of the whole, and with 100 if all is received; the loop fails exactly on a block of a file announced as empty, having printed nothing |
| DownloadProgress.RoundedNear | src/scripts/rhsm/download_file_and_report_progress.py:25 | rounding is to the nearest number, ties to the even one |
| DownloadProgress.PercentageNear | src/scripts/rhsm/download_file_and_report_progress.py:25 | a percentage is within one half of a hundred times the part received |
| DownloadProgress.Stream.OnChunk | src/libvirtApi/domain.ts:514-523 | a chunk leaves the open line in the buffer and reports the last line it completes, as the function that Reassembly is about |
| DownloadProgress.Reassembly | src/libvirtApi/domain.ts:514-523 | however the output is cut, the buffer is the text after the last newline and the last report the last complete line |
| DownloadProgress.ReportsInOrder | src/libvirtApi/domain.ts:514-523 | the reports are complete lines of the output, each later than the one before |
| DownloadProgress.ReportsIncrease | src/libvirtApi/domain.ts:514-523 | at every moment of a download the values reported are percentages that were printed, strictly increasing |
| DownloadProgress.LastReport | src/libvirtApi/domain.ts:514-523 | when all output has arrived the last report is the last percentage printed |
| StorageUsage.GetVmDisksMap | src/helpers.ts:669-693 | the loops build the dictionary of disks by machine name |
| StorageUsage.VmDisksMapLists | src/helpers.ts:669-693 | the dictionary knows every user of every volume on the connection, and nobody else |
| StorageUsage.GetStorageVolumesUsage | src/helpers.ts:718-748 | the loops build the dictionary of users by volume name |
| StorageUsage.UsageExact | src/helpers.ts:718-748 | a name is listed for a volume exactly if a machine of that name on the pool's connection has a disk with it, by pool and name or by path |
| StorageUsage.DistinctNamesUsage | src/helpers.ts:718-748 | with distinct volume names this is so for every volume of the pool |
| StorageUsage.CanDelete | src/components/storagePools/storagePoolDelete.tsx:63-73 | true exactly if no disk of any machine names the pool |
| StorageUsage.DeletableUsedByPath | src/components/storagePools/storagePoolDelete.tsx:32-73 | if a pool can be deleted, the users listed for its volumes are exactly those by path |
| StorageUsage.CanDeleteOnlyWithoutVolumes | src/components/storagePools/storagePoolDelete.tsx:41-53 | true exactly if the pool can be deleted and one of its volumes has a user |
| StorageUsage.OfferedVolumes | src/components/vm/disks/diskAdd.tsx:56-68 | the volumes offered are those of the pool whose path and name no disk counts as using |
| StorageUsage.OfferedUnused | src/components/vm/disks/diskAdd.tsx:56-68 | no volume is offered to a machine that uses it, if its disks have the source field of their type |
| StorageUsage.OfferedExactly | src/components/vm/disks/diskAdd.tsx:56-68 | a volume is offered to a machine exactly if no disk uses it or is a namesake of it |
| StorageUsage.OtherPoolHides | src/components/vm/disks/diskAdd.tsx:57-61 | a disk on another pool hides the volume of the same name |
| MemorySize.ConvertScale | src/helpers.ts:112-146 | a converted quantity stands for the same number of bytes |
| MemorySize.ConvertTwice | src/helpers.ts:112-146 | converting in two steps is converting at once |
| MemorySize.UnitsInBytes | src/helpers.ts:112-146 | each unit is 1024 of the next smaller one |
| MemorySize.NoOtherUnit | src/helpers.ts:129-135 | any other unit converts to zero |
| MemorySize.SizeRoundedUp | src/components/create-vm-dialog/createVmDialog.tsx:1368-1373 | a size that is entered is rounded up to whole MiB, by less than one, in the same unit |
| MemorySize.UnitKeepsRequest | src/components/create-vm-dialog/createVmDialog.tsx:1375-1381 | another unit does not change what is asked for |
| MemorySize.NoSize | src/components/create-vm-dialog/createVmDialog.tsx:1368-1373 | what is no number, or negative, is entered as zero |
| MemorySize.OsMinimum | src/components/create-vm-dialog/createVmDialog.tsx:1409-1423 | choosing an operating system asks for its minimum, rounded up to whole MiB by less than one, in GiB or MiB |
| MemorySize.DefaultMemory | src/components/create-vm-dialog/createVmDialog.tsx:143-156 | without one, the whole MiB of the host are asked for, at most 1024, and none if they are not known |
| MemorySize.RunGood | src/components/create-vm-dialog/createVmDialog.tsx:1368-1426 | after any changes of size, unit and operating system the size is a non-negative whole number of MiB |
| MemorySize.NoErrorIsAcceptable | src/components/create-vm-dialog/createVmDialog.tsx:271-285 | after any changes there is no memory error exactly if at least 1 MiB, and at most what the host is known to have, is asked for |
| MemorySize.CreateVmModal.OnValueChanged | src/components/create-vm-dialog/createVmDialog.tsx:1368-1426 | size and unit after a change are those of the transition function that RunGood is about |
| Numerals.ParsePrinted | src/helpers.ts:855-863 | parsing a padded number in its base gives the number back |
| Numerals.DigitCases | src/helpers.ts:397-400 | letters are digits in either case |
| PciAddresses.SourceReadsBack | src/helpers.ts:849-863 | the address shown for a PCI device gives back its four numbers |
| PciAddresses.FieldWidths | src/helpers.ts:855-863 | the parts are padded to their width, and not beyond |
| PciAddresses.MissingField | src/helpers.ts:850-861 | a part that is no number is shown as NaN |
| PciAddresses.SourceInjective | src/helpers.ts:849-863 | different PCI devices are shown differently |
| PciAddresses.FoundByNumbers | src/helpers.ts:395-418 | a PCI device is found exactly if the hexadecimal address has its four numbers |
| PciAddresses.MatchingExact | src/helpers.ts:402-416 | exactly those devices of the host are selected |
| PciAddresses.HexRead | src/helpers.ts:397-400 | a number is read from its hexadecimal digits with or without prefix, and none from nothing |
| PciAddresses.HostDeviceFindsIts | src/helpers.ts:395-418 | a host device with the address libvirt writes finds the node device of that address and no other |

## Left out

- React rendering, dialogs as such, notifications, navigation, D-Bus, spawned programs and HTTP: their results and completions are parameters and steps.
- Text of XML: serialising a tree and parsing the text again is taken as the identity. `toString`, entities and namespaces are not modelled.
- Networks: a built definition is parsed as it was built. libvirt gives back its own, in which the forward device is an `<interface>` child.
- The DOM as a graph of shared nodes: builders that append an element before filling it are modelled as filling it first.
- Boot order: the lookup of `<os>` and `<devices>` themselves; the definition is given as their child nodes. Reading back is about definitions without devices within devices, unless the update throws, and with boot elements that hold no elements. Orders that are not decimal numerals (NaN in the comparator) read as no order.
- Boot order: the translation of legacy boot types. They are compared in the untranslated form.
- Parsed devices keep the fields that tell them apart; the many other fields of the parsers, and the definitions of storage volumes, are not modelled.
- Expansion of dollar signs and backquotes within double quotes: the only text put there is a single quote.
- Dictionaries with keys like `__proto__`, and the order in which keys that look like integers are listed.
- A `MaxConsoleCardStates` that is not a whole number.
- AppStates.AppState.UpdateVm: calls after an update that carried the key of another record are not modelled, as they expect unique keys; likewise for UpdateStoragePool and UpdateNetwork.
- `domainGet`, event handlers and the fetches themselves: their calls into the application state are the calls of a run.
- Port forwards: the translated words of the text, and ports that are numbers but not decimal numerals.
- Floating point: percentages and sizes are exact. `Math.log` in `getBestUnit` is replaced by an arbitrary unit, kept between MiB and GiB as the code does.
- `parseInt` of text with a sign or leading blanks, for PCI addresses; USB and SCSI node devices.
- Placeholders.UiState.UpdateImageDownloadProgress: without the optional settings, which no caller passes; they could mark a placeholder as being created without a timer.
- Sorting of volumes by `localeCompare`: any comparison.
- Networks, VNC, SPICE and serial console widgets, and comparisons for pending shutdowns.
