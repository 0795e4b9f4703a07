/**
 * The boot driver and the slot switch application as they run
 * (GPLDrivers/Drivers/BootSlotDxe/BootSlotDxe.c, GPLDrivers/Application/SwitchSlotsApp/SwitchSlotsApp.c).
 * The device type, the storage and the enumerated handles are parameters.
 */
module SlotPrograms {
  import opened SlotTypes
  import opened SlotSpec
  import opened SlotDrivers
  import opened SlotEngine

  /** GetCurrentSlotSuffix; the status of GetActiveSlot is dropped. */
  method CurrentSuffix(engine: Engine) returns (suffix: Str16)
    requires engine.Valid()
    modifies engine, engine.ptnEntries, engine.ptnEntriesBak
    ensures engine.Valid()
    ensures var r := GetCurrentSlotSuffix(old(engine.State())); engine.State() == r.st && suffix == r.suffix
  {
    hide LunOk, BlocksOk, GetActiveSlot, PartitionHasMultiSlot;
    var isMultiSlot := engine.PartitionHasMultiSlot(BOOT);
    if !isMultiSlot {
      return [];
    }
    var status;
    status, suffix := engine.GetActiveSlot();
  }

  /** One turn of the loop over the slots. */
  method RescueSlot(engine: Engine, slot: Str16)
    requires engine.Valid()
    modifies engine, engine.ptnEntries, engine.ptnEntriesBak
    ensures engine.Valid() && engine.State() == Rescue(old(engine.State()), slot)
  {
    hide LunOk, BlocksOk, IsSlotBootable, ClearUnbootable;
    var bootable := engine.IsSlotBootable(slot);
    if !bootable {
      var status := engine.ClearUnbootable(slot);
    }
  }

  method BootSlotMain(device: Device, bootLun: nat, luns: seq<Lun>, handles: seq<seq<Handle>>) returns (status: Status, engine: Engine)
    requires Startable(device, luns, handles) && forall l :: 0 <= l < |luns| ==> BlocksOk(luns[l])
    ensures fresh(engine) && engine.Valid()
    ensures (status, engine.State()) == SlotDrivers.BootSlotMain(device, bootLun, luns, handles)
  {
    hide LunOk, BlocksOk, Rescue, SetActiveSlot, GetCurrentSlotSuffix, PartitionHasMultiSlot, UpdatePartitionEntries, PlacesOk;
    engine := new Engine(device, bootLun, luns);
    if device.UnknownDevice? {
      return Success, engine;
    }
    engine.UpdatePartitionEntries(handles);
    assert engine.State() == Load(device, bootLun, luns, handles);
    var multiSlotSupported := engine.PartitionHasMultiSlot(BOOT);
    if !multiSlotSupported {
      return Success, engine;
    }
    ghost var loaded := engine.State();
    var currentSlot := CurrentSuffix(engine);
    ghost var found := GetCurrentSlotSuffix(loaded);
    if currentSlot == [] {
      currentSlot := SUFFIX_A;
    }
    FoundNames(loaded);
    RescueSlot(engine, SUFFIX_A);
    RescueSlot(engine, SUFFIX_B);
    status := engine.SetActiveSlot(currentSlot, false, true);
  }

  lemma FoundNames(st: State)
    requires StateOk(st) && NamesFit(st.mem)
    ensures NamesFit(GetCurrentSlotSuffix(st).st.mem)
  {
    hide GetActiveSlot, PartitionHasMultiSlot;
    NamesKeptByGet(st);
  }

  /** Up to the reset of the machine. */
  method SwitchSlotsAppEntryPoint(device: Device, bootLun: nat, luns: seq<Lun>, handles: seq<seq<Handle>>)
    returns (status: Status, engine: Engine)
    requires Startable(device, luns, handles) && forall l :: 0 <= l < |luns| ==> BlocksOk(luns[l])
    ensures fresh(engine) && engine.Valid()
    ensures (status, engine.State()) == SwitchSlots(device, bootLun, luns, handles)
  {
    hide LunOk, BlocksOk, SetActiveSlot, GetCurrentSlotSuffix, PartitionHasMultiSlot, UpdatePartitionEntries, PlacesOk, UpdatePartitionAttributes;
    engine := new Engine(device, bootLun, luns);
    if device.UnknownDevice? {
      return Unsupported, engine;
    }
    engine.UpdatePartitionEntries(handles);
    assert engine.State() == Load(device, bootLun, luns, handles);
    var multiSlotSupported := engine.PartitionHasMultiSlot(BOOT);
    if !multiSlotSupported {
      return Unsupported, engine;
    }
    ghost var loaded := engine.State();
    FoundNames(loaded);
    var currentSlot := CurrentSuffix(engine);
    if currentSlot == [] {
      return NotReady, engine;
    }
    var newSlot := if HasPrefix(currentSlot, SUFFIX_A) then SUFFIX_B else SUFFIX_A;
    status := engine.SetActiveSlot(newSlot, true, false);
    if status != Success {
      return;
    }
    engine.UpdatePartitionAttributes(PARTITION_GUID);
    engine.UpdatePartitionAttributes(PARTITION_ATTRIBUTES);
  }
}
