/** The "xilinx-alveo-quirk" (fpga-util.py:71-122): a two-phase, best-effort
    sequence of PCI configuration writes and sysfs remove/rescan writes around
    reprogramming a card. Each step either succeeds or fails; which ones fail
    is an input (`failures`, the positions in the step sequence that fail). */
module Quirk {
  import opened Text
  import opened Seqs
  import opened SysFs
  import opened Pci

  /** One effect the quirk issues. */
  datatype Step =
    | SetPci(device: string, assignment: string)  // `setpci -s <device> <assignment>`; fails on a non-zero exit
    | WriteOne(path: string)                       // `open(path, 'w').write('1\n')`; fails on an exception

  /** The registry `quirks = {'xilinx-alveo-quirk': xilinx_alveo_pciquirk}`. */
  predicate IsKnownQuirk(name: string)
  {
    name == "xilinx-alveo-quirk"
  }

  const PreFlash: int := 0
  const PostFlash: int := 1

  const RootRescan: string := "/sys/bus/pci/rescan"
  const MaskCommand: string := "COMMAND=0000:0100"
  const MaskCapability: string := "CAP_EXP+8.w=0000:0004"
  const EnableCommand: string := "COMMAND=0x02"

  function RemovePath(bridge: string, id: string): string
  {
    PciDevicesDir + "/" + bridge + "/" + id + "/remove"
  }

  function RescanPath(bridge: string): string
  {
    PciDevicesDir + "/" + bridge + "/rescan"
  }

  /** The functions whose `remove` control exists under the bridge. */
  function Removable(fs: FileSystem, bridge: string, ids: seq<string>): seq<string>
  {
    Filter(ids, id => Exists(fs, RemovePath(bridge, id)))
  }

  /** One hot-remove write per function, in order. */
  function RemoveSteps(bridge: string, ids: seq<string>): (r: seq<Step>)
    ensures |r| == |ids|
    ensures forall k :: 0 <= k < |ids| ==> r[k] == WriteOne(RemovePath(bridge, ids[k]))
  {
    if ids == [] then [] else RemoveSteps(bridge, ids[..|ids| - 1]) + [WriteOne(RemovePath(bridge, ids[|ids| - 1]))]
  }

  /** One `COMMAND=0x02` write per function, in order. */
  function CommandSteps(ids: seq<string>): (r: seq<Step>)
    ensures |r| == |ids|
    ensures forall k :: 0 <= k < |ids| ==> r[k] == SetPci(ids[k], EnableCommand)
  {
    if ids == [] then [] else CommandSteps(ids[..|ids| - 1]) + [SetPci(ids[|ids| - 1], EnableCommand)]
  }

  /** The steps `xilinx_alveo_pciquirk(state, fpga)` issues: `fs` is sysfs when
      the call starts, `rescanned` is sysfs after its rescan write. */
  function QuirkSteps(state: int, fs: FileSystem, rescanned: FileSystem, pciId: string): seq<Step>
  {
    var bridge := BridgeOf(fs, pciId);
    if state == PreFlash then
      if bridge.None? then []
      else [SetPci(bridge.value, MaskCommand), SetPci(bridge.value, MaskCapability)]
    else if state == PostFlash then
      (if bridge.Some? then
         RemoveSteps(bridge.value, Removable(fs, bridge.value, FunctionIds(PciDevices(fs), pciId)))
         + [WriteOne(RescanPath(bridge.value))]
       else [WriteOne(RootRescan)])
      + CommandSteps(FunctionIds(PciDevices(rescanned), pciId))
    else []
  }

  /** The phase can succeed at all: pre-flash needs a bridge, post-flash
      always runs, any other state returns False. */
  predicate Applicable(state: int, fs: FileSystem, pciId: string)
  {
    (state == PreFlash && BridgeOf(fs, pciId).Some?) || state == PostFlash
  }

  /** No issued step is among the failures. */
  predicate NoneFailed(steps: seq<Step>, failures: set<nat>)
  {
    forall k: nat :: k < |steps| ==> k !in failures
  }

  lemma NoneFailedSnoc(steps: seq<Step>, x: Step, failures: set<nat>)
    ensures NoneFailed(steps + [x], failures) <==> NoneFailed(steps, failures) && |steps| !in failures
  {
    if NoneFailed(steps, failures) && |steps| !in failures {
      forall k: nat | k < |steps + [x]| ensures k !in failures {
        if k < |steps| {
          assert k !in failures;
        }
      }
    }
  }

  /** The removal loop of fpga-util.py:88-96. */
  method RemoveFunctions(fs: FileSystem, b: string, deviceIds: seq<string>, failures: set<nat>)
    returns (error: bool, steps: seq<Step>)
    ensures steps == RemoveSteps(b, Removable(fs, b, deviceIds))
    ensures error <==> !NoneFailed(steps, failures)
  {
    error := false;
    steps := [];
    for k := 0 to |deviceIds|
      invariant steps == RemoveSteps(b, Removable(fs, b, deviceIds[..k]))
      invariant error <==> !NoneFailed(steps, failures)
    {
      FilterSnoc(deviceIds[..k], deviceIds[k], id => Exists(fs, RemovePath(b, id)));
      assert deviceIds[..k + 1] == deviceIds[..k] + [deviceIds[k]];
      ghost var r := Removable(fs, b, deviceIds[..k]);
      if Exists(fs, RemovePath(b, deviceIds[k])) {
        assert Removable(fs, b, deviceIds[..k + 1]) == r + [deviceIds[k]];
        assert (r + [deviceIds[k]])[..|r|] == r;
        NoneFailedSnoc(steps, WriteOne(RemovePath(b, deviceIds[k])), failures);
        error := error || |steps| in failures;
        steps := steps + [WriteOne(RemovePath(b, deviceIds[k]))];
      } else {
        assert Removable(fs, b, deviceIds[..k + 1]) == r;
      }
    }
    assert deviceIds[..|deviceIds|] == deviceIds;
  }

  /** The COMMAND loop of fpga-util.py:111-116, continuing the steps issued so far. */
  method EnableFunctions(deviceIds: seq<string>, issued: seq<Step>, errorSoFar: bool, failures: set<nat>)
    returns (error: bool, steps: seq<Step>)
    requires errorSoFar <==> !NoneFailed(issued, failures)
    ensures steps == issued + CommandSteps(deviceIds)
    ensures error <==> !NoneFailed(steps, failures)
  {
    error := errorSoFar;
    steps := issued;
    for k := 0 to |deviceIds|
      invariant steps == issued + CommandSteps(deviceIds[..k])
      invariant error <==> !NoneFailed(steps, failures)
    {
      assert deviceIds[..k + 1][..k] == deviceIds[..k];
      NoneFailedSnoc(steps, SetPci(deviceIds[k], EnableCommand), failures);
      error := error || |steps| in failures;
      steps := steps + [SetPci(deviceIds[k], EnableCommand)];
    }
    assert deviceIds[..|deviceIds|] == deviceIds;
  }

  /** `xilinx_alveo_pciquirk` (fpga-util.py:71-118). Every step of the phase is
      issued whatever the earlier ones did, and the result is true exactly when
      the phase applies and none of them failed. */
  method XilinxAlveoPciQuirk(state: int, fs: FileSystem, rescanned: FileSystem, pciId: string, failures: set<nat>)
    returns (ok: bool, steps: seq<Step>)
    ensures steps == QuirkSteps(state, fs, rescanned, pciId)
    ensures ok <==> Applicable(state, fs, pciId) && NoneFailed(steps, failures)
  {
    var bridgeId := GetBridgeId(fs, pciId);
    if state == 0 {
      ok, steps := MaskBridge(fs, rescanned, pciId, bridgeId, failures);
    } else if state == 1 {
      ok, steps := ResetFunctions(fs, rescanned, pciId, bridgeId, failures);
    } else {
      return false, [];
    }
  }

  /** Phase 0 (fpga-util.py:74-85): both masks written to the bridge. */
  method MaskBridge(fs: FileSystem, rescanned: FileSystem, pciId: string, bridgeId: Option<string>, failures: set<nat>)
    returns (ok: bool, steps: seq<Step>)
    requires bridgeId == BridgeOf(fs, pciId)
    ensures steps == QuirkSteps(PreFlash, fs, rescanned, pciId)
    ensures ok <==> Applicable(PreFlash, fs, pciId) && NoneFailed(steps, failures)
  {
    PreFlashSteps(fs, rescanned, pciId, failures);
    if bridgeId.None? {
      return false, [];
    }
    var error := false;
    steps := [SetPci(bridgeId.value, MaskCommand)];
    error := error || 0 in failures;
    steps := steps + [SetPci(bridgeId.value, MaskCapability)];
    error := error || 1 in failures;
    return !error, steps;
  }

  /** Phase 1 (fpga-util.py:86-117): removals and a rescan, then the COMMAND
      rewrites on the functions found after the rescan. */
  method ResetFunctions(fs: FileSystem, rescanned: FileSystem, pciId: string, bridgeId: Option<string>, failures: set<nat>)
    returns (ok: bool, steps: seq<Step>)
    requires bridgeId == BridgeOf(fs, pciId)
    ensures steps == QuirkSteps(PostFlash, fs, rescanned, pciId)
    ensures ok <==> Applicable(PostFlash, fs, pciId) && NoneFailed(steps, failures)
  {
    var error := false;
    if bridgeId.Some? {
      var b := bridgeId.value;
      var deviceIds := GetDeviceIds(fs, pciId);
      error, steps := RemoveFunctions(fs, b, deviceIds, failures);
      NoneFailedSnoc(steps, WriteOne(RescanPath(b)), failures);
      error := error || |steps| in failures;
      steps := steps + [WriteOne(RescanPath(b))];
    } else {
      NoneFailedSnoc([], WriteOne(RootRescan), failures);
      error := error || 0 in failures;
      steps := [WriteOne(RootRescan)];
    }
    var deviceIds := GetDeviceIds(rescanned, pciId);
    error, steps := EnableFunctions(deviceIds, steps, error, failures);
    return !error, steps;
  }

  /** Post-flash without a bridge: the only write is the bus-wide rescan, it
      comes first, and every function found after it gets its COMMAND rewrite. */
  lemma PostFlashWithoutBridge(fs: FileSystem, rescanned: FileSystem, pciId: string)
    requires BridgeOf(fs, pciId).None?
    ensures var steps := QuirkSteps(PostFlash, fs, rescanned, pciId);
      && steps[0] == WriteOne(RootRescan)
      && (forall k :: 1 <= k < |steps| ==> steps[k].SetPci?)
      && forall id :: id in FunctionIds(PciDevices(rescanned), pciId) ==> SetPci(id, EnableCommand) in steps
  {
    var steps := QuirkSteps(PostFlash, fs, rescanned, pciId);
    var after := FunctionIds(PciDevices(rescanned), pciId);
    var writes := CommandSteps(after);
    assert steps == [WriteOne(RootRescan)] + writes;
    forall id | id in after ensures SetPci(id, EnableCommand) in steps {
      var k :| 0 <= k < |after| && after[k] == id;
      assert steps[k + 1] == writes[k];
    }
  }

  /** Post-flash with a bridge: first a remove write for each function whose
      control exists, then one rescan of that bridge and never the bus-wide one,
      then a COMMAND rewrite for every function found after the rescan. */
  lemma PostFlashWithBridge(fs: FileSystem, rescanned: FileSystem, pciId: string)
    requires BridgeOf(fs, pciId).Some?
    ensures var b := BridgeOf(fs, pciId).value;
      var removed := Removable(fs, b, FunctionIds(PciDevices(fs), pciId));
      var steps := QuirkSteps(PostFlash, fs, rescanned, pciId);
      && |steps| > |removed|
      && (forall k :: 0 <= k < |removed| ==> steps[k] == WriteOne(RemovePath(b, removed[k])))
      && steps[|removed|] == WriteOne(RescanPath(b))
      && (forall k :: |removed| < k < |steps| ==> steps[k].SetPci?)
      && WriteOne(RootRescan) !in steps
      && forall id :: id in FunctionIds(PciDevices(rescanned), pciId) ==> SetPci(id, EnableCommand) in steps
  {
    var b := BridgeOf(fs, pciId).value;
    var removed := Removable(fs, b, FunctionIds(PciDevices(fs), pciId));
    var after := FunctionIds(PciDevices(rescanned), pciId);
    assert QuirkSteps(PostFlash, fs, rescanned, pciId) == BridgeSteps(b, removed, after);
    BridgeHead(b, removed, after);
    BridgeTail(b, removed, after);
    BridgeNoRoot(b, removed, after);
  }

  /** The post-flash steps with a bridge, whatever the lists. */
  function BridgeSteps(b: string, removed: seq<string>, after: seq<string>): seq<Step>
  {
    RemoveSteps(b, removed) + [WriteOne(RescanPath(b))] + CommandSteps(after)
  }

  /** They start with the removals and then the bridge rescan... */
  lemma BridgeHead(b: string, removed: seq<string>, after: seq<string>)
    ensures var steps := BridgeSteps(b, removed, after);
      && |steps| > |removed|
      && (forall k :: 0 <= k < |removed| ==> steps[k] == WriteOne(RemovePath(b, removed[k])))
      && steps[|removed|] == WriteOne(RescanPath(b))
  {
    var steps := BridgeSteps(b, removed, after);
    var head := RemoveSteps(b, removed) + [WriteOne(RescanPath(b))];
    forall k | 0 <= k < |removed| ensures steps[k] == WriteOne(RemovePath(b, removed[k])) {
      assert steps[k] == head[k];
    }
    assert steps[|removed|] == head[|removed|];
  }

  /** ...and end with one COMMAND rewrite for each function of `after`. */
  lemma BridgeTail(b: string, removed: seq<string>, after: seq<string>)
    ensures var steps := BridgeSteps(b, removed, after);
      && (forall k :: |removed| < k < |steps| ==> steps[k] == SetPci(after[k - |removed| - 1], EnableCommand))
      && forall id :: id in after ==> SetPci(id, EnableCommand) in steps
  {
    var steps := BridgeSteps(b, removed, after);
    var head := RemoveSteps(b, removed) + [WriteOne(RescanPath(b))];
    var writes := CommandSteps(after);
    forall k | |removed| < k < |steps| ensures steps[k] == SetPci(after[k - |removed| - 1], EnableCommand) {
      assert steps[k] == writes[k - |head|];
    }
    forall id | id in after ensures SetPci(id, EnableCommand) in steps {
      var k :| 0 <= k < |after| && after[k] == id;
      assert steps[|head| + k] == writes[k];
    }
  }

  /** Removal and bridge rescan paths lie under the devices directory, so none
      of them is the bus-wide rescan. */
  lemma BridgeNoRoot(b: string, removed: seq<string>, after: seq<string>)
    ensures WriteOne(RootRescan) !in BridgeSteps(b, removed, after)
  {
    var steps := BridgeSteps(b, removed, after);
    BridgeHead(b, removed, after);
    BridgeTail(b, removed, after);
    assert RootRescan[13] == 'r';
    forall k | 0 <= k < |steps| ensures steps[k] != WriteOne(RootRescan) {
      if k < |removed| {
        assert RemovePath(b, removed[k])[13] == 'd';
      } else if k == |removed| {
        assert RescanPath(b)[13] == 'd';
      }
    }
  }

  /** The pre-flash phase writes the two masks to the bridge, in this order,
      and succeeds exactly when there is a bridge and neither write fails;
      without a bridge it issues nothing and fails. */
  lemma PreFlashSteps(fs: FileSystem, rescanned: FileSystem, pciId: string, failures: set<nat>)
    ensures var steps := QuirkSteps(PreFlash, fs, rescanned, pciId);
      && (BridgeOf(fs, pciId).None? ==> steps == [])
      && (BridgeOf(fs, pciId).Some? ==>
            steps == [SetPci(BridgeOf(fs, pciId).value, MaskCommand), SetPci(BridgeOf(fs, pciId).value, MaskCapability)])
      && (Applicable(PreFlash, fs, pciId) && NoneFailed(steps, failures)
          <==> BridgeOf(fs, pciId).Some? && 0 !in failures && 1 !in failures)
  {
    var steps := QuirkSteps(PreFlash, fs, rescanned, pciId);
    if BridgeOf(fs, pciId).Some? && NoneFailed(steps, failures) {
      assert 0 < |steps| && 1 < |steps|;
    }
  }

  /** A state other than the two phases issues nothing and fails. */
  lemma OtherStateFails(state: int, fs: FileSystem, rescanned: FileSystem, pciId: string)
    requires state != PreFlash && state != PostFlash
    ensures QuirkSteps(state, fs, rescanned, pciId) == [] && !Applicable(state, fs, pciId)
  {
  }
}
