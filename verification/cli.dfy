/** The top-level sequence of the tool once it holds the global lock
    (fpga-util.py:191-367): read the table, stop early when there is nothing
    to do, choose the cards, then allocate, flash, release and list devices,
    in that order. */
module Cli {
  import opened SysFs
  import opened Resolver
  import opened Mapping
  import opened Selection
  import opened Ledger
  import opened Flash

  /** How the tool goes on after choosing the cards. */
  datatype Start =
    | Stop(exitCode: int)                  // it exits before touching anything
    | Act(table: Table, ids: seq<string>)  // it acts on these cards

  /** fpga-util.py:192-265: the early exits, or the table and the cards. */
  function Begin(lines: seq<string>, mappingDir: string, fs: FileSystem, markers: Markers,
                 cmd: Command, ids: seq<string>, applyForce: bool, userId: int): (r: Start)
    ensures r.Act? ==> ValidTable(r.table) && AllKnown(r.table, r.ids)
  {
    var t := Load(lines, mappingDir, fs, markers).table;
    LoadIsValid(lines, mappingDir, fs, markers);
    if |t.order| == 0 then Stop(-1)
    else if ListOnly(cmd) then Stop(0)
    else
      var requested := DefaultIds(t, cmd, applyForce, userId, ids);
      match Select(requested, t, cmd, applyForce, userId)
      case Raised => Stop(1)       // the uncaught TypeError
      case Selected(sel) =>
        SelectedAreKnown(requested, t, cmd, applyForce, userId);
        if sel == [] then Stop(-1) else Act(t, sel)
  }

  /** The tool never acts on an empty table or without an action; it stops
      with -1 when no card passes the filter and with 1 when the filter
      raises; otherwise it acts on the kept cards, all known and all passing
      the ownership rules. */
  lemma BeginMeaning(lines: seq<string>, mappingDir: string, fs: FileSystem, markers: Markers,
                     cmd: Command, ids: seq<string>, applyForce: bool, userId: int)
    ensures var s := Begin(lines, mappingDir, fs, markers, cmd, ids, applyForce, userId);
      && (Load(lines, mappingDir, fs, markers).table.order == [] ==> s == Stop(-1))
      && (Load(lines, mappingDir, fs, markers).table.order != [] && ListOnly(cmd) ==> s == Stop(0))
      && ValidTable(Load(lines, mappingDir, fs, markers).table)
      && (var t := Load(lines, mappingDir, fs, markers).table;
          var chosen := Select(DefaultIds(t, cmd, applyForce, userId, ids), t, cmd, applyForce, userId);
          t.order != [] && !ListOnly(cmd) ==>
            && (chosen == Selected([]) ==> s == Stop(-1))
            && (chosen.Raised? ==> s == Stop(1))
            && (chosen.Selected? && chosen.ids != [] ==> s == Act(t, chosen.ids)))
      && (s.Act? ==>
            && s.table == Load(lines, mappingDir, fs, markers).table
            && s.ids != [] && !ListOnly(cmd)
            && forall i :: i in s.ids ==> Judge(Name(i), s.table, cmd, applyForce, userId) == Accepted)
  {
    var s := Begin(lines, mappingDir, fs, markers, cmd, ids, applyForce, userId);
    var t := Load(lines, mappingDir, fs, markers).table;
    LoadIsValid(lines, mappingDir, fs, markers);
    if t.order != [] && !ListOnly(cmd) {
      var requested := DefaultIds(t, cmd, applyForce, userId, ids);
      var chosen := Select(requested, t, cmd, applyForce, userId);
      BeginAfterFilter(lines, mappingDir, fs, markers, cmd, ids, applyForce, userId);
      if chosen.Selected? && chosen.ids != [] {
        SelectedIds(requested, t, cmd, applyForce, userId);
      }
    }
  }

  /** Past the early exits, the outcome of the filter decides how the tool goes on. */
  lemma BeginAfterFilter(lines: seq<string>, mappingDir: string, fs: FileSystem, markers: Markers,
                         cmd: Command, ids: seq<string>, applyForce: bool, userId: int)
    requires Load(lines, mappingDir, fs, markers).table.order != [] && !ListOnly(cmd)
    requires ValidTable(Load(lines, mappingDir, fs, markers).table)
    ensures var t := Load(lines, mappingDir, fs, markers).table;
      var chosen := Select(DefaultIds(t, cmd, applyForce, userId, ids), t, cmd, applyForce, userId);
      Begin(lines, mappingDir, fs, markers, cmd, ids, applyForce, userId)
        == (if chosen.Raised? then Stop(1) else if chosen.ids == [] then Stop(-1) else Act(t, chosen.ids))
  {
  }

  /** A caller other than uid 0 who allocates and also flashes, releases or
      lists devices, without force, never gets past the filter: the tool
      exits with -1 and acts on nothing. */
  lemma MixedRunStops(lines: seq<string>, mappingDir: string, fs: FileSystem, markers: Markers, cmd: Command, ids: seq<string>, userId: int)
    requires cmd.allocate && ActsOnOwned(cmd) && userId != 0
    ensures Begin(lines, mappingDir, fs, markers, cmd, ids, false, userId) == Stop(-1)
  {
    var t := Load(lines, mappingDir, fs, markers).table;
    LoadIsValid(lines, mappingDir, fs, markers);
    if t.order != [] {
      MixedActionsSelectNothing(t, cmd, userId, ids);
    }
  }

  /** An administrator's forced run without ids stops on the TypeError. */
  lemma ForcedRunWithoutIdsStops(lines: seq<string>, mappingDir: string, fs: FileSystem, markers: Markers, cmd: Command, userId: int)
    requires Load(lines, mappingDir, fs, markers).table.order != [] && !ListOnly(cmd)
    ensures Begin(lines, mappingDir, fs, markers, cmd, [], true, userId) == Stop(1)
  {
    LoadIsValid(lines, mappingDir, fs, markers);
    ForceWithoutIdsRaises(Load(lines, mappingDir, fs, markers).table, cmd, userId);
  }

  /** The tool under the lock. `fs` is sysfs while the table is read and
      cards are allocated, `attempt(k)` what happens while the `k`-th card
      is flashed, and `later` sysfs for the release and device listing.
      `devices` is what `--devices` prints. */
  method Run(host: Host, lines: seq<string>, mappingDir: string, fs: FileSystem, cmd: Command, ids: seq<string>,
             applyForce: bool, userId: int, attempt: nat -> Attempt, vivado: string, bitstream: string, later: FileSystem)
    returns (exitCode: int, devices: seq<string>)
    modifies host
    ensures var s := Begin(lines, mappingDir, fs, old(host.markers), cmd, ids, applyForce, userId);
      s.Stop? ==> exitCode == s.exitCode && devices == [] && host.markers == old(host.markers) && host.owners == old(host.owners)
    ensures var s := Begin(lines, mappingDir, fs, old(host.markers), cmd, ids, applyForce, userId);
      s.Act? ==>
        var held := if cmd.allocate then Allocated(old(host.markers), Serials(s.table, s.ids), userId) else old(host.markers);
        var failed := cmd.flash && FlashFails(s.table, s.ids, attempt, vivado, bitstream);
        && exitCode == (if failed then -1 else 0)
        && host.markers == (if !failed && cmd.release then Released(held, Serials(s.table, s.ids)) else held)
        && devices == (if !failed && cmd.devices then CardNodes(later, s.table, s.ids) else [])
        && host.owners == OwnersAfter(old(host.owners), old(host.markers), s.table, s.ids, cmd, userId, fs, attempt, vivado, bitstream, later)
  {
    ghost var begin := Begin(lines, mappingDir, fs, host.markers, cmd, ids, applyForce, userId);
    var fpgaMapping, missing := LoadMapping(lines, mappingDir, fs, host.markers);
    LoadIsValid(lines, mappingDir, fs, host.markers);
    if |fpgaMapping.order| == 0 {
      return -1, [];
    }
    if ListOnly(cmd) {
      return 0, [];
    }
    var requested := DefaultIds(fpgaMapping, cmd, applyForce, userId, ids);
    var outcome := FilterIds(requested, fpgaMapping, cmd, applyForce, userId);
    if outcome.Raised? {
      return 1, [];
    }
    var sel := outcome.ids;
    if |sel| == 0 {
      return -1, [];
    }
    assert begin == Act(fpgaMapping, sel);
    exitCode, devices := Perform(host, fpgaMapping, sel, cmd, userId, fs, attempt, vivado, bitstream, later);
  }

  /** The attempts for `n` cards. */
  function Attempts(attempt: nat -> Attempt, n: nat): (r: seq<Attempt>)
    ensures |r| == n && forall k :: 0 <= k < n ==> r[k] == attempt(k)
  {
    seq(n, k requires 0 <= k < n => attempt(k))
  }

  /** The flash batch ends with a failed run. */
  predicate FlashFails(t: Table, ids: seq<string>, attempt: nat -> Attempt, vivado: string, bitstream: string)
  {
    && AllKnown(t, ids)
    && var rs := Batch(t, ids, Attempts(attempt, |ids|), FlashTurn(vivado, bitstream));
       rs != [] && rs[|rs| - 1].exitCode != 0
  }

  /** The owner of every device node after the actions: the allocation hands
      the chosen cards' nodes to the caller, flashing hands over the nodes of
      each card flashed successfully, and the release (skipped after a failed
      flash) gives the nodes of the cards that still have a marker to uid 0. */
  function OwnersAfter(owners: map<string, int>, markers: Markers, t: Table, sel: seq<string>, cmd: Command, userId: int,
                       fs: FileSystem, attempt: nat -> Attempt, vivado: string, bitstream: string, later: FileSystem): map<string, int>
    requires AllKnown(t, sel)
  {
    var held := if cmd.allocate then Allocated(markers, Serials(t, sel), userId) else markers;
    var handed := if cmd.allocate then Chown(owners, Elems(CardNodes(fs, t, sel)), userId) else owners;
    var flashed :=
      if cmd.flash then Chown(handed, OwnedNodes(Batch(t, sel, Attempts(attempt, |sel|), FlashTurn(vivado, bitstream))), userId)
      else handed;
    if (cmd.flash && FlashFails(t, sel, attempt, vivado, bitstream)) || !cmd.release then flashed
    else Chown(flashed, Elems(CardNodes(later, t, Held(held, t, sel))), 0)
  }

  /** The actions on the chosen cards (fpga-util.py:267-367): allocation,
      then flashing, then (unless flashing failed) release and the device
      listing. */
  method Perform(host: Host, t: Table, sel: seq<string>, cmd: Command, userId: int, fs: FileSystem,
                 attempt: nat -> Attempt, vivado: string, bitstream: string, later: FileSystem)
    returns (exitCode: int, devices: seq<string>)
    requires ValidTable(t) && AllKnown(t, sel)
    modifies host
    ensures var held := if cmd.allocate then Allocated(old(host.markers), Serials(t, sel), userId) else old(host.markers);
      var failed := cmd.flash && FlashFails(t, sel, attempt, vivado, bitstream);
      && exitCode == (if failed then -1 else 0)
      && host.markers == (if !failed && cmd.release then Released(held, Serials(t, sel)) else held)
      && devices == (if !failed && cmd.devices then CardNodes(later, t, sel) else [])
    ensures host.owners == OwnersAfter(old(host.owners), old(host.markers), t, sel, cmd, userId, fs, attempt, vivado, bitstream, later)
  {
    devices := [];
    if cmd.allocate {
      host.Allocate(fs, t, sel, userId);
    }
    if cmd.flash {
      var attempts := Attempts(attempt, |sel|);
      var reports, failed := FlashBatch(host, t, sel, attempts, vivado, bitstream, userId);
      if failed {
        return -1, [];
      }
    }
    if cmd.release {
      host.Release(later, t, sel);
    }
    if cmd.devices {
      devices := DeviceList(later, t, sel);
    }
    return 0, devices;
  }

  /** The `--devices` block (fpga-util.py:363-367): every node of every card,
      card by card. */
  method DeviceList(fs: FileSystem, t: Table, ids: seq<string>) returns (out: seq<string>)
    requires AllKnown(t, ids)
    ensures out == CardNodes(fs, t, ids)
  {
    out := [];
    for k := 0 to |ids|
      invariant out == CardNodes(fs, t, ids[..k])
    {
      assert ids[..k + 1][..k] == ids[..k];
      var devs := GetFpgaDevs(fs, t.entries[ids[k]].pciId);
      out := out + devs;
    }
    assert ids[..|ids|] == ids;
  }
}
