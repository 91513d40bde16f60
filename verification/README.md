# fpga-util in Dafny

`fpga-util.py` hands out the FPGA cards of a shared host to users. A card is
one line of a device table (`serial pci_id quirk board script`). A card is
held by a user while a marker file named after its serial, holding the
user's uid, exists in the ledger directory. The tool allocates cards
(writes the marker and hands the card's device nodes to the user). It
flashes them: it runs Vivado under the user's identity, wrapped in the
"xilinx-alveo-quirk" PCI bridge reset and rescan. It releases them (hands
the nodes back to root and removes the marker), and it lists their device
nodes.

This project models the decision core of that script, with the operating
system replaced by inputs:

- **SysFs** (`sysfs.dfy`): a snapshot of the filesystem. It has regular
  files with their lines, directories with their listings, other existing
  entries (device nodes, sysfs attributes) and symbolic links.
- **Text** (`text.dfy`): the Python string operations the script relies on.
  These are `split`, `strip`, `replace` (left to right, non-overlapping),
  `int()` and `str()`.
- **Seqs** (`seqs.dfy`): order-preserving filtering of lists.
- **Pci** (`pci.dfy`): the regular expression that recognises a card's PCI
  functions in `/sys/bus/pci/devices`, plus `get_fpga_device_ids` and
  `get_fpga_bridge_id`.
- **Uevent** (`uevent.dfy`): `readUevent`, the `KEY=value` metadata of a
  sysfs directory.
- **Resolver** (`resolver.dfy`): `xdmaResolver` and `get_fpga_devs`, the
  device nodes of a card found through the driver bound to each of its
  functions.
- **Quirk** (`quirk.dfy`): `xilinx_alveo_pciquirk`, modelled as the
  sequence of steps it issues plus its verdict. Each step is a `setpci`
  write or a write of `1` to a sysfs control. Which steps fail is an input.
- **Mapping** (`mapping.dfy`): reading the device table into the
  insertion-ordered dictionary `fpgaMapping`. Each card's owner is taken
  from its marker.
- **Selection** (`selection.dfy`): the default ids and the eligibility
  filter.
- **Ledger** (`ledger.dfy`): the class `Host`, holding the marker files and
  the owner of each device node. It offers `ownFpgaDevs`, allocation and
  release.
- **Flash** (`flash.dfy`): the flash loop. What happens to each card is an
  input `Attempt`: Vivado's exit code, sysfs as each phase sees it, the
  failing quirk steps, and whether a signal arrived while Vivado ran.
  `Batch` takes the per-card turn as a parameter (`FlashTurn` is the
  tool's), so its stopping rules hold for any turn.
- **Cli** (`cli.dfy`): the top-level sequence under the global lock, from
  reading the table to the device listing, with its exit status.

Where the script's code and what it evidently means to do part ways, the
model follows the code:

- **A signal during a Vivado run never stops the batch.** The handler is
  installed only while Vivado runs (fpga-util.py:312-324). It prints
  `interrupt received, exiting gracefully...` (fpga-util.py:309), and the
  loop tests `thisInterrupt` before moving to the next card
  (fpga-util.py:345), so the batch is meant to stop. But the handler
  assigns a local `thisInterrupt` of its own (fpga-util.py:310), so such a
  signal never sets the loop's flag (`Flash.SignalsIgnored`).
- **A forced run without ids crashes.** An administrator's `--force` with
  no ids builds `list(fpgaMapping.items())`, a list of `(key, dict)` tuples
  (fpga-util.py:241). The membership test `i not in fpgaMapping`
  (fpga-util.py:249) must hash the tuple, and hashing the dictionary inside
  it raises `TypeError`. The uncaught exception ends the run with exit
  status 1 before anything is allocated, flashed or released
  (`Selection.ForceWithoutIdsRaises`, `Cli.ForcedRunWithoutIdsStops`). The
  model does not treat these tuples as unknown ids that are dropped.
- **Post-flash steps.** The post-flash quirk writes `remove` only for the
  functions whose `remove` control exists (fpga-util.py:90). It rewrites
  `COMMAND` on the functions enumerated again after the rescan
  (fpga-util.py:111), not on those found before it.
- **A free card counts as root's.** The owner is Python's `False` or an
  int, and `False == 0`. So where the code compares with `==`/`!=`
  (fpga-util.py:245, 255), a free card counts as owned by uid 0
  (`Selection.SameUser`). Where it tests `is False` (fpga-util.py:243, 252),
  a free card does not count as owned.
  One consequence: a caller other than uid 0 who combines `--allocate` with
  `--flash`, `--release` or `--devices`, without `--force`, never keeps a
  card. Allocation needs `user_id is False`, and the other actions need
  `user_id == userId`, which `False` meets only for uid 0. The run ends
  with status -1 (`Selection.MixedActionsKeepNothing`,
  `Cli.MixedRunStops`).

## Model

| member | source | states |
|---|---|---|
| Text.JoinSplit | fpga-util.py:195 | joining the pieces of `s.split(sep)` with `sep` gives back `s` |
| Text.SplitJoin | fpga-util.py:195 | splitting a join of separator-free pieces gives back exactly those pieces |
| Text.SplitPiecesFree | fpga-util.py:37 | no piece of a split contains the separator |
| Text.SplitHasTwoPieces | fpga-util.py:37 | a split has at least two pieces iff the separator occurs in the string |
| Text.StripLeft | fpga-util.py:37 | the result is a suffix of the input that does not start with a stripped character, and everything removed is a stripped character |
| Text.StripRight | fpga-util.py:194 | the result is a prefix of the input that does not end with a stripped character, and everything removed is a stripped character |
| Text.ReplaceChar | fpga-util.py:194 | `replace('\t', ' ')` keeps the length and turns exactly the tabs into spaces |
| Text.ReplaceAbsent | fpga-util.py:194 | replacing a pattern that never occurs changes nothing |
| Text.IntRoundTrip | fpga-util.py:201 | `int(str(n)) == n` for every integer, so the marker that allocation writes reads back as the same uid |
| SysFs.PathParts | fpga-util.py:20-22 | the parent directory and base name of `d/b` are `d` and `b` |
| Pci.AddressMatches | fpga-util.py:19 | every `0000:<pci_id>:<hex><hex>.<0-7>` entry matches the card's pattern, also with one trailing newline (Python's `$`) |
| Pci.MatchIsAddress | fpga-util.py:19 | every entry that matches has exactly that form, optionally followed by one newline |
| Pci.FunctionOfOneCard | fpga-util.py:19 | an entry matches the pattern of at most one PCI id |
| Pci.FunctionIdsExact | fpga-util.py:25-30 | the functions found are exactly the matching listing entries, in listing order, with nothing added |
| Pci.GetDeviceIds | fpga-util.py:25-30 | the loop returns the matching entries of `/sys/bus/pci/devices` in listing order |
| Pci.FirstCandidateGivesBridge | fpga-util.py:17-23 | the bridge is the parent directory's name for the first matching entry whose resolved parent exists |
| Pci.NoCandidateNoBridge | fpga-util.py:17-23 | with no such entry there is no bridge |
| Pci.NoFunctionNoBridge | fpga-util.py:17-23 | a card with no enumerated function has no bridge |
| Pci.GetBridgeId | fpga-util.py:17-23 | the loop returns the first candidate's bridge, or none |
| Uevent.LastDefinitionWins | fpga-util.py:36-38 | a key maps to the value of the last line defining it (the text between the first and second `=`) |
| Uevent.UndefinedKeyAbsent | fpga-util.py:36-38 | a key that no line defines is absent; lines with fewer than two `=`-separated fields define nothing |
| Uevent.ValueStopsAtSecondEquals | fpga-util.py:37 | `KEY=a=b` gives `KEY` the value `a` |
| Uevent.ParseUevent | fpga-util.py:36-38 | the dictionary comprehension over the lines; its meaning is stated by `Uevent.LastDefinitionWins` and `Uevent.UndefinedKeyAbsent` |
| Uevent.ReadUevent | fpga-util.py:33-38 | `readUevent`: the parsed `uevent` file, or nothing when it does not exist (`Uevent.AbsentUeventIsEmpty`) |
| Uevent.AbsentUeventIsEmpty | fpga-util.py:34-35 | a directory without a `uevent` file yields no metadata |
| Resolver.XdmaResolver | fpga-util.py:40-48 | the existing `resource`, `resource0`, `resource1` files first, in that order, then `/dev/<DEVNAME>` for each `xdma/` subdirectory naming a live node, in listing order |
| Resolver.Resolve | fpga-util.py:50-52 | a driver has a resolver iff it is `xdma`, and that resolver yields the xdma nodes |
| Resolver.GetFpgaDevs | fpga-util.py:54-63 | the loop returns the concatenation of the functions' nodes, in enumeration order |
| Resolver.NodesOfAppend | fpga-util.py:56-61 | the nodes of a concatenation of functions are the concatenation of their nodes |
| Resolver.UnresolvedFunctionContributesNothing | fpga-util.py:59-60 | a function without `DRIVER`, or with a driver that has no resolver, adds no node wherever it sits |
| Resolver.CharDevNodesExist | fpga-util.py:47 | every `/dev` node the xdma listing yields exists |
| Resolver.XdmaNodesExist | fpga-util.py:42-47 | every node the xdma resolver yields exists |
| Resolver.NodesOfExist | fpga-util.py:56-61 | every node of any list of functions exists |
| Resolver.FpgaDevsExist | fpga-util.py:54-63 | every node of a card exists, and a card with no enumerated function has none |
| Quirk.RemoveSteps | fpga-util.py:89-94 | one `remove` write per function, in the given order |
| Quirk.CommandSteps | fpga-util.py:112-115 | one `COMMAND=0x02` write per function, in the given order |
| Quirk.RemoveFunctions | fpga-util.py:88-96 | writes `remove` for each function whose control exists, in order, and reports an error iff one of those writes fails |
| Quirk.EnableFunctions | fpga-util.py:111-116 | appends one `COMMAND=0x02` per function, and the error flag becomes true iff any step so far failed |
| Quirk.MaskBridge | fpga-util.py:74-85 | the pre-flash phase issues exactly its steps (nothing without a bridge) and succeeds iff there is a bridge and no step failed |
| Quirk.ResetFunctions | fpga-util.py:86-117 | the post-flash phase issues exactly its steps and succeeds iff it can and no issued step failed |
| Quirk.XilinxAlveoPciQuirk | fpga-util.py:71-118 | issues exactly the phase's steps and returns true iff the phase can succeed and no issued step failed |
| Quirk.PreFlashSteps | fpga-util.py:74-85 | phase 0 writes the two masks to the bridge, in order, and succeeds iff there is a bridge and neither write fails; without a bridge it issues nothing |
| Quirk.PostFlashWithoutBridge | fpga-util.py:103-116 | phase 1 without a bridge: the root rescan first, then only `setpci` writes, covering every function found after the rescan |
| Quirk.PostFlashWithBridge | fpga-util.py:87-116 | phase 1 with a bridge: the removals first, then the bridge rescan, then only `setpci` writes, covering every function found after the rescan; the root rescan is never written |
| Quirk.OtherStateFails | fpga-util.py:118 | any state other than 0 and 1 issues nothing and returns false |
| Mapping.MarkerOwner | fpga-util.py:199-205 | the owner is a uid iff the marker exists, has a first line and `int()` accepts it, and that uid is the parsed value; otherwise the card is free |
| Mapping.ParseLine | fpga-util.py:194-215 | what one line of the table yields: dropped, a missing-script diagnostic, or an entry; its meaning is stated by `Mapping.ParseLineMeaning` |
| Mapping.ParseLineMeaning | fpga-util.py:194-215 | a line is an entry iff it has five fields and its script exists, and a diagnostic naming the resolved script iff it has five fields and its script does not; an entry holds fields 0-3 as serial, PCI id, quirk and board, the resolved script and the marker's owner |
| Mapping.LoadMapping | fpga-util.py:192-215 | the loop builds the table and the list of missing scripts that reading the lines in order defines |
| Mapping.InsertKeepsValid | fpga-util.py:206-213 | adding an entry keeps the dictionary well formed, with each entry filed under its own serial |
| Mapping.LoadIsValid | fpga-util.py:192-213 | the table read from any lines is well formed |
| Mapping.LastLineWins | fpga-util.py:206-213 | a serial's entry comes from the last line that defines it |
| Mapping.UnlistedSerialAbsent | fpga-util.py:193-213 | a serial that no line defines is not in the table |
| Mapping.NormaliseTidy | fpga-util.py:194 | normalising a tidy line with its newline gives back the line without the newline |
| Mapping.TidyLineHasNoTab | fpga-util.py:194 | the tab replacement leaves a tidy line unchanged |
| Mapping.TidyLineHasNoDoubleSpace | fpga-util.py:194 | the double-space replacement leaves a tidy line unchanged |
| Mapping.FormattedLineFields | fpga-util.py:194-195 | five plain fields joined by single spaces read back as exactly those fields |
| Mapping.FormattedLineParses | fpga-util.py:194-213 | such a line with an existing script becomes the entry built from its fields |
| Mapping.HalveBlankRun | fpga-util.py:194 | one pass of `replace('  ', ' ')` turns a run of three blanks into two |
| Mapping.ThreeBlanksDropTheLine | fpga-util.py:194-196 | three blanks after the serial leave an empty field, six fields in all, so the line is skipped |
| Selection.Items | fpga-util.py:241 | `list(fpgaMapping.items())` is the `(key, entry)` pairs in key order |
| Selection.DefaultIds | fpga-util.py:240-245 | the request holds a `(key, entry)` pair iff force is given without ids on a non-empty table; otherwise it is plain serials |
| Selection.Judge | fpga-util.py:248-259 | only a pair raises; an unknown serial is refused as unknown; "in use" only for an allocation without force of a card with a uid; "not owned" only for release, flash or devices without force when `user_id != userId`; with force every known serial is accepted |
| Selection.FilterIds | fpga-util.py:247-260 | the filter loop returns the selection that judging the requested ids in order defines |
| Selection.RaisedStays | fpga-util.py:248-249 | once the membership test raises, the whole filter raises |
| Selection.SelectRaises | fpga-util.py:248-249 | the filter raises iff a `(key, entry)` tuple is among the requested ids |
| Selection.SelectKeeps | fpga-util.py:247-260 | without a tuple the filter keeps exactly the accepted ids, in order |
| Selection.SelectedIds | fpga-util.py:247-260 | the kept ids are an order-preserving subsequence of the requested ones, and an id is kept iff it was requested and passes the rules |
| Selection.SelectedAreKnown | fpga-util.py:249-250 | every kept id is a key of the table |
| Selection.SelectNames | fpga-util.py:247-260 | on plain ids the filter is the order-preserving filter by the rules |
| Selection.AcceptedMeans | fpga-util.py:249-259 | an id passes iff it is a key and, without force, is free for allocation and held by the caller for release, flash and devices |
| Selection.ForceWithoutIdsRaises | fpga-util.py:240-241 | forcing with no ids on a non-empty table raises in the filter |
| Selection.AllocateTakesEveryFreeDevice | fpga-util.py:242-243 | allocating without ids and without another action takes every free card |
| Selection.OwnedActionTakesEveryOwnedDevice | fpga-util.py:244-245 | release, flash or devices without ids and without allocation takes every card the caller holds |
| Selection.RootOwnsFreeDevices | fpga-util.py:243-245 | every free card is among the cards uid 0 holds under `==` |
| Selection.FreeCountsAsRootOwned | fpga-util.py:252-255 | a free card passes the ownership rule iff the caller is uid 0, and always passes the allocation rule |
| Selection.AllocationRefusesHeldDevices | fpga-util.py:252 | a held card is refused as in use for allocation without force and accepted with force |
| Selection.MixedActionsKeepNothing | fpga-util.py:252-256 | allocation together with flash, release or devices, without force, by a caller other than uid 0 accepts no serial |
| Selection.MixedActionsSelectNothing | fpga-util.py:240-260 | such a run selects nothing, whatever ids it names or defaults to |
| Ledger.Held | fpga-util.py:355 | the cards whose marker exists are known cards |
| Ledger.Host.OwnFpgaDevs | fpga-util.py:65-69 | hands every node of the card to the uid and leaves the markers alone |
| Ledger.Host.Allocate | fpga-util.py:267-274 | writes the caller's uid into the marker of every chosen card and hands all their nodes to the caller |
| Ledger.Host.Release | fpga-util.py:353-361 | removes the marker of every chosen card and hands to root the nodes of exactly the cards whose marker existed |
| Ledger.CardNodesCovers | fpga-util.py:268-270 | the nodes handed over for a list of cards include every node of each card in it |
| Ledger.ReleasedAgain | fpga-util.py:354-357 | a card named twice is released once: its nodes are already among those handed back |
| Ledger.MarkerReadsBack | fpga-util.py:199-203 | the first line of the marker written for a uid reads back through `int()` as that uid |
| Ledger.AllocationReadsBack | fpga-util.py:199-205 | after allocation a chosen card reads back as held by the caller, and every other card reads as before |
| Ledger.ReleaseReadsFree | fpga-util.py:199-205 | after release a chosen card reads back as free, and every other card reads as before |
| Ledger.AllocatedAreHeld | fpga-util.py:269 | right after allocation every chosen card has a marker |
| Ledger.AllocateThenRelease | fpga-util.py:267-274 | allocate followed by release removes the chosen markers, keeps every other marker, and leaves the nodes with root |
| Flash.Argv | fpga-util.py:316 | Vivado is run with 13 arguments: the card's script after `-source`, then serial, PCI id, board and bitstream |
| Flash.FlashCard | fpga-util.py:294-348 | one card: its report, an error iff Vivado exits non-zero, the interrupt flag never set, and the nodes handed to the user only on success |
| Flash.FlashBatch | fpga-util.py:290-351 | the loop produces the batch's reports, fails iff the last processed card failed, keeps the markers, and hands over exactly the nodes of the successful cards |
| Flash.BatchLength | fpga-util.py:293-348 | a non-empty batch processes at least one card and never more than requested |
| Flash.BatchAt | fpga-util.py:293-348 | the processed cards are a prefix of the ids, the j-th with the j-th attempt |
| Flash.BatchOnlyLastFails | fpga-util.py:326-348 | every processed card but the last succeeded, and a batch that stops early stops on a failure |
| Flash.BatchStopsAtFirstFailure | fpga-util.py:326-348 | the batch ends right after the first failing card, or covers every card when none fails |
| Flash.CardReportMeaning | fpga-util.py:297-343 | nodes are handed over iff the run succeeded, both quirk phases run iff the quirk is known, and the post-flash phase runs on the failing card too |
| Flash.QuirkOutcomeIgnored | fpga-util.py:300-302 | the quirk phases' failures never change how many cards are processed, their Vivado command lines or the nodes handed over |
| Flash.SignalsIgnored | fpga-util.py:307-324 | whether a signal arrived while Vivado ran never changes the batch |
| Cli.Begin | fpga-util.py:217-265 | when the run goes on to act, the table is well formed and every chosen id is a key |
| Cli.BeginMeaning | fpga-util.py:217-265 | an empty table exits -1, a run without an action exits 0, a filter that keeps nothing exits -1, a filter that raises exits 1, and otherwise the run acts on exactly the kept cards, a non-empty list of known cards that all pass the rules |
| Cli.BeginAfterFilter | fpga-util.py:247-265 | past the early exits, a raised filter stops with 1, an empty selection with -1, and a non-empty one acts on it |
| Cli.MixedRunStops | fpga-util.py:252-265 | allocation combined with flash, release or devices, without force, by a caller other than uid 0, always exits -1 without acting |
| Cli.ForcedRunWithoutIdsStops | fpga-util.py:240-249 | an administrator's forced action without ids stops on the exception, with status 1 |
| Cli.Run | fpga-util.py:191-367 | the early exits touch nothing; otherwise the exit status is -1 iff flashing failed, the markers are those of the allocation, then of the release unless flashing failed, the devices listed are the chosen cards' nodes, and the node owners are those of `OwnersAfter` |
| Cli.Perform | fpga-util.py:267-367 | allocation, flashing, release and listing, in that order; a failed flash stops before release and listing; the node owners end as the allocation, the successful flashes and the release leave them (`OwnersAfter`) |
| Cli.DeviceList | fpga-util.py:363-367 | every node of every chosen card, card by card |

## Left out

- Argument parsing and help text (fpga-util.py:141-154) are left out: the
  requested actions, the ids and `--force` are a `Command`, an id list and a
  flag.
- The mapping-file search (fpga-util.py:128-135) and the bitstream and tool
  lookup (fpga-util.py:157-181) are left out: the table's lines, its
  directory, the Vivado path and the bitstream are inputs.
- The sudo re-exec and the `SUDO_UID` identity (fpga-util.py:137-139,
  182-186) are left out: the caller's uid and whether force applies are
  inputs.
- The global `FileLock` and the creation of the ledger directory
  (fpga-util.py:188-191) are left out, because they are cross-process
  mutual exclusion. The model assumes the lock is held throughout.
- Vivado's launch is left out (`Popen`, `demote`, the environment copy and
  `wait`, fpga-util.py:278-321), because it is an external process. Only its
  exit code is an input.
- Signal handler installation and restoration (fpga-util.py:307-324) are
  left out, because they are asynchronous. A signal that arrives while
  Vivado runs is an input (`Attempt.signalled`) that the model shows has no
  effect. A signal at any other point, such as during a quirk phase
  (fpga-util.py:300, 334) or `ownFpgaDevs` (fpga-util.py:339), gets
  Python's default action (`KeyboardInterrupt` for SIGINT, termination for
  SIGTERM), which ends the run. This is not modelled.
- The real sysfs reads and writes, `setpci`, `shutil.chown` and `pwd` are
  left out, because they are operating-system effects. Files are a
  snapshot. A quirk step's failure is an input. Ownership is a map from
  node path to uid, and the group change is not modelled.
- All printing is left out: the status table of `--list`
  (fpga-util.py:225-233), diagnostics, the `--quiet` switch and the ids
  echoed in quiet mode. `--devices` is modelled as the list of nodes it
  prints.
- Crashes of the script on unusual filesystem states are not modelled. These
  are a missing `/sys/bus/pci/devices`, an unreadable file, a missing
  `setpci` binary, and `chown` on a node that vanished. Files are modelled
  as present and readable, or absent.
- The `uevent` file is read whenever the path exists, as the code does. A
  `uevent` that is a directory reads as empty, where Python would raise.
- `os.path.realpath` is applied only where the code calls it. A link is a
  single lookup, not a chain.
- `int()` is modelled for ASCII digits, signs, underscores and the ASCII
  characters Python counts as whitespace (the six C whitespace characters
  and the separators U+001C to U+001F). Non-ASCII digits and whitespace,
  which Python also accepts, are not modelled.
- Exit statuses are the integers passed to `exit`. `exit(-1)` is modelled as
  -1 (the shell sees 255). The uncaught `TypeError` is modelled as 1.
- Cli.Run: flashing sees three sysfs snapshots per card (`Attempt`: before
  the pre-flash quirk, when the post-flash quirk starts, and after its
  rescan), and release and listing see one later snapshot. Changes to sysfs
  between those points are not modelled. In particular, each quirk phase
  tests every `remove` control against the snapshot at its start
  (`Quirk.Removable`), so a test does not see the removals issued earlier
  in the same phase.
