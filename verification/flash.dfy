/** The flash block (fpga-util.py:278-351): each selected card in turn gets
    the pre-flash quirk, a Vivado batch run, the post-flash quirk and, when
    the run succeeded, its device nodes; the batch stops after the first
    failed run. What the environment does for a card (the tool's exit code,
    sysfs as each phase sees it, which quirk steps fail, whether a signal
    arrived) is an input, one `Attempt` per card. */
module Flash {
  import opened Text
  import opened SysFs
  import opened Resolver
  import opened Quirk
  import opened Mapping
  import opened Ledger

  /** What happens around the flashing of one card. */
  datatype Attempt = Attempt(
    before: FileSystem,      // sysfs when the pre-flash quirk runs
    preFailures: set<nat>,   // the pre-flash steps that fail
    exitCode: int,           // `pVivado.returncode`
    signalled: bool,         // SIGINT or SIGTERM arrived during the run
    afterTool: FileSystem,   // sysfs when the post-flash quirk starts
    rescanned: FileSystem,   // sysfs after its rescan, where the nodes are resolved
    postFailures: set<nat>)  // the post-flash steps that fail

  /** The steps one quirk phase issued and what it returned. */
  datatype QuirkRun = QuirkRun(steps: seq<Step>, ok: bool)

  /** What the loop did for one card. */
  datatype Report = Report(
    id: string,
    pre: Option<QuirkRun>,         // the pre-flash phase, when the quirk is known
    argv: seq<string>,             // the Vivado command line
    exitCode: int,
    post: Option<QuirkRun>,        // the post-flash phase, when the quirk is known
    owned: Option<seq<string>>)    // the nodes handed to the user, when the run succeeded

  /** The Vivado command line of fpga-util.py:316. */
  function Argv(vivado: string, fpga: Fpga, bitstream: string): (r: seq<string>)
    ensures |r| == 13 && r[0] == vivado && r[6] == fpga.flashTcl
    ensures r[9..] == [fpga.serial, fpga.pciId, fpga.board, bitstream]
  {
    [vivado, "-mode", "batch", "-nolog", "-nojournal", "-source", fpga.flashTcl, "-notrace", "-tclargs",
     fpga.serial, fpga.pciId, fpga.board, bitstream]
  }

  /** What `xilinx_alveo_pciquirk(state, fpga)` issues and returns. */
  function RunQuirk(state: int, fs: FileSystem, rescanned: FileSystem, pciId: string, failures: set<nat>): QuirkRun
  {
    var steps := QuirkSteps(state, fs, rescanned, pciId);
    QuirkRun(steps, Applicable(state, fs, pciId) && NoneFailed(steps, failures))
  }

  /** One turn of the loop. */
  function CardReport(id: string, fpga: Fpga, a: Attempt, vivado: string, bitstream: string): Report
  {
    var known := IsKnownQuirk(fpga.quirk);
    Report(
      id,
      if known then Some(RunQuirk(PreFlash, a.before, a.before, fpga.pciId, a.preFailures)) else None,
      Argv(vivado, fpga, bitstream),
      a.exitCode,
      if known then Some(RunQuirk(PostFlash, a.afterTool, a.rescanned, fpga.pciId, a.postFailures)) else None,
      if a.exitCode == 0 then Some(FpgaDevs(a.rescanned, fpga.pciId)) else None)
  }

  /** One turn of the loop as a value: the report for a card and its attempt. */
  function FlashTurn(vivado: string, bitstream: string): (string, Fpga, Attempt) -> Report
  {
    (id, fpga, a) => CardReport(id, fpga, a, vivado, bitstream)
  }

  /** The reports of the batch, `turn` giving each card's report: one per
      card, up to and including the first whose run failed. The tool's batch
      is `Batch(t, ids, attempts, FlashTurn(vivado, bitstream))`. */
  function Batch(t: Table, ids: seq<string>, attempts: seq<Attempt>, turn: (string, Fpga, Attempt) -> Report): seq<Report>
    requires AllKnown(t, ids) && |attempts| == |ids|
  {
    if ids == [] then []
    else
      var r := turn(ids[0], t.entries[ids[0]], attempts[0]);
      if attempts[0].exitCode != 0 then [r]
      else [r] + Batch(t, ids[1..], attempts[1..], turn)
  }

  /** The nodes the reports hand over. */
  function OwnedNodes(reports: seq<Report>): set<string>
  {
    if reports == [] then {}
    else
      var last := reports[|reports| - 1];
      OwnedNodes(reports[..|reports| - 1]) + (if last.owned.Some? then Elems(last.owned.value) else {})
  }

  /** One turn of the flash loop (fpga-util.py:294-341) for the card `i`:
      `thisError` says whether its run failed, `thisInterrupt` whether the
      loop saw an interrupt. */
  method FlashCard(host: Host, i: string, fpga: Fpga, a: Attempt, vivado: string, bitstream: string, userId: int)
    returns (r: Report, thisError: bool, thisInterrupt: bool)
    modifies host
    ensures r == CardReport(i, fpga, a, vivado, bitstream)
    ensures thisError <==> a.exitCode != 0
    ensures !thisInterrupt
    ensures host.markers == old(host.markers)
    ensures host.owners == Chown(old(host.owners), if r.owned.Some? then Elems(r.owned.value) else {}, userId)
  {
    thisInterrupt := false;
    thisError := false;
    var pre: Option<QuirkRun> := None;
    if IsKnownQuirk(fpga.quirk) {
      var ok, steps := XilinxAlveoPciQuirk(PreFlash, a.before, a.before, fpga.pciId, a.preFailures);
      pre := Some(QuirkRun(steps, ok));
    }
    // The signal handler assigns a `thisInterrupt` of its own, so a signal
    // (`a.signalled`) leaves this one False.
    var argv := Argv(vivado, fpga, bitstream);
    if a.exitCode != 0 {
      thisError := true;
    }
    var post: Option<QuirkRun> := None;
    if IsKnownQuirk(fpga.quirk) {
      var ok, steps := XilinxAlveoPciQuirk(PostFlash, a.afterTool, a.rescanned, fpga.pciId, a.postFailures);
      post := Some(QuirkRun(steps, ok));
    }
    var owned: Option<seq<string>> := None;
    if !thisError {
      host.OwnFpgaDevs(a.rescanned, fpga, userId);
      owned := Some(FpgaDevs(a.rescanned, fpga.pciId));
    }
    r := Report(i, pre, argv, a.exitCode, post, owned);
  }

  lemma BatchUnfold(t: Table, ids: seq<string>, attempts: seq<Attempt>, turn: (string, Fpga, Attempt) -> Report, k: nat)
    requires AllKnown(t, ids) && |attempts| == |ids| && k < |ids|
    ensures AllKnown(t, ids[k + 1..])
    ensures Batch(t, ids[k..], attempts[k..], turn)
      == [turn(ids[k], t.entries[ids[k]], attempts[k])]
         + (if attempts[k].exitCode != 0 then [] else Batch(t, ids[k + 1..], attempts[k + 1..], turn))
  {
    assert ids[k..][0] == ids[k] && attempts[k..][0] == attempts[k];
    assert ids[k..][1..] == ids[k + 1..] && attempts[k..][1..] == attempts[k + 1..];
  }

  /** The loop's account of the batch after the report `r` of the `k`-th card. */
  lemma BatchStep(t: Table, ids: seq<string>, attempts: seq<Attempt>, turn: (string, Fpga, Attempt) -> Report,
                  k: nat, reports: seq<Report>, r: Report)
    requires AllKnown(t, ids) && |attempts| == |ids| && k < |ids|
    requires reports + Batch(t, ids[k..], attempts[k..], turn) == Batch(t, ids, attempts, turn)
    requires r == turn(ids[k], t.entries[ids[k]], attempts[k])
    ensures AllKnown(t, ids[k + 1..])
    ensures attempts[k].exitCode != 0 ==> reports + [r] == Batch(t, ids, attempts, turn)
    ensures attempts[k].exitCode == 0 ==>
      reports + [r] + Batch(t, ids[k + 1..], attempts[k + 1..], turn) == Batch(t, ids, attempts, turn)
  {
    BatchUnfold(t, ids, attempts, turn, k);
    if attempts[k].exitCode == 0 {
      var rest := Batch(t, ids[k + 1..], attempts[k + 1..], turn);
      assert reports + ([r] + rest) == reports + [r] + rest;
    } else {
      assert [r] + [] == [r];
    }
  }

  /** The nodes handed over grow by those of the new report. */
  lemma OwnedNodesSnoc(reports: seq<Report>, r: Report)
    ensures OwnedNodes(reports + [r]) == OwnedNodes(reports) + (if r.owned.Some? then Elems(r.owned.value) else {})
  {
    assert (reports + [r])[..|reports|] == reports;
  }

  /** The flash loop (fpga-util.py:293-351). `failed` is `anyError or
      anyInterrupts`, which makes the tool exit with -1. */
  method FlashBatch(host: Host, t: Table, ids: seq<string>, attempts: seq<Attempt>, vivado: string, bitstream: string, userId: int)
    returns (reports: seq<Report>, failed: bool)
    requires AllKnown(t, ids) && |attempts| == |ids|
    modifies host
    ensures reports == Batch(t, ids, attempts, FlashTurn(vivado, bitstream))
    ensures failed <==> reports != [] && reports[|reports| - 1].exitCode != 0
    ensures host.markers == old(host.markers)
    ensures host.owners == Chown(old(host.owners), OwnedNodes(reports), userId)
  {
    var anyError := false;
    var anyInterrupts := false;
    reports := [];
    ghost var turn := FlashTurn(vivado, bitstream);
    for k := 0 to |ids|
      invariant reports + Batch(t, ids[k..], attempts[k..], turn) == Batch(t, ids, attempts, turn)
      invariant |reports| == k && (reports != [] ==> reports[|reports| - 1].exitCode == 0)
      invariant !anyError && !anyInterrupts
      invariant host.markers == old(host.markers)
      invariant host.owners == Chown(old(host.owners), OwnedNodes(reports), userId)
    {
      var i := ids[k];
      var r, thisError, thisInterrupt := FlashCard(host, i, t.entries[i], attempts[k], vivado, bitstream, userId);
      BatchStep(t, ids, attempts, turn, k, reports, r);
      ghost var mine := if r.owned.Some? then Elems(r.owned.value) else {};
      ChownTwice(old(host.owners), OwnedNodes(reports), mine, userId);
      OwnedNodesSnoc(reports, r);
      reports := reports + [r];
      if thisInterrupt || thisError {
        anyError := anyError || thisError;
        anyInterrupts := anyInterrupts || thisInterrupt;
        return reports, anyError || anyInterrupts;
      }
    }
    assert ids[|ids|..] == [];
    return reports, anyError || anyInterrupts;
  }

  // ---------------------------------------------------------------------
  // Properties of the batch

  /** The processed cards are a prefix of the selection, at least one card
      when there is any. */
  lemma {:induction false} BatchLength(t: Table, ids: seq<string>, attempts: seq<Attempt>, turn: (string, Fpga, Attempt) -> Report)
    requires AllKnown(t, ids) && |attempts| == |ids|
    ensures var n := |Batch(t, ids, attempts, turn)|;
      n <= |ids| && (ids != [] ==> n > 0)
    decreases |ids|
  {
    if ids != [] && attempts[0].exitCode == 0 {
      BatchLength(t, ids[1..], attempts[1..], turn);
    }
  }

  /** The `j`-th report is that of the `j`-th card with the `j`-th attempt. */
  lemma {:induction false} BatchAt(t: Table, ids: seq<string>, attempts: seq<Attempt>, turn: (string, Fpga, Attempt) -> Report, j: nat)
    requires AllKnown(t, ids) && |attempts| == |ids|
    requires j < |Batch(t, ids, attempts, turn)|
    ensures j < |ids|
    ensures Batch(t, ids, attempts, turn)[j] == turn(ids[j], t.entries[ids[j]], attempts[j])
    decreases j
  {
    BatchLength(t, ids, attempts, turn);
    if j > 0 {
      assert attempts[0].exitCode == 0;
      var rest := Batch(t, ids[1..], attempts[1..], turn);
      assert Batch(t, ids, attempts, turn)[j] == rest[j - 1];
      BatchAt(t, ids[1..], attempts[1..], turn, j - 1);
      assert ids[1..][j - 1] == ids[j] && attempts[1..][j - 1] == attempts[j];
    }
  }

  /** Every run but the last processed one succeeded, and the batch ends
      before the end of the selection only after a failed run. */
  lemma {:induction false} BatchOnlyLastFails(t: Table, ids: seq<string>, attempts: seq<Attempt>, turn: (string, Fpga, Attempt) -> Report)
    requires AllKnown(t, ids) && |attempts| == |ids|
    ensures var n := |Batch(t, ids, attempts, turn)|;
      && n <= |ids|
      && (forall j :: 0 <= j < n - 1 ==> attempts[j].exitCode == 0)
      && (0 < n < |ids| ==> attempts[n - 1].exitCode != 0)
    decreases |ids|
  {
    if ids != [] && attempts[0].exitCode == 0 {
      var rest := Batch(t, ids[1..], attempts[1..], turn);
      BatchOnlyLastFails(t, ids[1..], attempts[1..], turn);
      var n := |Batch(t, ids, attempts, turn)|;
      assert n == |rest| + 1;
      forall j | 0 < j < n - 1 ensures attempts[j].exitCode == 0 {
        assert attempts[1..][j - 1] == attempts[j];
      }
      if 1 < n < |ids| {
        assert attempts[1..][|rest| - 1] == attempts[n - 1];
      }
    }
  }

  /** A batch whose `k`-th run is the first to fail processes exactly the
      first `k + 1` cards; a batch where every run succeeds processes all. */
  lemma {:induction false} BatchStopsAtFirstFailure(t: Table, ids: seq<string>, attempts: seq<Attempt>, turn: (string, Fpga, Attempt) -> Report, k: nat)
    requires AllKnown(t, ids) && |attempts| == |ids|
    requires k <= |ids| && forall j :: 0 <= j < k ==> attempts[j].exitCode == 0
    ensures k < |ids| && attempts[k].exitCode != 0 ==> |Batch(t, ids, attempts, turn)| == k + 1
    ensures k == |ids| ==> |Batch(t, ids, attempts, turn)| == |ids|
    decreases k
  {
    if k > 0 {
      assert attempts[0].exitCode == 0;
      forall j | 0 <= j < k - 1 ensures attempts[1..][j].exitCode == 0 {
        assert attempts[1..][j] == attempts[j + 1];
      }
      BatchStopsAtFirstFailure(t, ids[1..], attempts[1..], turn, k - 1);
      if k < |ids| {
        assert attempts[1..][k - 1] == attempts[k];
      }
    }
  }

  /** A card's nodes change hands exactly when its run succeeded, and they
      are the nodes resolved after the post-flash phase; both quirk phases
      run for every processed card whose quirk is known, the failed one
      included. */
  lemma CardReportMeaning(id: string, fpga: Fpga, a: Attempt, vivado: string, bitstream: string)
    ensures var r := CardReport(id, fpga, a, vivado, bitstream);
      && (r.owned.Some? <==> a.exitCode == 0)
      && (r.owned.Some? ==> r.owned.value == FpgaDevs(a.rescanned, fpga.pciId))
      && (r.pre.Some? <==> IsKnownQuirk(fpga.quirk))
      && (r.post.Some? <==> IsKnownQuirk(fpga.quirk))
      && (r.post.Some? ==> r.post.value.steps == QuirkSteps(PostFlash, a.afterTool, a.rescanned, fpga.pciId))
  {
  }

  /** `others` differs from `attempts` at most in which quirk steps fail. */
  predicate QuirkFailuresDiffer(attempts: seq<Attempt>, others: seq<Attempt>)
  {
    && |others| == |attempts|
    && forall j :: 0 <= j < |attempts| ==>
         others[j] == attempts[j].(preFailures := others[j].preFailures, postFailures := others[j].postFailures)
  }

  /** Two batches agree on the Vivado runs and the nodes handed over. */
  predicate SameRunsAndNodes(rs: seq<Report>, os: seq<Report>)
  {
    && |rs| == |os|
    && forall j :: 0 <= j < |rs| ==> rs[j].owned == os[j].owned && rs[j].argv == os[j].argv
  }

  lemma SameRunsAndNodesCons(r: Report, o: Report, rs: seq<Report>, os: seq<Report>)
    requires r.owned == o.owned && r.argv == o.argv && SameRunsAndNodes(rs, os)
    ensures SameRunsAndNodes([r] + rs, [o] + os)
  {
    forall j | 0 < j < |rs| + 1 ensures ([r] + rs)[j] == rs[j - 1] && ([o] + os)[j] == os[j - 1] { }
  }

  lemma QuirkFailuresDifferTail(attempts: seq<Attempt>, others: seq<Attempt>)
    requires QuirkFailuresDiffer(attempts, others) && attempts != []
    ensures QuirkFailuresDiffer(attempts[1..], others[1..])
    ensures others[0].exitCode == attempts[0].exitCode && others[0].rescanned == attempts[0].rescanned
  {
    assert others[0] == attempts[0].(preFailures := others[0].preFailures, postFailures := others[0].postFailures);
    forall j | 0 <= j < |attempts| - 1
      ensures others[1..][j] == attempts[1..][j].(preFailures := others[1..][j].preFailures, postFailures := others[1..][j].postFailures)
    {
      assert others[1..][j] == others[j + 1] && attempts[1..][j] == attempts[j + 1];
    }
  }

  /** A failed quirk phase never stops the card: its outcome does not
      influence the Vivado run, the ownership transfer or the rest of the batch. */
  lemma {:induction false} QuirkOutcomeIgnored(t: Table, ids: seq<string>, attempts: seq<Attempt>, others: seq<Attempt>, vivado: string, bitstream: string)
    requires AllKnown(t, ids) && |attempts| == |ids| && QuirkFailuresDiffer(attempts, others)
    ensures SameRunsAndNodes(Batch(t, ids, attempts, FlashTurn(vivado, bitstream)), Batch(t, ids, others, FlashTurn(vivado, bitstream)))
    decreases |ids|
  {
    if ids != [] {
      QuirkFailuresDifferTail(attempts, others);
      var r := CardReport(ids[0], t.entries[ids[0]], attempts[0], vivado, bitstream);
      var o := CardReport(ids[0], t.entries[ids[0]], others[0], vivado, bitstream);
      if attempts[0].exitCode == 0 {
        QuirkOutcomeIgnored(t, ids[1..], attempts[1..], others[1..], vivado, bitstream);
        SameRunsAndNodesCons(r, o, Batch(t, ids[1..], attempts[1..], FlashTurn(vivado, bitstream)), Batch(t, ids[1..], others[1..], FlashTurn(vivado, bitstream)));
      } else {
        SameRunsAndNodesCons(r, o, [], []);
        assert [r] + [] == [r] && [o] + [] == [o];
      }
    }
  }

  /** Signals during the Vivado runs have no effect: the batch is the same
      whether or not a signal arrived during any run. This holds because no
      report reads `signalled`, which is how the model renders the handler's
      assignment to a local of its own (fpga-util.py:310); the induction
      only carries that fact through the batch and says nothing more about
      the loop's control flow. */
  lemma {:induction false} SignalsIgnored(t: Table, ids: seq<string>, attempts: seq<Attempt>, others: seq<Attempt>, vivado: string, bitstream: string)
    requires AllKnown(t, ids) && |attempts| == |ids| && |others| == |ids|
    requires forall j :: 0 <= j < |ids| ==> others[j] == attempts[j].(signalled := others[j].signalled)
    ensures Batch(t, ids, attempts, FlashTurn(vivado, bitstream)) == Batch(t, ids, others, FlashTurn(vivado, bitstream))
    decreases |ids|
  {
    if ids != [] {
      assert others[0] == attempts[0].(signalled := others[0].signalled);
      forall j | 0 <= j < |ids| - 1 ensures others[1..][j] == attempts[1..][j].(signalled := others[1..][j].signalled) {
        assert others[1..][j] == others[j + 1] && attempts[1..][j] == attempts[j + 1];
      }
      SignalsIgnored(t, ids[1..], attempts[1..], others[1..], vivado, bitstream);
    }
  }
}
