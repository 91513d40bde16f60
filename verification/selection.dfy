/** Choosing the devices a command acts on (fpga-util.py:221-265): the ids
    named on the command line, or a default set, filtered by ownership. */
module Selection {
  import opened Seqs
  import opened Mapping

  /** The action flags once `--list` has been decided. */
  datatype Command = Command(allocate: bool, flash: bool, release: bool, devices: bool)

  /** No action: the tool only lists (fpga-util.py:221-222, :234-235). */
  predicate ListOnly(cmd: Command)
  {
    !cmd.flash && !cmd.allocate && !cmd.release && !cmd.devices
  }

  /** The actions that need the caller to own the device. */
  predicate ActsOnOwned(cmd: Command)
  {
    cmd.release || cmd.flash || cmd.devices
  }

  /** `user_id == userId` in Python, where `False == 0` holds. */
  predicate SameUser(o: Owner, userId: int)
  {
    match o
    case Free => userId == 0
    case Uid(n) => n == userId
  }

  /** An element of `args.ids`: a serial, or the `(key, entry)` pair that
      `list(fpgaMapping.items())` yields. */
  datatype Requested = Name(id: string) | Pair(id: string, fpga: Fpga)

  function Names(ids: seq<string>): (r: seq<Requested>)
    ensures |r| == |ids| && forall k :: 0 <= k < |ids| ==> r[k] == Name(ids[k])
  {
    if ids == [] then [] else [Name(ids[0])] + Names(ids[1..])
  }

  function IdsOf(rs: seq<Requested>): (r: seq<string>)
    ensures |r| == |rs| && forall k :: 0 <= k < |rs| ==> r[k] == rs[k].id
  {
    if rs == [] then [] else [rs[0].id] + IdsOf(rs[1..])
  }

  /** `list(fpgaMapping.items())`. */
  function Items(t: Table): (r: seq<Requested>)
    requires ValidTable(t)
    ensures |r| == |t.order|
    ensures forall k :: 0 <= k < |r| ==> r[k] == Pair(t.order[k], t.entries[t.order[k]])
  {
    seq(|t.order|, k requires 0 <= k < |t.order| => Pair(t.order[k], t.entries[t.order[k]]))
  }

  /** The key names a free device (`user_id is False`). */
  function IsFree(t: Table): string -> bool
  {
    f => f in t.entries && t.entries[f].userId.Free?
  }

  /** The key names a device whose `user_id == userId`. */
  function IsOwnedBy(t: Table, userId: int): string -> bool
  {
    f => f in t.entries && SameUser(t.entries[f].userId, userId)
  }

  /** The keys of the free devices, in table order. */
  function FreeKeys(t: Table): seq<string>
  {
    Filter(t.order, IsFree(t))
  }

  /** The keys of the devices whose `user_id == userId`, in table order. */
  function KeysOwnedBy(t: Table, userId: int): seq<string>
  {
    Filter(t.order, IsOwnedBy(t, userId))
  }

  /** `args.ids` after the defaults of fpga-util.py:240-245. */
  function DefaultIds(t: Table, cmd: Command, applyForce: bool, userId: int, ids: seq<string>): (r: seq<Requested>)
    requires ValidTable(t)
    ensures HasPair(r) <==> applyForce && ids == [] && t.order != []
    ensures !(applyForce && ids == []) ==> r == Names(IdsOf(r))
  {
    if applyForce && ids == [] then Items(t)
    else if cmd.allocate && ids == [] then Names(FreeKeys(t))
    else if ActsOnOwned(cmd) && ids == [] then Names(KeysOwnedBy(t, userId))
    else Names(ids)
  }

  /** The branch of fpga-util.py:248-259 an element takes. */
  datatype Verdict =
    | Unhashable  // a pair holds a dict: `i not in fpgaMapping` raises TypeError
    | Unknown     // "device id ... unknown!"
    | InUse       // "device id ... is in use!"
    | NotOwned    // "device id ... is not owned by you!"
    | Accepted    // appended to `filteredIds`

  function Judge(r: Requested, t: Table, cmd: Command, applyForce: bool, userId: int): (v: Verdict)
    ensures v == Unhashable <==> r.Pair?
    ensures v == Unknown <==> r.Name? && r.id !in t.entries
    ensures v == InUse ==> !applyForce && cmd.allocate && t.entries[r.id].userId.Uid?
    ensures v == NotOwned ==> !applyForce && ActsOnOwned(cmd) && !SameUser(t.entries[r.id].userId, userId)
    ensures applyForce && r.Name? && r.id in t.entries ==> v == Accepted
  {
    if r.Pair? then Unhashable
    else if r.id !in t.entries then Unknown
    else if !applyForce && cmd.allocate && !t.entries[r.id].userId.Free? then InUse
    else if !applyForce && ActsOnOwned(cmd) && !SameUser(t.entries[r.id].userId, userId) then NotOwned
    else Accepted
  }

  /** What the filter loop ends with: the kept ids, or the TypeError that
      escapes it and ends the tool. */
  datatype Selection = Selected(ids: seq<string>) | Raised

  function Select(rs: seq<Requested>, t: Table, cmd: Command, applyForce: bool, userId: int): Selection
  {
    if rs == [] then Selected([])
    else
      var before := Select(rs[..|rs| - 1], t, cmd, applyForce, userId);
      var r := rs[|rs| - 1];
      if before.Raised? then Raised
      else match Judge(r, t, cmd, applyForce, userId)
        case Unhashable => Raised
        case Accepted => Selected(before.ids + [r.id])
        case _ => before
  }

  /** The filter loop (fpga-util.py:247-260). */
  method FilterIds(rs: seq<Requested>, t: Table, cmd: Command, applyForce: bool, userId: int)
    returns (outcome: Selection)
    ensures outcome == Select(rs, t, cmd, applyForce, userId)
  {
    var filteredIds := [];
    for k := 0 to |rs|
      invariant Select(rs[..k], t, cmd, applyForce, userId) == Selected(filteredIds)
    {
      assert rs[..k + 1][..k] == rs[..k];
      var i := rs[k];
      if i.Pair? {
        RaisedStays(rs, k + 1, t, cmd, applyForce, userId);
        return Raised;
      } else if i.id !in t.entries {
      } else if !applyForce && cmd.allocate && !t.entries[i.id].userId.Free? {
      } else if !applyForce && ActsOnOwned(cmd) && !SameUser(t.entries[i.id].userId, userId) {
      } else {
        filteredIds := filteredIds + [i.id];
      }
    }
    assert rs[..|rs|] == rs;
    return Selected(filteredIds);
  }

  /** Once the loop has raised, the rest of the list does not matter. */
  lemma {:induction false} RaisedStays(rs: seq<Requested>, k: nat, t: Table, cmd: Command, applyForce: bool, userId: int)
    requires k <= |rs| && Select(rs[..k], t, cmd, applyForce, userId).Raised?
    ensures Select(rs, t, cmd, applyForce, userId).Raised?
    decreases |rs| - k
  {
    if k < |rs| {
      assert rs[..k + 1][..k] == rs[..k];
      RaisedStays(rs, k + 1, t, cmd, applyForce, userId);
    } else {
      assert rs[..k] == rs;
    }
  }

  /** The accepted elements, in order. */
  function AcceptedOf(rs: seq<Requested>, t: Table, cmd: Command, applyForce: bool, userId: int): seq<Requested>
  {
    Filter(rs, Passes(t, cmd, applyForce, userId))
  }

  /** The element passes the rules of `Judge`. */
  function Passes(t: Table, cmd: Command, applyForce: bool, userId: int): Requested -> bool
  {
    r => Judge(r, t, cmd, applyForce, userId) == Accepted
  }

  /** Some requested element is a pair. */
  predicate HasPair(rs: seq<Requested>)
  {
    exists k :: 0 <= k < |rs| && rs[k].Pair?
  }

  lemma HasPairSnoc(rs: seq<Requested>, r: Requested)
    ensures HasPair(rs + [r]) <==> HasPair(rs) || r.Pair?
  {
    if HasPair(rs) {
      var k :| 0 <= k < |rs| && rs[k].Pair?;
      assert (rs + [r])[k] == rs[k];
    }
    if r.Pair? {
      assert (rs + [r])[|rs|] == r;
    }
    if HasPair(rs + [r]) {
      var k :| 0 <= k < |rs + [r]| && (rs + [r])[k].Pair?;
      if k < |rs| {
        assert rs[k] == (rs + [r])[k];
      }
    }
  }

  /** The loop raises exactly when a pair is requested. */
  lemma {:induction false} SelectRaises(rs: seq<Requested>, t: Table, cmd: Command, applyForce: bool, userId: int)
    ensures Select(rs, t, cmd, applyForce, userId).Raised? <==> HasPair(rs)
    decreases |rs|
  {
    if rs != [] {
      var init := rs[..|rs| - 1];
      assert rs == init + [rs[|rs| - 1]];
      SelectRaises(init, t, cmd, applyForce, userId);
      HasPairSnoc(init, rs[|rs| - 1]);
    }
  }

  /** One more element after a selection: the loop keeps its id exactly when it passes. */
  lemma SelectSnoc(rs: seq<Requested>, r: Requested, t: Table, cmd: Command, applyForce: bool, userId: int)
    requires Select(rs + [r], t, cmd, applyForce, userId).Selected?
    ensures Select(rs, t, cmd, applyForce, userId).Selected?
    ensures Select(rs + [r], t, cmd, applyForce, userId).ids
      == Select(rs, t, cmd, applyForce, userId).ids + (if Passes(t, cmd, applyForce, userId)(r) then [r.id] else [])
  {
    assert (rs + [r])[..|rs|] == rs;
    var ids := Select(rs, t, cmd, applyForce, userId).ids;
    assert ids + [] == ids;
  }

  lemma IdsOfSnoc(rs: seq<Requested>, r: Requested)
    ensures IdsOf(rs + [r]) == IdsOf(rs) + [r.id]
  {
  }

  /** Otherwise it keeps the accepted ids in request order. */
  lemma {:induction false} SelectKeeps(rs: seq<Requested>, t: Table, cmd: Command, applyForce: bool, userId: int)
    ensures Select(rs, t, cmd, applyForce, userId).Selected? ==>
      Select(rs, t, cmd, applyForce, userId).ids == IdsOf(AcceptedOf(rs, t, cmd, applyForce, userId))
    decreases |rs|
  {
    if rs != [] && Select(rs, t, cmd, applyForce, userId).Selected? {
      var init := rs[..|rs| - 1];
      var r := rs[|rs| - 1];
      var keep := Passes(t, cmd, applyForce, userId);
      assert rs == init + [r];
      SelectSnoc(init, r, t, cmd, applyForce, userId);
      SelectKeeps(init, t, cmd, applyForce, userId);
      FilterSnoc(init, r, keep);
      var a := AcceptedOf(init, t, cmd, applyForce, userId);
      if keep(r) {
        IdsOfSnoc(a, r);
      } else {
        assert a + [] == a;
      }
    }
  }

  /** Every kept id is a known device that passed the ownership rules, and
      every requested serial that passes them is kept; the kept ids come in
      request order. */
  lemma SelectedIds(rs: seq<Requested>, t: Table, cmd: Command, applyForce: bool, userId: int)
    requires Select(rs, t, cmd, applyForce, userId).Selected?
    ensures var ids := Select(rs, t, cmd, applyForce, userId).ids;
      && IsSubsequence(Names(ids), rs)
      && forall i :: i in ids <==> Name(i) in rs && Judge(Name(i), t, cmd, applyForce, userId) == Accepted
  {
    SelectKeeps(rs, t, cmd, applyForce, userId);
    var acc := AcceptedOf(rs, t, cmd, applyForce, userId);
    AcceptedAreNames(rs, t, cmd, applyForce, userId);
    FilterIsSubsequence(rs, Passes(t, cmd, applyForce, userId));
    AcceptedIds(rs, t, cmd, applyForce, userId);
  }

  /** Every kept id names a card of the table. */
  lemma SelectedAreKnown(rs: seq<Requested>, t: Table, cmd: Command, applyForce: bool, userId: int)
    requires Select(rs, t, cmd, applyForce, userId).Selected?
    ensures var ids := Select(rs, t, cmd, applyForce, userId).ids;
      forall k :: 0 <= k < |ids| ==> ids[k] in t.entries
  {
    var ids := Select(rs, t, cmd, applyForce, userId).ids;
    SelectedIds(rs, t, cmd, applyForce, userId);
    forall k | 0 <= k < |ids| ensures ids[k] in t.entries {
      assert ids[k] in ids;
    }
  }

  /** The elements a judgement accepts are plain names. */
  lemma AcceptedAreNames(rs: seq<Requested>, t: Table, cmd: Command, applyForce: bool, userId: int)
    ensures var acc := AcceptedOf(rs, t, cmd, applyForce, userId);
      Names(IdsOf(acc)) == acc
  {
    var acc := AcceptedOf(rs, t, cmd, applyForce, userId);
    FilterMembers(rs, Passes(t, cmd, applyForce, userId));
    forall k | 0 <= k < |acc| ensures acc[k] == Name(IdsOf(acc)[k]) {
      assert acc[k] in acc;
    }
  }

  /** A serial's id is among the accepted ones exactly when its name was
      requested and passes. */
  lemma AcceptedIds(rs: seq<Requested>, t: Table, cmd: Command, applyForce: bool, userId: int)
    ensures var ids := IdsOf(AcceptedOf(rs, t, cmd, applyForce, userId));
      forall i :: i in ids <==> Name(i) in rs && Judge(Name(i), t, cmd, applyForce, userId) == Accepted
  {
    var keep := Passes(t, cmd, applyForce, userId);
    var acc := AcceptedOf(rs, t, cmd, applyForce, userId);
    FilterMembers(rs, keep);
    var ids := IdsOf(acc);
    forall i ensures i in ids <==> Name(i) in rs && keep(Name(i)) {
      if i in ids {
        var k :| 0 <= k < |ids| && ids[k] == i;
        assert acc[k] in acc;
      }
      if Name(i) in rs && keep(Name(i)) {
        assert Name(i) in acc;
        var k :| 0 <= k < |acc| && acc[k] == Name(i);
        assert ids[k] == i;
      }
    }
  }

  /** A kept id passes the rules that apply: it is known, it is free for an
      allocation, and it belongs to the caller for release, flash and devices
      (unless forced). */
  lemma AcceptedMeans(i: string, t: Table, cmd: Command, applyForce: bool, userId: int)
    ensures Judge(Name(i), t, cmd, applyForce, userId) == Accepted <==>
      && i in t.entries
      && (!applyForce && cmd.allocate ==> t.entries[i].userId == Free)
      && (!applyForce && ActsOnOwned(cmd) ==> SameUser(t.entries[i].userId, userId))
  {
  }

  /** With force and no ids the requested elements are pairs, and the first
      membership test raises: no device is acted on. */
  lemma ForceWithoutIdsRaises(t: Table, cmd: Command, userId: int)
    requires ValidTable(t) && t.order != []
    ensures Select(DefaultIds(t, cmd, true, userId, []), t, cmd, true, userId) == Raised
  {
    var rs := DefaultIds(t, cmd, true, userId, []);
    assert rs[0].Pair?;
    SelectRaises(rs, t, cmd, true, userId);
  }

  /** The serial passes the rules of `Judge`. */
  function Accepts(t: Table, cmd: Command, applyForce: bool, userId: int): string -> bool
  {
    i => Judge(Name(i), t, cmd, applyForce, userId) == Accepted
  }

  lemma NamesSnoc(ids: seq<string>, i: string)
    ensures Names(ids + [i]) == Names(ids) + [Name(i)]
  {
  }

  /** One more name after a selection that has not raised. */
  lemma SelectSnocName(rs: seq<Requested>, i: string, t: Table, cmd: Command, applyForce: bool, userId: int)
    requires Select(rs, t, cmd, applyForce, userId).Selected?
    ensures Select(rs + [Name(i)], t, cmd, applyForce, userId)
      == Selected(Select(rs, t, cmd, applyForce, userId).ids + (if Accepts(t, cmd, applyForce, userId)(i) then [i] else []))
  {
    assert (rs + [Name(i)])[..|rs|] == rs;
    assert Select(rs + [Name(i)], t, cmd, applyForce, userId).Selected?;
    SelectSnoc(rs, Name(i), t, cmd, applyForce, userId);
  }

  /** `Select` over plain names: no pair, so it keeps the accepted names. */
  lemma {:induction false} SelectNames(ids: seq<string>, t: Table, cmd: Command, applyForce: bool, userId: int)
    ensures Select(Names(ids), t, cmd, applyForce, userId) == Selected(Filter(ids, Accepts(t, cmd, applyForce, userId)))
    decreases |ids|
  {
    var keep := Accepts(t, cmd, applyForce, userId);
    if ids != [] {
      var init := ids[..|ids| - 1];
      var i := ids[|ids| - 1];
      calc {
        Select(Names(ids), t, cmd, applyForce, userId);
        { assert ids == init + [i]; NamesSnoc(init, i); }
        Select(Names(init) + [Name(i)], t, cmd, applyForce, userId);
        { SelectNames(init, t, cmd, applyForce, userId); SelectSnocName(Names(init), i, t, cmd, applyForce, userId); }
        Selected(Filter(init, keep) + (if keep(i) then [i] else []));
        { FilterSnoc(init, i, keep); assert ids == init + [i]; }
        Selected(Filter(ids, keep));
      }
    }
  }

  /** Every key the filter `keep` kept passes `also`. */
  lemma KeptPass(s: seq<string>, keep: string -> bool, also: string -> bool)
    requires forall x :: keep(x) ==> also(x)
    ensures forall k :: 0 <= k < |Filter(s, keep)| ==> also(Filter(s, keep)[k])
  {
    var kept := Filter(s, keep);
    FilterMembers(s, keep);
    forall k | 0 <= k < |kept| ensures also(kept[k]) {
      assert kept[k] in kept;
    }
  }

  /** A plain allocation with no ids takes every free device, in table order. */
  lemma AllocateTakesEveryFreeDevice(t: Table, cmd: Command, userId: int)
    requires ValidTable(t) && cmd.allocate && !ActsOnOwned(cmd)
    ensures Select(DefaultIds(t, cmd, false, userId, []), t, cmd, false, userId) == Selected(FreeKeys(t))
  {
    var free := FreeKeys(t);
    var keep := Accepts(t, cmd, false, userId);
    assert DefaultIds(t, cmd, false, userId, []) == Names(free);
    SelectNames(free, t, cmd, false, userId);
    assert forall x :: IsFree(t)(x) ==> keep(x);
    KeptPass(t.order, IsFree(t), keep);
    FilterAll(free, keep);
  }

  /** Release, flash or devices with no ids (and no allocation) act on every
      device whose `user_id == userId`. */
  lemma OwnedActionTakesEveryOwnedDevice(t: Table, cmd: Command, userId: int)
    requires ValidTable(t) && !cmd.allocate && ActsOnOwned(cmd)
    ensures Select(DefaultIds(t, cmd, false, userId, []), t, cmd, false, userId) == Selected(KeysOwnedBy(t, userId))
  {
    var owned := KeysOwnedBy(t, userId);
    var keep := Accepts(t, cmd, false, userId);
    assert DefaultIds(t, cmd, false, userId, []) == Names(owned);
    SelectNames(owned, t, cmd, false, userId);
    assert forall x :: IsOwnedBy(t, userId)(x) ==> keep(x);
    KeptPass(t.order, IsOwnedBy(t, userId), keep);
    FilterAll(owned, keep);
  }

  /** For uid 0 the devices "owned" include every free one. */
  lemma RootOwnsFreeDevices(t: Table)
    ensures forall f :: f in FreeKeys(t) ==> f in KeysOwnedBy(t, 0)
  {
    FilterMembers(t.order, IsOwnedBy(t, 0));
    FilterMembers(t.order, IsFree(t));
  }

  /** `False == 0`: a free device passes the ownership rule of release,
      flash and devices exactly when the caller is uid 0, while allocation
      (`is not False`) accepts it for everyone. */
  lemma FreeCountsAsRootOwned(i: string, t: Table, cmd: Command, userId: int)
    requires i in t.entries && t.entries[i].userId == Free
    ensures !cmd.allocate && ActsOnOwned(cmd) ==>
      (Judge(Name(i), t, cmd, false, userId) == Accepted <==> userId == 0)
    ensures cmd.allocate && !ActsOnOwned(cmd) ==> Judge(Name(i), t, cmd, false, userId) == Accepted
  {
  }

  /** A device that is in use is refused to an allocation without force,
      even when the caller holds it; uid 0 counts as in use. */
  lemma AllocationRefusesHeldDevices(i: string, t: Table, cmd: Command, userId: int, n: int)
    requires i in t.entries && t.entries[i].userId == Uid(n) && cmd.allocate
    ensures Judge(Name(i), t, cmd, false, userId) == InUse
    ensures Judge(Name(i), t, cmd, true, userId) == Accepted
  {
  }

  /** Allocation together with release, flash or devices, without force, by
      a caller other than uid 0 keeps no card: allocation needs a free card
      (`user_id is False`) and the other actions need `user_id == userId`,
      which a free card meets only for uid 0. */
  lemma MixedActionsKeepNothing(i: string, t: Table, cmd: Command, userId: int)
    requires cmd.allocate && ActsOnOwned(cmd) && userId != 0
    ensures Judge(Name(i), t, cmd, false, userId) != Accepted
  {
  }

  /** So such a run selects nothing, whatever ids it names. */
  lemma {:induction false} MixedActionsSelectNothing(t: Table, cmd: Command, userId: int, ids: seq<string>)
    requires ValidTable(t) && cmd.allocate && ActsOnOwned(cmd) && userId != 0
    ensures Select(DefaultIds(t, cmd, false, userId, ids), t, cmd, false, userId) == Selected([])
  {
    var rs := DefaultIds(t, cmd, false, userId, ids);
    var names := IdsOf(rs);
    var keep := Accepts(t, cmd, false, userId);
    SelectNames(names, t, cmd, false, userId);
    FilterMembers(names, keep);
    var kept := Filter(names, keep);
    if kept != [] {
      assert kept[0] in kept;
      MixedActionsKeepNothing(kept[0], t, cmd, userId);
    }
  }
}
