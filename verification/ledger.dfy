/** The allocation ledger and ownership transfer: the marker files under
    /run/lock/fpga-util that record who holds a card (fpga-util.py:199-205,
    :267-274, :353-361), and `ownFpgaDevs`, which hands a card's device nodes
    to a user (fpga-util.py:65-68). */
module Ledger {
  import opened Text
  import opened SysFs
  import opened Resolver
  import opened Mapping

  /** The elements of a list, as a set. */
  function Elems(s: seq<string>): set<string>
  {
    set x | x in s
  }

  /** The owners after `chown`ing every node of `nodes` to `uid`. */
  function Chown(owners: map<string, int>, nodes: set<string>, uid: int): map<string, int>
  {
    map n | n in owners.Keys + nodes :: if n in nodes then uid else owners[n]
  }

  /** Every id is a key of the table (the filter guarantees it). */
  predicate AllKnown(t: Table, ids: seq<string>)
  {
    forall k :: 0 <= k < |ids| ==> ids[k] in t.entries
  }

  /** The nodes of the cards `ids` name, one card after the other. */
  function CardNodes(fs: FileSystem, t: Table, ids: seq<string>): seq<string>
    requires AllKnown(t, ids)
  {
    if ids == [] then []
    else CardNodes(fs, t, ids[..|ids| - 1]) + FpgaDevs(fs, t.entries[ids[|ids| - 1]].pciId)
  }

  /** The serials of the cards `ids` name. */
  function Serials(t: Table, ids: seq<string>): set<string>
  {
    set i | i in ids && i in t.entries :: t.entries[i].serial
  }

  /** The marker of a card held by `uid`: the file holds `str(uid)`. */
  function MarkerOf(uid: int): seq<string>
  {
    [IntToDecimal(uid)]
  }

  /** The marker files after writing one for each serial of `serials`. */
  function Allocated(markers: Markers, serials: set<string>, uid: int): Markers
  {
    map s | s in markers.Keys + serials :: if s in serials then MarkerOf(uid) else markers[s]
  }

  /** The marker files after unlinking those of `serials`. */
  function Released(markers: Markers, serials: set<string>): Markers
  {
    map s | s in markers.Keys - serials :: markers[s]
  }

  /** The ids whose card has a marker. */
  function Held(markers: Markers, t: Table, ids: seq<string>): (r: seq<string>)
    ensures AllKnown(t, r)
  {
    var r := Seqs.Filter(ids, HasMarker(markers, t));
    Seqs.FilterMembers(ids, HasMarker(markers, t));
    assert forall k :: 0 <= k < |r| ==> r[k] in r;
    r
  }

  /** The id names a card that has a marker. */
  function HasMarker(markers: Markers, t: Table): string -> bool
  {
    i => i in t.entries && t.entries[i].serial in markers
  }

  /** The host state the tool changes: the marker files and the owner of
      every device node it has touched. */
  class Host {
    var markers: Markers
    var owners: map<string, int>

    constructor (markers: Markers, owners: map<string, int>)
      ensures this.markers == markers && this.owners == owners
    {
      this.markers := markers;
      this.owners := owners;
    }

    /** `ownFpgaDevs(fpga, uid)` (fpga-util.py:65-68): every node
        `get_fpga_devs` resolves now goes to `uid`; nothing else changes. */
    method OwnFpgaDevs(fs: FileSystem, fpga: Fpga, uid: int)
      modifies this
      ensures markers == old(markers)
      ensures owners == Chown(old(owners), Elems(FpgaDevs(fs, fpga.pciId)), uid)
    {
      var devs := GetFpgaDevs(fs, fpga.pciId);
      for k := 0 to |devs|
        invariant markers == old(markers)
        invariant owners == Chown(old(owners), Elems(devs[..k]), uid)
      {
        ChownPrefix(old(owners), devs, k, uid);
        owners := owners[devs[k] := uid];
      }
      assert devs[..|devs|] == devs;
    }

    /** The allocation block (fpga-util.py:267-274): a marker holding the
        caller's uid for every card, then its nodes handed to the caller. */
    method Allocate(fs: FileSystem, t: Table, ids: seq<string>, userId: int)
      requires AllKnown(t, ids)
      modifies this
      ensures markers == Allocated(old(markers), Serials(t, ids), userId)
      ensures owners == Chown(old(owners), Elems(CardNodes(fs, t, ids)), userId)
    {
      for k := 0 to |ids|
        invariant markers == Allocated(old(markers), Serials(t, ids[..k]), userId)
        invariant owners == Chown(old(owners), Elems(CardNodes(fs, t, ids[..k])), userId)
      {
        var i := ids[k];
        assert ids[..k + 1] == ids[..k] + [i];
        AllocateStep(fs, t, old(markers), old(owners), ids[..k], i, userId);
        markers := markers[t.entries[i].serial := MarkerOf(userId)];
        OwnFpgaDevs(fs, t.entries[i], userId);
      }
      assert ids[..|ids|] == ids;
    }

    /** The release block (fpga-util.py:353-361): every card that has a
        marker gets its nodes back to uid 0, then loses its marker. */
    method Release(fs: FileSystem, t: Table, ids: seq<string>)
      requires KeyedBySerial(t) && AllKnown(t, ids)
      modifies this
      ensures markers == Released(old(markers), Serials(t, ids))
      ensures owners == Chown(old(owners), Elems(CardNodes(fs, t, Held(old(markers), t, ids))), 0)
    {
      ghost var m0 := markers;
      ghost var o0 := owners;
      for k := 0 to |ids|
        invariant markers == Released(m0, Serials(t, ids[..k]))
        invariant owners == Chown(o0, Elems(CardNodes(fs, t, Held(m0, t, ids[..k]))), 0)
      {
        var i := ids[k];
        ReleaseTurn(fs, t, m0, o0, ids, k);
        var serial := t.entries[i].serial;
        if serial in markers {
          OwnFpgaDevs(fs, t.entries[i], 0);
          markers := markers - {serial};
        }
      }
      assert ids[..|ids|] == ids;
    }
  }

  /** One turn of the allocation loop keeps its invariant. */
  lemma AllocateStep(fs: FileSystem, t: Table, m0: Markers, o0: map<string, int>, prefix: seq<string>, i: string, uid: int)
    requires AllKnown(t, prefix) && i in t.entries
    ensures AllKnown(t, prefix + [i])
    ensures Allocated(m0, Serials(t, prefix + [i]), uid) == Allocated(m0, Serials(t, prefix), uid)[t.entries[i].serial := MarkerOf(uid)]
    ensures Chown(o0, Elems(CardNodes(fs, t, prefix + [i])), uid)
      == Chown(Chown(o0, Elems(CardNodes(fs, t, prefix)), uid), Elems(FpgaDevs(fs, t.entries[i].pciId)), uid)
  {
    SerialsSnoc(t, prefix, i);
    AllocatedSnoc(m0, Serials(t, prefix), t.entries[i].serial, uid);
    CardNodesSnoc(fs, t, prefix, i);
    ChownTwice(o0, Elems(CardNodes(fs, t, prefix)), Elems(FpgaDevs(fs, t.entries[i].pciId)), uid);
  }

  /** The `k`-th turn of the release loop takes its invariant from `ids[..k]`
      to `ids[..k + 1]`. */
  lemma ReleaseTurn(fs: FileSystem, t: Table, m0: Markers, o0: map<string, int>, ids: seq<string>, k: nat)
    requires KeyedBySerial(t) && AllKnown(t, ids) && k < |ids|
    ensures var s := t.entries[ids[k]].serial;
      var markers := Released(m0, Serials(t, ids[..k]));
      var owners := Chown(o0, Elems(CardNodes(fs, t, Held(m0, t, ids[..k]))), 0);
      && (if s in markers then markers - {s} else markers) == Released(m0, Serials(t, ids[..k + 1]))
      && (if s in markers then Chown(owners, Elems(FpgaDevs(fs, t.entries[ids[k]].pciId)), 0) else owners)
           == Chown(o0, Elems(CardNodes(fs, t, Held(m0, t, ids[..k + 1]))), 0)
  {
    assert ids[..k + 1] == ids[..k] + [ids[k]];
    ReleaseStepMarkers(t, m0, ids[..k], ids[k]);
    ReleaseStepOwners(fs, t, m0, o0, ids[..k], ids[k]);
  }

  /** One turn of the release loop keeps its invariant on the markers. */
  lemma ReleaseStepMarkers(t: Table, m0: Markers, prefix: seq<string>, i: string)
    requires i in t.entries
    ensures var s := t.entries[i].serial;
      var markers := Released(m0, Serials(t, prefix));
      (if s in markers then markers - {s} else markers) == Released(m0, Serials(t, prefix + [i]))
  {
    var serial := t.entries[i].serial;
    SerialsSnoc(t, prefix, i);
    ReleasedSnoc(m0, Serials(t, prefix), serial);
    if serial !in Released(m0, Serials(t, prefix)) {
      ReleasedAbsent(Released(m0, Serials(t, prefix)), serial);
    }
  }

  /** One turn of the release loop keeps its invariant on the owners. */
  lemma ReleaseStepOwners(fs: FileSystem, t: Table, m0: Markers, o0: map<string, int>, prefix: seq<string>, i: string)
    requires KeyedBySerial(t) && AllKnown(t, prefix) && i in t.entries
    ensures var s := t.entries[i].serial;
      var owners := Chown(o0, Elems(CardNodes(fs, t, Held(m0, t, prefix))), 0);
      (if s in Released(m0, Serials(t, prefix)) then Chown(owners, Elems(FpgaDevs(fs, t.entries[i].pciId)), 0) else owners)
         == Chown(o0, Elems(CardNodes(fs, t, Held(m0, t, prefix + [i]))), 0)
  {
    var serial := t.entries[i].serial;
    var done := Serials(t, prefix);
    var before := Held(m0, t, prefix);
    HeldSnoc(m0, t, prefix, i);
    if serial in Released(m0, done) {
      assert Held(m0, t, prefix + [i]) == before + [i];
      CardNodesSnoc(fs, t, before, i);
      ChownTwice(o0, Elems(CardNodes(fs, t, before)), Elems(FpgaDevs(fs, t.entries[i].pciId)), 0);
    } else if serial in m0 {
      assert serial in done;
      assert Held(m0, t, prefix + [i]) == before + [i];
      ReleasedAgain(fs, t, m0, prefix, i);
    } else {
      assert Held(m0, t, prefix + [i]) == before;
    }
  }

  lemma ReleasedAbsent(markers: Markers, s: string)
    requires s !in markers
    ensures markers - {s} == markers
  {
  }

  lemma HeldSnoc(markers: Markers, t: Table, ids: seq<string>, i: string)
    requires i in t.entries
    ensures Held(markers, t, ids + [i])
      == Held(markers, t, ids) + (if t.entries[i].serial in markers then [i] else [])
  {
    Seqs.FilterSnoc(ids, i, HasMarker(markers, t));
  }

  lemma ReleasedSnoc(markers: Markers, serials: set<string>, s: string)
    ensures Released(markers, serials + {s}) == Released(markers, serials) - {s}
  {
  }

  /** Handing over one more node of a list. */
  lemma ChownPrefix(owners: map<string, int>, nodes: seq<string>, k: nat, uid: int)
    requires k < |nodes|
    ensures Chown(owners, Elems(nodes[..k + 1]), uid) == Chown(owners, Elems(nodes[..k]), uid)[nodes[k] := uid]
  {
    assert nodes[..k + 1] == nodes[..k] + [nodes[k]];
    ElemsSnoc(nodes[..k], nodes[k]);
    ChownSnoc(owners, Elems(nodes[..k]), nodes[k], uid);
  }

  lemma ElemsSnoc(s: seq<string>, x: string)
    ensures Elems(s + [x]) == Elems(s) + {x}
  {
  }

  lemma ChownSnoc(owners: map<string, int>, a: set<string>, x: string, uid: int)
    ensures Chown(owners, a + {x}, uid) == Chown(owners, a, uid)[x := uid]
  {
  }

  lemma ChownTwice(owners: map<string, int>, a: set<string>, b: set<string>, uid: int)
    ensures Chown(Chown(owners, a, uid), b, uid) == Chown(owners, a + b, uid)
  {
  }

  lemma SerialsSnoc(t: Table, ids: seq<string>, i: string)
    requires i in t.entries
    ensures Serials(t, ids + [i]) == Serials(t, ids) + {t.entries[i].serial}
  {
    assert forall x :: x in ids + [i] <==> x in ids || x == i;
  }

  lemma AllocatedSnoc(markers: Markers, serials: set<string>, s: string, uid: int)
    ensures Allocated(markers, serials + {s}, uid) == Allocated(markers, serials, uid)[s := MarkerOf(uid)]
  {
  }

  lemma CardNodesSnoc(fs: FileSystem, t: Table, ids: seq<string>, i: string)
    requires AllKnown(t, ids) && i in t.entries
    ensures AllKnown(t, ids + [i])
    ensures Elems(CardNodes(fs, t, ids + [i])) == Elems(CardNodes(fs, t, ids)) + Elems(FpgaDevs(fs, t.entries[i].pciId))
  {
    assert (ids + [i])[..|ids|] == ids;
  }

  /** A card that appears again contributes nodes already counted. */
  lemma {:induction false} CardNodesCovers(fs: FileSystem, t: Table, ids: seq<string>, i: string)
    requires AllKnown(t, ids) && i in ids
    ensures Elems(FpgaDevs(fs, t.entries[i].pciId)) <= Elems(CardNodes(fs, t, ids))
    decreases |ids|
  {
    var init := ids[..|ids| - 1];
    if ids[|ids| - 1] != i {
      var k :| 0 <= k < |ids| && ids[k] == i;
      assert init[k] == i;
      CardNodesCovers(fs, t, init, i);
    }
  }

  /** The release loop meeting an id whose marker an earlier occurrence of
      the same id has already unlinked: its nodes are already counted. */
  lemma ReleasedAgain(fs: FileSystem, t: Table, markers: Markers, prefix: seq<string>, i: string)
    requires KeyedBySerial(t) && AllKnown(t, prefix) && i in t.entries
    requires t.entries[i].serial in markers && t.entries[i].serial in Serials(t, prefix)
    ensures Elems(CardNodes(fs, t, Held(markers, t, prefix) + [i])) == Elems(CardNodes(fs, t, Held(markers, t, prefix)))
  {
    var keep := HasMarker(markers, t);
    var j :| j in prefix && j in t.entries && t.entries[j].serial == t.entries[i].serial;
    assert j == i;
    Seqs.FilterMembers(prefix, keep);
    var before := Held(markers, t, prefix);
    CardNodesSnoc(fs, t, before, i);
    CardNodesCovers(fs, t, before, i);
  }

  // ---------------------------------------------------------------------
  // What the ledger records

  /** After an allocation the next table load reads each allocated card as
      held by the caller; the other cards read as before. */
  lemma AllocationReadsBack(markers: Markers, serials: set<string>, uid: int, s: string)
    ensures s in serials ==> MarkerOwner(Allocated(markers, serials, uid), s) == Uid(uid)
    ensures s !in serials ==> MarkerOwner(Allocated(markers, serials, uid), s) == MarkerOwner(markers, s)
  {
    var m := Allocated(markers, serials, uid);
    if s in serials {
      assert s in m && m[s] == MarkerOf(uid);
      MarkerReadsBack(uid);
    } else if s in markers {
      assert s in m && m[s] == markers[s];
    } else {
      assert s !in m;
    }
  }

  /** The first line of a marker is read back as the uid it was written with. */
  lemma MarkerReadsBack(uid: int)
    ensures MarkerOf(uid) != [] && ParseInt(MarkerOf(uid)[0]) == Some(uid)
  {
    IntRoundTrip(uid);
  }

  /** After a release the next table load reads each released card as free;
      the other cards read as before. */
  lemma ReleaseReadsFree(markers: Markers, serials: set<string>, s: string)
    ensures s in serials ==> MarkerOwner(Released(markers, serials), s) == Free
    ensures s !in serials ==> MarkerOwner(Released(markers, serials), s) == MarkerOwner(markers, s)
  {
  }

  /** After an allocation every allocated card has a marker. */
  lemma AllocatedAreHeld(t: Table, markers: Markers, ids: seq<string>, uid: int)
    requires AllKnown(t, ids)
    ensures Held(Allocated(markers, Serials(t, ids), uid), t, ids) == ids
  {
    var held := Allocated(markers, Serials(t, ids), uid);
    forall k | 0 <= k < |ids| ensures ids[k] in t.entries && t.entries[ids[k]].serial in held {
      assert ids[k] in ids;
    }
    Seqs.FilterAll(ids, HasMarker(held, t));
  }

  /** Map identities used by `AllocateThenRelease`. */
  lemma ChownBack(owners: map<string, int>, nodes: set<string>, uid: int)
    ensures Chown(Chown(owners, nodes, uid), nodes, 0) == Chown(owners, nodes, 0)
  {
  }

  lemma ReleaseUndoesAllocation(markers: Markers, serials: set<string>, uid: int)
    ensures Released(Allocated(markers, serials, uid), serials) == Released(markers, serials)
    ensures serials !! markers.Keys ==> Released(markers, serials) == markers
  {
  }

  /** Releasing the cards just allocated: every one of them has a marker, so
      all their nodes go back to uid 0 and every marker is unlinked; when the
      cards were free to begin with the marker files are as they were. */
  lemma AllocateThenRelease(fs: FileSystem, t: Table, markers: Markers, owners: map<string, int>, ids: seq<string>, uid: int)
    requires AllKnown(t, ids)
    ensures var serials := Serials(t, ids);
      var held := Allocated(markers, serials, uid);
      var nodes := Elems(CardNodes(fs, t, ids));
      && Held(held, t, ids) == ids
      && Chown(Chown(owners, nodes, uid), Elems(CardNodes(fs, t, Held(held, t, ids))), 0) == Chown(owners, nodes, 0)
      && Released(held, serials) == Released(markers, serials)
      && (serials !! markers.Keys ==> Released(held, serials) == markers)
  {
    AllocatedAreHeld(t, markers, ids, uid);
    ChownBack(owners, Elems(CardNodes(fs, t, ids)), uid);
    ReleaseUndoesAllocation(markers, Serials(t, ids), uid);
  }
}
