/** Enumerating the PCI functions of one card and locating its upstream
    bridge (fpga-util.py:17-30). A card is named by its bus prefix `pci_id`
    (for example "3b:00"); its functions are the entries of
    /sys/bus/pci/devices that match `^0000:<pci_id>:[a-fA-F0-9]{2}\.[0-7]$`. */
module Pci {
  import opened Text
  import opened Seqs
  import opened SysFs

  predicate IsOctalDigit(c: char) { '0' <= c <= '7' }

  /** The address "0000:<pciId>:<h1><h2>.<d>". */
  function Address(pciId: string, h1: char, h2: char, d: char): string
  {
    "0000:" + pciId + ":" + [h1, h2] + "." + [d]
  }

  /** `c` is, character for character, a function address of `pciId`
      (`pciId` is matched literally, as `re.escape` makes it). */
  predicate IsAddressOf(c: string, pciId: string)
  {
    var n := |pciId|;
    && |c| == n + 10
    && c[..5] == "0000:"
    && c[5..5 + n] == pciId
    && c[5 + n] == ':'
    && IsHexDigit(c[6 + n]) && IsHexDigit(c[7 + n])
    && c[8 + n] == '.'
    && IsOctalDigit(c[9 + n])
  }

  /** The `re.match` of fpga-util.py:19 and :28. Python's `$` matches at the
      end of the text and also just before a newline that ends it. */
  predicate IsFunctionOf(entry: string, pciId: string)
  {
    || IsAddressOf(entry, pciId)
    || (entry != [] && entry[|entry| - 1] == '\n' && IsAddressOf(entry[..|entry| - 1], pciId))
  }

  /** Every well-formed address matches, with or without a final newline. */
  lemma AddressMatches(pciId: string, h1: char, h2: char, d: char)
    requires IsHexDigit(h1) && IsHexDigit(h2) && IsOctalDigit(d)
    ensures IsFunctionOf(Address(pciId, h1, h2, d), pciId)
    ensures IsFunctionOf(Address(pciId, h1, h2, d) + "\n", pciId)
  {
    var a := Address(pciId, h1, h2, d);
    var n := |pciId|;
    assert a[..5] == "0000:";
    assert a[5..5 + n] == pciId;
    assert (a + "\n")[..|a|] == a;
  }

  /** Every matching entry is a well-formed address, possibly followed by a newline. */
  lemma MatchIsAddress(entry: string, pciId: string)
    requires IsFunctionOf(entry, pciId)
    ensures var n := |pciId|;
      && |entry| >= n + 10
      && IsHexDigit(entry[6 + n]) && IsHexDigit(entry[7 + n]) && IsOctalDigit(entry[9 + n])
      && var a := Address(pciId, entry[6 + n], entry[7 + n], entry[9 + n]);
         entry == a || entry == a + "\n"
  {
    if IsAddressOf(entry, pciId) {
      AddressOfIsAddress(entry, pciId);
    } else {
      var c := entry[..|entry| - 1];
      var n := |pciId|;
      AddressOfIsAddress(c, pciId);
      assert entry == c + "\n";
      assert c[6 + n] == entry[6 + n] && c[7 + n] == entry[7 + n] && c[9 + n] == entry[9 + n];
    }
  }

  /** An address of `pciId` is the address built from its digits. */
  lemma AddressOfIsAddress(c: string, pciId: string)
    requires IsAddressOf(c, pciId)
    ensures c == Address(pciId, c[6 + |pciId|], c[7 + |pciId|], c[9 + |pciId|])
  {
    var n := |pciId|;
    var h1, h2, d := c[6 + n], c[7 + n], c[9 + n];
    calc {
      c;
      { assert c == c[..5] + c[5..5 + n] + c[5 + n..]; }
      c[..5] + c[5..5 + n] + c[5 + n..];
      { assert c[5 + n..] == [':', h1, h2, '.', d]; }
      "0000:" + pciId + [':', h1, h2, '.', d];
      { assert [':', h1, h2, '.', d] == ":" + [h1, h2] + "." + [d]; }
      "0000:" + pciId + (":" + [h1, h2] + "." + [d]);
      { assert "0000:" + pciId + (":" + [h1, h2] + "." + [d]) == "0000:" + pciId + ":" + [h1, h2] + "." + [d]; }
      Address(pciId, h1, h2, d);
    }
  }

  /** A function belongs to one card only: the address fixes the bus prefix. */
  lemma FunctionOfOneCard(entry: string, p: string, q: string)
    requires IsFunctionOf(entry, p) && IsFunctionOf(entry, q)
    ensures p == q
  {
    var e := entry;
    var c := if e != [] && e[|e| - 1] == '\n' then e[..|e| - 1] else e;
    assert IsAddressOf(c, p) && IsAddressOf(c, q);
    assert p == c[5..5 + |p|];
  }

  /** `get_fpga_device_ids` as a value: the matching entries, in listing order. */
  function FunctionIds(listing: seq<string>, pciId: string): seq<string>
  {
    Filter(listing, e => IsFunctionOf(e, pciId))
  }

  /** The function list holds exactly the matching entries, in listing order,
      and nothing else. */
  lemma FunctionIdsExact(listing: seq<string>, pciId: string)
    ensures forall e :: e in FunctionIds(listing, pciId) <==> e in listing && IsFunctionOf(e, pciId)
    ensures IsSubsequence(FunctionIds(listing, pciId), listing)
  {
    FilterMembers(listing, e => IsFunctionOf(e, pciId));
    FilterIsSubsequence(listing, e => IsFunctionOf(e, pciId));
  }

  /** `get_fpga_device_ids` (fpga-util.py:25-30). */
  method GetDeviceIds(fs: FileSystem, pciId: string) returns (result: seq<string>)
    ensures result == FunctionIds(PciDevices(fs), pciId)
  {
    var listing := PciDevices(fs);
    result := [];
    for k := 0 to |listing|
      invariant result == FunctionIds(listing[..k], pciId)
    {
      FilterSnoc(listing[..k], listing[k], e => IsFunctionOf(e, pciId));
      assert listing[..k + 1] == listing[..k] + [listing[k]];
      if IsFunctionOf(listing[k], pciId) {
        result := result + [listing[k]];
      }
    }
    assert listing[..|listing|] == listing;
  }

  /** `os.path.abspath(os.path.realpath(<function dir>) + '/../')`. */
  function BridgePath(fs: FileSystem, entry: string): string
  {
    ParentDir(RealPath(fs, DevicePath(entry)))
  }

  /** The loop of `get_fpga_bridge_id` over the remaining `entries`. */
  function FirstBridge(fs: FileSystem, entries: seq<string>, pciId: string): Option<string>
  {
    if entries == [] then None
    else if BridgeCandidate(fs, entries[0], pciId) then
      Some(BaseName(BridgePath(fs, entries[0])))
    else FirstBridge(fs, entries[1..], pciId)
  }

  /** `get_fpga_bridge_id` as a value. */
  function BridgeOf(fs: FileSystem, pciId: string): Option<string>
  {
    FirstBridge(fs, PciDevices(fs), pciId)
  }

  /** The function at `e` belongs to the card and its parent directory exists. */
  predicate BridgeCandidate(fs: FileSystem, e: string, pciId: string)
  {
    IsFunctionOf(e, pciId) && Exists(fs, BridgePath(fs, e))
  }

  /** The bridge is the base name of the parent of the first function of the
      card whose parent directory exists. */
  lemma {:induction false} FirstCandidateGivesBridge(fs: FileSystem, entries: seq<string>, pciId: string, k: nat)
    requires k < |entries| && BridgeCandidate(fs, entries[k], pciId)
    requires forall j :: 0 <= j < k ==> !BridgeCandidate(fs, entries[j], pciId)
    ensures FirstBridge(fs, entries, pciId) == Some(BaseName(BridgePath(fs, entries[k])))
    decreases k
  {
    if k > 0 {
      assert !BridgeCandidate(fs, entries[0], pciId);
      assert entries[1..][k - 1] == entries[k];
      forall j | 0 <= j < k - 1 ensures !BridgeCandidate(fs, entries[1..][j], pciId) {
        assert entries[1..][j] == entries[j + 1];
      }
      FirstCandidateGivesBridge(fs, entries[1..], pciId, k - 1);
    }
  }

  /** When no function of the card has an existing parent there is no bridge. */
  lemma {:induction false} NoCandidateNoBridge(fs: FileSystem, entries: seq<string>, pciId: string)
    requires forall j :: 0 <= j < |entries| ==> !BridgeCandidate(fs, entries[j], pciId)
    ensures FirstBridge(fs, entries, pciId) == None
    decreases |entries|
  {
    if entries != [] {
      assert !BridgeCandidate(fs, entries[0], pciId);
      forall j | 0 <= j < |entries| - 1 ensures !BridgeCandidate(fs, entries[1..][j], pciId) {
        assert entries[1..][j] == entries[j + 1];
      }
      NoCandidateNoBridge(fs, entries[1..], pciId);
    }
  }

  /** Without a present function there is no bridge. */
  lemma NoFunctionNoBridge(fs: FileSystem, pciId: string)
    requires FunctionIds(PciDevices(fs), pciId) == []
    ensures BridgeOf(fs, pciId) == None
  {
    var listing := PciDevices(fs);
    FunctionIdsExact(listing, pciId);
    forall j | 0 <= j < |listing| ensures !BridgeCandidate(fs, listing[j], pciId) {
      assert listing[j] in listing;
    }
    NoCandidateNoBridge(fs, listing, pciId);
  }

  /** `get_fpga_bridge_id` (fpga-util.py:17-23). */
  method GetBridgeId(fs: FileSystem, pciId: string) returns (bridge: Option<string>)
    ensures bridge == BridgeOf(fs, pciId)
  {
    var listing := PciDevices(fs);
    for k := 0 to |listing|
      invariant FirstBridge(fs, listing[k..], pciId) == BridgeOf(fs, pciId)
    {
      assert listing[k..][1..] == listing[k + 1..];
      if IsFunctionOf(listing[k], pciId) {
        var bridgePath := BridgePath(fs, listing[k]);
        if Exists(fs, bridgePath) {
          assert BridgeCandidate(fs, listing[k..][0], pciId);
          return Some(BaseName(bridgePath));
        }
      }
    }
    return None;
  }
}
