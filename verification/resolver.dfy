/** `get_fpga_devs` (fpga-util.py:32-63): the device nodes a card's bound
    drivers currently expose, found through a resolver table keyed by the
    `DRIVER` entry of each function's uevent. */
module Resolver {
  import opened Text
  import opened Seqs
  import opened SysFs
  import opened Pci
  import opened Uevent

  /** The BAR resource files `xdmaResolver` looks for, in this order. */
  const ResourceFiles: seq<string> := ["resource", "resource0", "resource1"]

  /** The candidate resource paths under a function directory. */
  function ResourceCandidates(path: string): seq<string>
  {
    [path + "/" + ResourceFiles[0], path + "/" + ResourceFiles[1], path + "/" + ResourceFiles[2]]
  }

  /** The resource files of fpga-util.py:42-44 that exist, in table order. */
  function ResourceNodes(fs: FileSystem, path: string): seq<string>
  {
    Filter(ResourceCandidates(path), p => Exists(fs, p))
  }

  /** The `/dev` node a child directory of `xdma/` names, when its uevent has a
      `DEVNAME` and that node exists. */
  predicate NamesLiveNode(fs: FileSystem, child: string)
  {
    var u := ReadUevent(fs, child);
    "DEVNAME" in u && Exists(fs, "/dev/" + u["DEVNAME"])
  }

  /** The list comprehension of fpga-util.py:47 over the remaining `entries`. */
  function CharDevNodes(fs: FileSystem, dir: string, entries: seq<string>): seq<string>
  {
    if entries == [] then []
    else
      var child := dir + "/" + entries[0];
      (if IsDir(fs, child) && NamesLiveNode(fs, child)
       then ["/dev/" + ReadUevent(fs, child)["DEVNAME"]] else [])
      + CharDevNodes(fs, dir, entries[1..])
  }

  /** What `xdmaResolver(path)` returns. */
  function XdmaNodes(fs: FileSystem, path: string): seq<string>
  {
    var dir := path + "/xdma";
    ResourceNodes(fs, path) + (if IsDir(fs, dir) then CharDevNodes(fs, dir, ListDir(fs, dir)) else [])
  }

  /** `xdmaResolver` (fpga-util.py:40-48). */
  method XdmaResolver(fs: FileSystem, path: string) returns (xdmaDevs: seq<string>)
    ensures xdmaDevs == XdmaNodes(fs, path)
  {
    xdmaDevs := [];
    var candidates := ResourceCandidates(path);
    for k := 0 to |ResourceFiles|
      invariant xdmaDevs == Filter(candidates[..k], p => Exists(fs, p))
    {
      FilterSnoc(candidates[..k], candidates[k], p => Exists(fs, p));
      assert candidates[..k + 1] == candidates[..k] + [candidates[k]];
      var f := path + "/" + ResourceFiles[k];
      if Exists(fs, f) {
        xdmaDevs := xdmaDevs + [f];
      }
    }
    assert candidates[..3] == candidates;
    var dir := path + "/xdma";
    if IsDir(fs, dir) {
      xdmaDevs := xdmaDevs + CharDevNodes(fs, dir, ListDir(fs, dir));
    }
  }

  /** The resolver table `resolvers = {'xdma': xdmaResolver}`. */
  predicate HasResolver(driver: string)
  {
    driver == "xdma"
  }

  /** One function's contribution to `returnDevs` (fpga-util.py:57-61). */
  function FunctionNodes(fs: FileSystem, id: string): seq<string>
  {
    var path := DevicePath(id);
    var u := ReadUevent(fs, path);
    if "DRIVER" !in u || !HasResolver(u["DRIVER"]) then []
    else XdmaNodes(fs, RealPath(fs, path))
  }

  /** `FunctionNodes` on a fixed snapshot. */
  function Contribution(fs: FileSystem): string -> seq<string>
  {
    id => FunctionNodes(fs, id)
  }

  /** The concatenation of the contributions of `ids`, in order. */
  function NodesOf(fs: FileSystem, ids: seq<string>): seq<string>
  {
    FlatMap(ids, Contribution(fs))
  }

  /** What `get_fpga_devs(fpga)` returns. */
  function FpgaDevs(fs: FileSystem, pciId: string): seq<string>
  {
    NodesOf(fs, FunctionIds(PciDevices(fs), pciId))
  }

  /** Contributions concatenate: the result for `a + b` is that of `a`
      followed by that of `b`. */
  lemma NodesOfAppend(fs: FileSystem, a: seq<string>, b: seq<string>)
    ensures NodesOf(fs, a + b) == NodesOf(fs, a) + NodesOf(fs, b)
  {
    FlatMapAppend(a, b, Contribution(fs));
  }

  /** A function without a `DRIVER` entry, or with a driver the table does not
      know, contributes nothing wherever it stands in the list. */
  lemma UnresolvedFunctionContributesNothing(fs: FileSystem, a: seq<string>, id: string, b: seq<string>)
    requires var u := ReadUevent(fs, DevicePath(id)); "DRIVER" !in u || !HasResolver(u["DRIVER"])
    ensures NodesOf(fs, a + [id] + b) == NodesOf(fs, a + b)
  {
    NodesOfAppend(fs, a + [id], b);
    NodesOfAppend(fs, a, [id]);
    NodesOfAppend(fs, a, b);
    assert NodesOf(fs, [id]) == NodesOf(fs, []) + FunctionNodes(fs, id);
  }

  lemma {:induction false} CharDevNodesExist(fs: FileSystem, dir: string, entries: seq<string>)
    ensures forall n :: n in CharDevNodes(fs, dir, entries) ==> Exists(fs, n)
    decreases |entries|
  {
    if entries != [] {
      CharDevNodesExist(fs, dir, entries[1..]);
    }
  }

  lemma XdmaNodesExist(fs: FileSystem, path: string)
    ensures forall n :: n in XdmaNodes(fs, path) ==> Exists(fs, n)
  {
    FilterMembers(ResourceCandidates(path), p => Exists(fs, p));
    var dir := path + "/xdma";
    if IsDir(fs, dir) {
      CharDevNodesExist(fs, dir, ListDir(fs, dir));
    }
  }

  lemma {:induction false} NodesOfExist(fs: FileSystem, ids: seq<string>)
    ensures forall n :: n in NodesOf(fs, ids) ==> Exists(fs, n)
    decreases |ids|
  {
    if ids != [] {
      NodesOfExist(fs, ids[..|ids| - 1]);
      var id := ids[|ids| - 1];
      var path := DevicePath(id);
      XdmaNodesExist(fs, RealPath(fs, path));
    }
  }

  /** Every node `get_fpga_devs` returns exists, and a card none of whose
      functions is present has no nodes. */
  lemma FpgaDevsExist(fs: FileSystem, pciId: string)
    ensures forall n :: n in FpgaDevs(fs, pciId) ==> Exists(fs, n)
    ensures FunctionIds(PciDevices(fs), pciId) == [] ==> FpgaDevs(fs, pciId) == []
  {
    NodesOfExist(fs, FunctionIds(PciDevices(fs), pciId));
  }

  /** Dispatch through the resolver table; `None` for an unknown driver. */
  method Resolve(fs: FileSystem, driver: string, path: string) returns (devs: Option<seq<string>>)
    ensures devs.Some? <==> HasResolver(driver)
    ensures devs.Some? ==> devs.value == XdmaNodes(fs, path)
  {
    if driver == "xdma" {
      var d := XdmaResolver(fs, path);
      devs := Some(d);
    } else {
      devs := None;
    }
  }

  /** `get_fpga_devs` (fpga-util.py:32-63). */
  method GetFpgaDevs(fs: FileSystem, pciId: string) returns (returnDevs: seq<string>)
    ensures returnDevs == FpgaDevs(fs, pciId)
  {
    returnDevs := [];
    var fpgaDevices := GetDeviceIds(fs, pciId);
    for k := 0 to |fpgaDevices|
      invariant returnDevs == NodesOf(fs, fpgaDevices[..k])
    {
      assert fpgaDevices[..k + 1][..k] == fpgaDevices[..k];
      var path := DevicePath(fpgaDevices[k]);
      var fpgaDevUevent := ReadUevent(fs, path);
      if "DRIVER" !in fpgaDevUevent {
        continue;
      }
      var devs := Resolve(fs, fpgaDevUevent["DRIVER"], RealPath(fs, path));
      if devs.None? {
        continue;
      }
      returnDevs := returnDevs + devs.value;
    }
    assert fpgaDevices[..|fpgaDevices|] == fpgaDevices;
  }
}
