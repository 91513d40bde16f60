/** A read-only snapshot of the files the tool looks at: sysfs, /dev and the
    device table's directory. Paths are plain strings, looked up as written. */
module SysFs {

  datatype FileSystem = FileSystem(
    files: map<string, seq<string>>,  // regular files, with their lines as `readlines()` gives them
    dirs: map<string, seq<string>>,   // directories, with their entries as `os.listdir` gives them
    others: set<string>,              // other existing entries: device nodes, sysfs attributes
    links: map<string, string>)       // `os.path.realpath` of the paths that are symbolic links

  /** The directory that lists every PCI function of the host. */
  const PciDevicesDir: string := "/sys/bus/pci/devices"

  /** `os.path.exists`. */
  predicate Exists(fs: FileSystem, p: string)
  {
    p in fs.files || p in fs.dirs || p in fs.others
  }

  /** `os.path.isdir`. */
  predicate IsDir(fs: FileSystem, p: string) { p in fs.dirs }

  /** `os.path.isfile`. */
  predicate IsFile(fs: FileSystem, p: string) { p in fs.files }

  /** `open(p).readlines()` of a regular file. */
  function ReadLines(fs: FileSystem, p: string): seq<string>
  {
    if p in fs.files then fs.files[p] else []
  }

  /** `os.listdir(p)`. */
  function ListDir(fs: FileSystem, p: string): seq<string>
  {
    if p in fs.dirs then fs.dirs[p] else []
  }

  /** `os.path.realpath`. */
  function RealPath(fs: FileSystem, p: string): string
  {
    if p in fs.links then fs.links[p] else p
  }

  /** `os.listdir('/sys/bus/pci/devices')`. */
  function PciDevices(fs: FileSystem): seq<string>
  {
    ListDir(fs, PciDevicesDir)
  }

  /** The sysfs directory of one PCI function. */
  function DevicePath(id: string): string
  {
    PciDevicesDir + "/" + id
  }

  /** Index of the last '/' in `p`, or -1. */
  function LastSlash(p: string): (k: int)
    ensures -1 <= k < |p|
    ensures k >= 0 ==> p[k] == '/'
    ensures forall j :: k < j < |p| ==> p[j] != '/'
  {
    if p == [] then -1
    else if p[|p| - 1] == '/' then |p| - 1
    else LastSlash(p[..|p| - 1])
  }

  /** `os.path.abspath(p + '/../')` of a normalised absolute path. */
  function ParentDir(p: string): string
  {
    var k := LastSlash(p);
    if k <= 0 then "/" else p[..k]
  }

  /** `os.path.basename`. */
  function BaseName(p: string): string
  {
    p[LastSlash(p) + 1..]
  }

  /** Parent and base name take a path `d/b` apart into `d` and `b`. */
  lemma PathParts(d: string, b: string)
    requires d != [] && d[0] == '/'
    requires '/' !in b
    ensures ParentDir(d + "/" + b) == d
    ensures BaseName(d + "/" + b) == b
  {
    var p := d + "/" + b;
    assert p[|d|] == '/';
    forall j | |d| < j < |p| ensures p[j] != '/' {
      assert p[j] == b[j - |d| - 1];
    }
    assert LastSlash(p) == |d|;
    assert p[..|d|] == d;
    assert p[|d| + 1..] == b;
  }
}
