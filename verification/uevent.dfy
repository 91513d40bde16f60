/** `readUevent` (fpga-util.py:33-38): a sysfs `uevent` file read as a
    dictionary of `KEY=value` lines. */
module Uevent {
  import opened Text
  import opened SysFs

  /** The characters `line.strip('\n\r ')` removes. */
  const UeventStrip: set<char> := {'\n', '\r', ' '}

  /** `line.strip('\n\r ').split('=')`. */
  function Fields(line: string): seq<string>
  {
    Split(Strip(line, UeventStrip), '=')
  }

  /** The line yields an entry for `key`: it has at least two fields and the
      first one is `key`. */
  predicate Defines(line: string, key: string)
  {
    var f := Fields(line);
    |f| >= 2 && f[0] == key
  }

  /** The value a defining line gives: the text between its first and second '='. */
  function ValueOf(line: string): string
    requires |Fields(line)| >= 2
  {
    Fields(line)[1]
  }

  /** The dictionary comprehension over the lines, later lines overriding
      earlier ones. */
  function ParseUevent(lines: seq<string>): map<string, string>
  {
    if lines == [] then map[]
    else
      var m := ParseUevent(lines[..|lines| - 1]);
      var f := Fields(lines[|lines| - 1]);
      if |f| >= 2 then m[f[0] := f[1]] else m
  }

  /** A key maps to the value of the last line that defines it. */
  lemma {:induction false} LastDefinitionWins(lines: seq<string>, key: string, i: nat)
    requires i < |lines| && Defines(lines[i], key)
    requires forall j :: i < j < |lines| ==> !Defines(lines[j], key)
    ensures key in ParseUevent(lines) && ParseUevent(lines)[key] == ValueOf(lines[i])
    decreases |lines|
  {
    var init := lines[..|lines| - 1];
    if i < |lines| - 1 {
      assert init[i] == lines[i];
      forall j | i < j < |init| ensures !Defines(init[j], key) {
        assert init[j] == lines[j];
      }
      LastDefinitionWins(init, key, i);
      assert !Defines(lines[|lines| - 1], key);
    }
  }

  /** A key no line defines is absent. */
  lemma {:induction false} UndefinedKeyAbsent(lines: seq<string>, key: string)
    requires forall j :: 0 <= j < |lines| ==> !Defines(lines[j], key)
    ensures key !in ParseUevent(lines)
    decreases |lines|
  {
    if lines != [] {
      var init := lines[..|lines| - 1];
      forall j | 0 <= j < |init| ensures !Defines(init[j], key) {
        assert init[j] == lines[j];
      }
      UndefinedKeyAbsent(init, key);
      assert !Defines(lines[|lines| - 1], key);
    }
  }

  /** A value is cut at its second '=': "KEY=a=b" gives "a". */
  lemma ValueStopsAtSecondEquals()
    ensures ParseUevent(["KEY=a=b\n"]) == map["KEY" := "a"]
  {
    var line := "KEY=a=b\n";
    var body := "KEY=a=b";
    assert line[0] !in UeventStrip;
    assert StripLeft(line, UeventStrip) == line;
    assert line[..|line| - 1] == body;
    assert body[|body| - 1] !in UeventStrip;
    assert StripRight(body, UeventStrip) == body;
    assert Strip(line, UeventStrip) == body;
    var parts := ["KEY", "a", "b"];
    assert Join(parts, '=') == body;
    SplitJoin(parts, '=');
    assert Fields(line) == parts;
    assert ["KEY=a=b\n"][..0] == [];
  }

  /** `readUevent(path)`: empty when `path/uevent` does not exist. */
  function ReadUevent(fs: FileSystem, path: string): map<string, string>
  {
    var p := path + "/uevent";
    if !Exists(fs, p) then map[] else ParseUevent(ReadLines(fs, p))
  }

  /** A function without a `uevent` file has no metadata at all. */
  lemma AbsentUeventIsEmpty(fs: FileSystem, path: string)
    requires !Exists(fs, path + "/uevent")
    ensures ReadUevent(fs, path) == map[]
  {
  }
}
