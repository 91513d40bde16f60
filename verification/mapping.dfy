/** The device table (fpga-util.py:192-215): one line per card,
    `serial pci_id quirk board script`, read into the dictionary `fpgaMapping`
    together with each card's owner taken from the ledger's marker files. */
module Mapping {
  import opened Text
  import opened SysFs

  /** `user_id`: Python's `False` (free) or the int read from the marker. */
  datatype Owner = Free | Uid(uid: int)

  /** One entry of `fpgaMapping`. */
  datatype Fpga = Fpga(
    serial: string,
    pciId: string,
    quirk: string,
    board: string,
    flashTcl: string,
    userId: Owner)

  /** The marker files of the ledger directory: file name to lines. */
  type Markers = map<string, seq<string>>

  /** The characters `strip('\n\r ')` removes. */
  const LineStrip: set<char> := {'\n', '\r', ' '}

  /** `line.replace('\t', ' ').replace('  ', ' ').strip('\n\r ')`. */
  function Normalise(line: string): string
  {
    Strip(Replace(Replace(line, "\t", " "), "  ", " "), LineStrip)
  }

  /** The fields of a line: its normal form split on ' '. */
  function LineFields(line: string): seq<string>
  {
    Split(Normalise(line), ' ')
  }

  /** fpga-util.py:197: a relative script path is taken relative to the
      directory of the table file (`os.path.isabs` is a leading '/'). */
  function ScriptPath(field: string, mappingDir: string): string
  {
    if field != [] && field[0] == '/' then field else mappingDir + "/" + field
  }

  /** fpga-util.py:199-205: the int on the marker's first line; `Free` when
      there is no marker, it is empty, or `int()` refuses its first line. */
  function MarkerOwner(markers: Markers, serial: string): (r: Owner)
    ensures r.Uid? <==> serial in markers && markers[serial] != [] && ParseInt(markers[serial][0]).Some?
    ensures r.Uid? ==> ParseInt(markers[serial][0]) == Some(r.uid)
  {
    if serial !in markers || markers[serial] == [] then Free
    else match ParseInt(markers[serial][0])
      case None => Free
      case Some(n) => Uid(n)
  }

  /** What one line of the table does. */
  datatype LineOutcome =
    | Skipped                   // not exactly five fields: dropped silently
    | MissingScript(path: string)  // five fields but no such script: dropped with a diagnostic
    | Entry(fpga: Fpga)         // a table entry

  /** What a line contributes: an entry exactly when it has five fields and
      its script exists, filed under its first field with the owner its
      marker names. */
  function ParseLine(line: string, mappingDir: string, fs: FileSystem, markers: Markers): LineOutcome
  {
    var parts := LineFields(line);
    if |parts| != 5 then Skipped
    else
      var script := ScriptPath(parts[4], mappingDir);
      if !IsFile(fs, script) then MissingScript(script)
      else Entry(Fpga(parts[0], parts[1], parts[2], parts[3], script, MarkerOwner(markers, parts[0])))
  }

  /** A line is an entry exactly when it has five fields and its script
      exists, and a missing-script diagnostic exactly when it has five
      fields and its script does not. An entry holds the five fields in
      order (`serial pci_id quirk board script`), the script resolved, and
      the owner its marker names. */
  lemma ParseLineMeaning(line: string, mappingDir: string, fs: FileSystem, markers: Markers)
    ensures var r := ParseLine(line, mappingDir, fs, markers);
      var parts := LineFields(line);
      && (r.Entry? <==> |parts| == 5 && IsFile(fs, ScriptPath(parts[4], mappingDir)))
      && (r.MissingScript? <==> |parts| == 5 && !IsFile(fs, ScriptPath(parts[4], mappingDir)))
      && (r.MissingScript? ==> r.path == ScriptPath(parts[4], mappingDir))
      && (r.Entry? ==>
            && r.fpga.serial == parts[0]
            && r.fpga.pciId == parts[1]
            && r.fpga.quirk == parts[2]
            && r.fpga.board == parts[3]
            && r.fpga.flashTcl == ScriptPath(parts[4], mappingDir)
            && r.fpga.userId == MarkerOwner(markers, parts[0]))
  {
  }

  /** A Python dict: its keys in insertion order and its entries. */
  datatype Table = Table(order: seq<string>, entries: map<string, Fpga>)

  /** `d[key] = v`: a new key goes to the end, an existing one keeps its place. */
  function Insert(t: Table, key: string, v: Fpga): Table
  {
    Table(if key in t.entries then t.order else t.order + [key], t.entries[key := v])
  }

  /** The dictionary is well formed, and each entry is filed under its serial. */
  predicate ValidTable(t: Table)
  {
    && (forall k :: 0 <= k < |t.order| ==> t.order[k] in t.entries)
    && (forall key :: key in t.entries ==> key in t.order)
    && (forall j, k :: 0 <= j < k < |t.order| ==> t.order[j] != t.order[k])
    && KeyedBySerial(t)
  }

  /** Each entry is filed under its own serial. */
  predicate KeyedBySerial(t: Table)
  {
    forall key :: key in t.entries ==> t.entries[key].serial == key
  }

  /** The table and the diagnostics after reading `lines`. */
  datatype Loaded = Loaded(table: Table, missing: seq<string>)

  /** The effect of one line on what has been read so far. */
  function Step(before: Loaded, o: LineOutcome): Loaded
  {
    match o
    case Skipped => before
    case MissingScript(p) => Loaded(before.table, before.missing + [p])
    case Entry(f) => Loaded(Insert(before.table, f.serial, f), before.missing)
  }

  /** The line parser of the tool as a value. */
  function LineParser(mappingDir: string, fs: FileSystem, markers: Markers): string -> LineOutcome
  {
    line => ParseLine(line, mappingDir, fs, markers)
  }

  /** What reading `lines` in order gives, `parse` telling what each line is. */
  function LoadWith(lines: seq<string>, parse: string -> LineOutcome): Loaded
  {
    if lines == [] then Loaded(Table([], map[]), [])
    else Step(LoadWith(lines[..|lines| - 1], parse), parse(lines[|lines| - 1]))
  }

  /** What the tool reads from the lines of the table file. */
  function Load(lines: seq<string>, mappingDir: string, fs: FileSystem, markers: Markers): Loaded
  {
    LoadWith(lines, LineParser(mappingDir, fs, markers))
  }

  lemma LoadSnoc(lines: seq<string>, line: string, parse: string -> LineOutcome)
    ensures LoadWith(lines + [line], parse) == Step(LoadWith(lines, parse), parse(line))
  {
    assert (lines + [line])[..|lines|] == lines;
  }

  /** Reading one more line. */
  lemma LoadPrefix(lines: seq<string>, k: nat, parse: string -> LineOutcome)
    requires k < |lines|
    ensures LoadWith(lines[..k + 1], parse) == Step(LoadWith(lines[..k], parse), parse(lines[k]))
  {
    assert lines[..k + 1] == lines[..k] + [lines[k]];
    LoadSnoc(lines[..k], lines[k], parse);
  }

  /** Reading the table (fpga-util.py:192-215). */
  method LoadMapping(lines: seq<string>, mappingDir: string, fs: FileSystem, markers: Markers)
    returns (fpgaMapping: Table, missing: seq<string>)
    ensures Loaded(fpgaMapping, missing) == Load(lines, mappingDir, fs, markers)
  {
    fpgaMapping := Table([], map[]);
    missing := [];
    ghost var parse := LineParser(mappingDir, fs, markers);
    for k := 0 to |lines|
      invariant Loaded(fpgaMapping, missing) == LoadWith(lines[..k], parse)
    {
      LoadPrefix(lines, k, parse);
      var o := ParseLine(lines[k], mappingDir, fs, markers);
      match o
      case Skipped =>
      case MissingScript(script) =>
        missing := missing + [script];
      case Entry(fpga) =>
        fpgaMapping := Insert(fpgaMapping, fpga.serial, fpga);
    }
    assert lines[..|lines|] == lines;
  }

  lemma InsertKeepsValid(t: Table, f: Fpga)
    requires ValidTable(t)
    ensures ValidTable(Insert(t, f.serial, f))
  {
    var t' := Insert(t, f.serial, f);
    if f.serial !in t.entries {
      forall j, k | 0 <= j < k < |t'.order| ensures t'.order[j] != t'.order[k] {
        if k == |t.order| {
          assert t.order[j] in t.entries;
        }
      }
    }
  }

  /** Every table read from a file is well formed: its keys are distinct, in
      insertion order, and each entry is filed under its own serial. */
  lemma LoadIsValid(lines: seq<string>, mappingDir: string, fs: FileSystem, markers: Markers)
    ensures ValidTable(Load(lines, mappingDir, fs, markers).table)
  {
    LoadWithIsValid(lines, LineParser(mappingDir, fs, markers));
  }

  /** Reading with any parser keeps the table well formed. */
  lemma {:induction false} LoadWithIsValid(lines: seq<string>, parse: string -> LineOutcome)
    ensures ValidTable(LoadWith(lines, parse).table)
    decreases |lines|
  {
    if lines != [] {
      LoadWithIsValid(lines[..|lines| - 1], parse);
      var before := LoadWith(lines[..|lines| - 1], parse);
      var o := parse(lines[|lines| - 1]);
      if o.Entry? {
        InsertKeepsValid(before.table, o.fpga);
      }
    }
  }

  /** The line parses to an entry for `serial`. */
  predicate EntryFor(o: LineOutcome, serial: string)
  {
    o.Entry? && o.fpga.serial == serial
  }

  /** A line that is not an entry for `serial` leaves that serial's entry alone. */
  lemma StepOther(before: Loaded, o: LineOutcome, serial: string)
    requires !EntryFor(o, serial)
    ensures var after := Step(before, o).table.entries;
      (serial in after <==> serial in before.table.entries)
      && (serial in after ==> after[serial] == before.table.entries[serial])
  {
  }

  /** A line that is an entry files it under its serial. */
  lemma StepSame(before: Loaded, o: LineOutcome)
    requires o.Entry?
    ensures var after := Step(before, o).table.entries;
      o.fpga.serial in after && after[o.fpga.serial] == o.fpga
  {
  }

  /** The entry for a serial is the one of the last line that gives it. */
  lemma LastLineWins(lines: seq<string>, mappingDir: string, fs: FileSystem, markers: Markers, serial: string, i: nat)
    requires i < |lines| && EntryFor(ParseLine(lines[i], mappingDir, fs, markers), serial)
    requires forall j :: i < j < |lines| ==> !EntryFor(ParseLine(lines[j], mappingDir, fs, markers), serial)
    ensures var t := Load(lines, mappingDir, fs, markers).table;
      serial in t.entries && t.entries[serial] == ParseLine(lines[i], mappingDir, fs, markers).fpga
  {
    LastEntryWins(lines, LineParser(mappingDir, fs, markers), serial, i);
  }

  /** `LastLineWins` for any parser. */
  lemma {:induction false} LastEntryWins(lines: seq<string>, parse: string -> LineOutcome, serial: string, i: nat)
    requires i < |lines| && EntryFor(parse(lines[i]), serial)
    requires forall j :: i < j < |lines| ==> !EntryFor(parse(lines[j]), serial)
    ensures var t := LoadWith(lines, parse).table;
      serial in t.entries && t.entries[serial] == parse(lines[i]).fpga
    decreases |lines|
  {
    var init := lines[..|lines| - 1];
    var before := LoadWith(init, parse);
    var last := parse(lines[|lines| - 1]);
    if i < |lines| - 1 {
      assert init[i] == lines[i];
      forall j | i < j < |init| ensures !EntryFor(parse(init[j]), serial) {
        assert init[j] == lines[j];
      }
      LastEntryWins(init, parse, serial, i);
      StepOther(before, last, serial);
    } else {
      StepSame(before, last);
    }
  }

  /** A serial no line gives has no entry. */
  lemma UnlistedSerialAbsent(lines: seq<string>, mappingDir: string, fs: FileSystem, markers: Markers, serial: string)
    requires forall j :: 0 <= j < |lines| ==> !EntryFor(ParseLine(lines[j], mappingDir, fs, markers), serial)
    ensures serial !in Load(lines, mappingDir, fs, markers).table.entries
  {
    NoEntryAbsent(lines, LineParser(mappingDir, fs, markers), serial);
  }

  /** `UnlistedSerialAbsent` for any parser. */
  lemma {:induction false} NoEntryAbsent(lines: seq<string>, parse: string -> LineOutcome, serial: string)
    requires forall j :: 0 <= j < |lines| ==> !EntryFor(parse(lines[j]), serial)
    ensures serial !in LoadWith(lines, parse).table.entries
    decreases |lines|
  {
    if lines != [] {
      var init := lines[..|lines| - 1];
      forall j | 0 <= j < |init| ensures !EntryFor(parse(init[j]), serial) {
        assert init[j] == lines[j];
      }
      NoEntryAbsent(init, parse, serial);
      StepOther(LoadWith(init, parse), parse(lines[|lines| - 1]), serial);
    }
  }

  // ---------------------------------------------------------------------
  // The line format

  /** A field as the table writes it: not empty, without blanks or line ends. */
  predicate PlainField(f: string)
  {
    f != [] && forall k :: 0 <= k < |f| ==> f[k] !in {' ', '\t', '\n', '\r'}
  }

  /** "Two blanks" occurs at index `k`. */
  predicate DoubleSpaceAt(s: string, k: nat)
  {
    k + 1 < |s| && s[k] == ' ' && s[k + 1] == ' '
  }

  /** Text that normalisation leaves alone: no tab or line end, no two
      blanks in a row, and neither starting nor ending with a blank. */
  predicate Tidy(s: string)
  {
    && s != [] && s[0] != ' ' && s[|s| - 1] != ' '
    && (forall k :: 0 <= k < |s| ==> s[k] != '\t' && s[k] != '\n' && s[k] != '\r')
    && forall k: nat :: k < |s| ==> !DoubleSpaceAt(s, k)
  }

  lemma {:induction false} JoinIsTidy(fields: seq<string>)
    requires |fields| >= 1
    requires forall k :: 0 <= k < |fields| ==> PlainField(fields[k])
    ensures Tidy(Join(fields, ' '))
    decreases |fields|
  {
    var f := fields[0];
    assert PlainField(f);
    if |fields| > 1 {
      var rest := fields[1..];
      forall k | 0 <= k < |rest| ensures PlainField(rest[k]) {
        assert rest[k] == fields[k + 1];
      }
      JoinIsTidy(rest);
      var t := Join(rest, ' ');
      var s := Join(fields, ' ');
      assert s == f + [' '] + t;
      forall k | 0 <= k < |s| ensures s[k] != '\t' && s[k] != '\n' && s[k] != '\r' {
        if k > |f| {
          assert s[k] == t[k - |f| - 1];
        }
      }
      forall k: nat | k < |s| ensures !DoubleSpaceAt(s, k) {
        if k > |f| && k + 1 < |s| {
          assert s[k] == t[k - |f| - 1] && s[k + 1] == t[k - |f|];
          assert !DoubleSpaceAt(t, k - |f| - 1);
        } else if k == |f| {
          assert s[k + 1] == t[0];
        }
      }
      assert s[|s| - 1] == t[|t| - 1];
    }
  }

  /** Normalising a tidy line with its newline gives the line back. */
  lemma NormaliseTidy(s: string)
    requires Tidy(s)
    ensures Normalise(s + "\n") == s
  {
    var line := s + "\n";
    calc {
      Normalise(line);
      Strip(Replace(Replace(line, "\t", " "), "  ", " "), LineStrip);
      { TidyLineHasNoTab(s); }
      Strip(Replace(line, "  ", " "), LineStrip);
      { TidyLineHasNoDoubleSpace(s); }
      Strip(line, LineStrip);
      { StripOneTrailing(s, '\n', LineStrip); }
      s;
    }
  }

  lemma TidyLineHasNoTab(s: string)
    requires Tidy(s)
    ensures Replace(s + "\n", "\t", " ") == s + "\n"
  {
    var line := s + "\n";
    ReplaceChar(line, '\t', ' ');
    var a := Replace(line, "\t", " ");
    forall k | 0 <= k < |line| ensures a[k] == line[k] {
      if k < |s| {
        assert line[k] == s[k];
      }
    }
  }

  lemma TidyLineHasNoDoubleSpace(s: string)
    requires Tidy(s)
    ensures Replace(s + "\n", "  ", " ") == s + "\n"
  {
    var line := s + "\n";
    forall k: nat | k <= |line| ensures !OccursAt(line, k, "  ") {
      if k + 2 <= |line| {
        assert line[k..k + 2] == [line[k], line[k + 1]];
        if k + 1 < |s| {
          assert !DoubleSpaceAt(s, k);
        }
      }
    }
    ReplaceAbsent(line, "  ", " ");
  }

  /** A line of five plain fields separated by single blanks, ended by a
      newline, splits back into its fields. */
  lemma FormattedLineFields(fields: seq<string>)
    requires |fields| == 5
    requires forall k :: 0 <= k < |fields| ==> PlainField(fields[k])
    ensures LineFields(Join(fields, ' ') + "\n") == fields
  {
    JoinIsTidy(fields);
    NormaliseTidy(Join(fields, ' '));
    forall k | 0 <= k < |fields| ensures ' ' !in fields[k] {
      assert PlainField(fields[k]);
    }
    SplitJoin(fields, ' ');
  }

  /** Such a line becomes the table entry for its serial, owned as the
      ledger says, when its script exists. */
  lemma FormattedLineParses(fields: seq<string>, mappingDir: string, fs: FileSystem, markers: Markers)
    requires |fields| == 5
    requires forall k :: 0 <= k < |fields| ==> PlainField(fields[k])
    requires IsFile(fs, ScriptPath(fields[4], mappingDir))
    ensures ParseLine(Join(fields, ' ') + "\n", mappingDir, fs, markers)
      == Entry(Fpga(fields[0], fields[1], fields[2], fields[3], ScriptPath(fields[4], mappingDir), MarkerOwner(markers, fields[0])))
  {
    FormattedLineFields(fields);
  }

  /** Replacing "  " walks past a prefix without blanks. */
  lemma {:induction false} ReplacePastWord(x: string, y: string)
    requires forall k :: 0 <= k < |x| ==> x[k] != ' '
    ensures Replace(x + y, "  ", " ") == x + Replace(y, "  ", " ")
    decreases |x|
  {
    if x != [] {
      var s := x + y;
      assert s[0] == x[0];
      if 2 <= |s| {
        assert s[..2][0] == s[0];
      }
      assert Replace(s, "  ", " ") == [s[0]] + Replace(s[1..], "  ", " ");
      assert s[1..] == x[1..] + y;
      ReplacePastWord(x[1..], y);
      assert [s[0]] + (x[1..] + Replace(y, "  ", " ")) == x + Replace(y, "  ", " ");
    } else {
      assert x + y == y;
    }
  }

  /** In `word + "   " + t + "\n"` the blank run is halved and nothing else changes. */
  lemma HalveBlankRun(word: string, t: string)
    requires forall k :: 0 <= k < |word| ==> word[k] != ' '
    requires t != [] && t[0] != ' ' && Replace(t + "\n", "  ", " ") == t + "\n"
    ensures Replace(word + "   " + t + "\n", "  ", " ") == word + "  " + t + "\n"
  {
    calc {
      Replace(word + "   " + t + "\n", "  ", " ");
      { assert word + "   " + t + "\n" == word + ("   " + t + "\n"); }
      Replace(word + ("   " + t + "\n"), "  ", " ");
      { ReplacePastWord(word, "   " + t + "\n"); }
      word + Replace("   " + t + "\n", "  ", " ");
      { ThreeBlanksBecomeTwo(t); }
      word + ("  " + t + "\n");
      { assert word + ("  " + t + "\n") == word + "  " + t + "\n"; }
      word + "  " + t + "\n";
    }
  }

  /** The first two of three blanks become one; the third stays. */
  lemma ThreeBlanksBecomeTwo(t: string)
    requires t != [] && t[0] != ' ' && Replace(t + "\n", "  ", " ") == t + "\n"
    ensures Replace("   " + t + "\n", "  ", " ") == "  " + t + "\n"
  {
    TripleHalved(' ', t + "\n");
    assert "   " + t + "\n" == [' ', ' ', ' '] + (t + "\n");
    assert "  " + t + "\n" == [' ', ' '] + (t + "\n");
  }

  /** Halving doubled `c`s turns three of them in front of a part it leaves
      alone into two. */
  lemma TripleHalved(c: char, u: string)
    requires u != [] && u[0] != c && Replace(u, [c, c], [c]) == u
    ensures Replace([c, c, c] + u, [c, c], [c]) == [c, c] + u
  {
    SplitOffPair(c, u);
    PairHalved(c, [c] + u);
    SingleKept(c, u);
    JoinSingles(c, u);
  }

  lemma SplitOffPair(c: char, u: string)
    ensures [c, c, c] + u == [c, c] + ([c] + u)
  {
  }

  lemma JoinSingles(c: char, u: string)
    ensures [c] + ([c] + u) == [c, c] + u
  {
  }

  /** A leading pair of `c`s becomes one `c`. */
  lemma PairHalved(c: char, w: string)
    ensures Replace([c, c] + w, [c, c], [c]) == [c] + Replace(w, [c, c], [c])
  {
    var v := [c, c] + w;
    assert v[..2] == [c, c] && v[2..] == w;
    ReplaceAtMatch(v, [c, c], [c]);
  }

  /** A lone `c` in front of anything but `c` stays. */
  lemma SingleKept(c: char, u: string)
    requires u != [] && u[0] != c
    ensures Replace([c] + u, [c, c], [c]) == [c] + Replace(u, [c, c], [c])
  {
    var w := [c] + u;
    assert w[..2] != [c, c] by {
      assert w[..2][1] == u[0];
    }
    assert w[1..] == u;
    ReplaceNoMatch(w, [c, c], [c]);
  }


  /** A run of three blanks after the first field is only halved, leaving an
      empty second field: the line has six fields and is dropped even though
      it names five values. */
  lemma ThreeBlanksDropTheLine(fields: seq<string>, mappingDir: string, fs: FileSystem, markers: Markers)
    requires |fields| == 5
    requires forall k :: 0 <= k < |fields| ==> PlainField(fields[k])
    ensures var line := fields[0] + "   " + Join(fields[1..], ' ') + "\n";
      && LineFields(line) == [fields[0], ""] + fields[1..]
      && ParseLine(line, mappingDir, fs, markers) == Skipped
  {
    var f0 := fields[0];
    var rest := fields[1..];
    assert PlainField(f0);
    forall k | 0 <= k < |rest| ensures PlainField(rest[k]) {
      assert rest[k] == fields[k + 1];
    }
    JoinIsTidy(rest);
    var t := Join(rest, ' ');
    ThreeBlanksNormalise(f0, t);
    HalvedFields(f0, rest);
    assert |[f0, ""] + rest| == 6;
  }

  /** Normalising the line leaves two blanks after the first field. */
  lemma ThreeBlanksNormalise(f0: string, t: string)
    requires PlainField(f0) && Tidy(t)
    ensures Normalise(f0 + "   " + t + "\n") == f0 + "  " + t
  {
    var line := f0 + "   " + t + "\n";
    calc {
      Normalise(line);
      Strip(Replace(Replace(line, "\t", " "), "  ", " "), LineStrip);
      { NoTabInLine(f0, t); }
      Strip(Replace(line, "  ", " "), LineStrip);
      { TidyLineHasNoDoubleSpace(t); HalveBlankRun(f0, t); }
      Strip(f0 + "  " + t + "\n", LineStrip);
      { StripHalved(f0, t); }
      f0 + "  " + t;
    }
  }

  /** Two blanks after the first field split off an empty field. */
  lemma HalvedFields(f0: string, rest: seq<string>)
    requires PlainField(f0) && |rest| >= 1
    requires forall k :: 0 <= k < |rest| ==> PlainField(rest[k])
    ensures Split(f0 + "  " + Join(rest, ' '), ' ') == [f0, ""] + rest
  {
    JoinEmptySecond(f0, rest);
    FieldsWithoutBlank(f0, rest);
    SplitJoin([f0, ""] + rest, ' ');
  }

  /** An empty second field shows as a second blank. */
  lemma JoinEmptySecond(f0: string, rest: seq<string>)
    requires |rest| >= 1
    ensures Join([f0, ""] + rest, ' ') == f0 + "  " + Join(rest, ' ')
  {
    TwoInFront(f0, "", rest);
    JoinCons(f0, [""] + rest, ' ');
    JoinCons("", rest, ' ');
    TwoBlanks(f0, Join(rest, ' '));
  }

  lemma TwoInFront(a: string, b: string, rest: seq<string>)
    ensures [a, b] + rest == [a] + ([b] + rest)
  {
  }

  lemma TwoBlanks(a: string, b: string)
    ensures a + [' '] + ("" + [' '] + b) == a + "  " + b
  {
  }

  lemma FieldsWithoutBlank(f0: string, rest: seq<string>)
    requires PlainField(f0)
    requires forall k :: 0 <= k < |rest| ==> PlainField(rest[k])
    ensures forall k :: 0 <= k < |[f0, ""] + rest| ==> ' ' !in ([f0, ""] + rest)[k]
  {
    var parts := [f0, ""] + rest;
    forall k | 0 <= k < |parts| ensures ' ' !in parts[k] {
      if k >= 2 {
        assert parts[k] == rest[k - 2];
      }
    }
  }

  lemma NoTabInLine(word: string, t: string)
    requires PlainField(word) && Tidy(t)
    ensures Replace(word + "   " + t + "\n", "\t", " ") == word + "   " + t + "\n"
  {
    var line := word + "   " + t + "\n";
    forall k | 0 <= k < |line| ensures line[k] != '\t' {
      if k < |word| {
        assert line[k] == word[k];
      } else if |word| + 3 <= k < |word| + 3 + |t| {
        assert line[k] == t[k - |word| - 3];
      }
    }
    ReplaceCharAbsent(line, '\t', ' ');
  }

  lemma StripHalved(word: string, t: string)
    requires PlainField(word) && Tidy(t)
    ensures Strip(word + "  " + t + "\n", LineStrip) == word + "  " + t
  {
    var halved := word + "  " + t;
    assert halved[0] == word[0];
    assert halved[|halved| - 1] == t[|t| - 1];
    StripOneTrailing(halved, '\n', LineStrip);
  }
}
