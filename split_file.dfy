/**
 * The train/test split file: the splitter writes one `group name` line per sample, and the
 * graph trainer reads the lines back into a map from sample name to group. The lines are
 * taken as already separated; the reader is Python, so "blank" follows `str.strip()`.
 */
module SplitFile {
  import opened Wrappers
  import opened Text

  /** `str.isspace` for one character: Unicode White_Space plus the separators U+1C..U+1F. */
  predicate PyIsSpace(c: char) {
    IsWhitespace(c) || ('\U{1C}' <= c <= '\U{1F}')
  }

  /** `line.strip() == ''`. */
  predicate Blank(line: string) {
    forall i :: 0 <= i < |line| ==> PyIsSpace(line[i])
  }

  /**
   * `line.split(' ', 1)[::-1]`: `[name, group]` cut at the first space, or the 1-tuple
   * `[line]` when there is no space.
   */
  function SplitOnce(line: string): (r: seq<string>)
    ensures |r| == 1 <==> ' ' !in line
    ensures |r| == 1 ==> r[0] == line
    ensures |r| == 2 ==> r[1] + " " + r[0] == line && ' ' !in r[1]
    ensures |r| == 1 || |r| == 2
  {
    var i := IndexOf(line, ' ');
    if i == |line| then
      [line]
    else
      assert line == line[..i] + " " + line[i + 1..];
      assert forall k :: 0 <= k < i ==> line[..i][k] == line[k];
      [line[i + 1..], line[..i]]
  }

  /** A line `dict` refuses: it is not blank and yields a 1-tuple. */
  predicate Malformed(line: string) {
    !Blank(line) && ' ' !in line
  }

  /** What one line contributes to `dict`: nothing, a (name, group) pair, or a 1-tuple. */
  datatype LineKind = BlankLine | Pair(name: string, group: string) | Single

  function Kind(line: string): (k: LineKind)
    ensures k.Single? <==> Malformed(line)
  {
    if Blank(line) then BlankLine
    else
      var pair := SplitOnce(line);
      if |pair| == 2 then Pair(pair[0], pair[1]) else Single
  }

  function Kinds(lines: seq<string>): (ks: seq<LineKind>)
    ensures |ks| == |lines| && forall k :: 0 <= k < |lines| ==> ks[k] == Kind(lines[k])
  {
    seq(|lines|, k requires 0 <= k < |lines| => Kind(lines[k]))
  }

  /**
   * `load_split`: `dict` over the pairs of the non-blank lines, a later line for a name
   * overriding an earlier one; the first 1-tuple raises `ValueError`.
   */
  function LoadSplit(lines: seq<string>): Result<map<string, string>> {
    Load(Kinds(lines))
  }

  /** `dict` fed the line kinds in order. */
  function Load(ks: seq<LineKind>): Result<map<string, string>> {
    if ks == [] then
      Ok(map[])
    else
      var before := Load(ks[..|ks| - 1]);
      match ks[|ks| - 1]
      case BlankLine => before
      case Single =>
        if before.Ok? then Err("dictionary update sequence element has length 1; 2 is required") else before
      case Pair(name, group) =>
        if before.Ok? then Ok(before.value[name := group]) else before
  }

  /** The read fails exactly when some line is neither blank nor holds a space. */
  lemma LoadSplitFails(lines: seq<string>)
    ensures LoadSplit(lines).Err? <==> exists k :: 0 <= k < |lines| && Malformed(lines[k])
    ensures !LoadSplit(lines).Panic?
  {
    var ks := Kinds(lines);
    LoadFails(ks);
    if Single in ks {
      var k :| 0 <= k < |ks| && ks[k] == Single;
      assert Malformed(lines[k]);
    }
  }

  lemma {:induction false} LoadFails(ks: seq<LineKind>)
    ensures Load(ks).Err? <==> Single in ks
    ensures !Load(ks).Panic?
  {
    if ks != [] {
      var n := |ks| - 1;
      LoadFails(ks[..n]);
      assert ks == ks[..n] + [ks[n]];
    }
  }

  /** Line `k` is a non-blank line that names `name`. */
  predicate NamesAt(ks: seq<LineKind>, k: int, name: string) {
    0 <= k < |ks| && ks[k].Pair? && ks[k].name == name
  }

  /** Line `k` names `name` and no later line does. */
  predicate LastNamesAt(ks: seq<LineKind>, k: int, name: string) {
    NamesAt(ks, k, name) && forall j :: k < j < |ks| ==> !NamesAt(ks, j, name)
  }

  /**
   * A successful read holds a name exactly when some line names it, and maps it to the group
   * of the last line that names it.
   */
  lemma LoadSplitName(lines: seq<string>, name: string)
    requires LoadSplit(lines).Ok?
    ensures var ks := Kinds(lines);
      && (name in LoadSplit(lines).value <==> exists k :: NamesAt(ks, k, name))
      && forall k :: LastNamesAt(ks, k, name) ==> LoadSplit(lines).value[name] == SplitOnce(lines[k])[1]
  {
    LoadName(Kinds(lines), name);
  }

  lemma {:induction false} LoadName(ks: seq<LineKind>, name: string)
    requires Load(ks).Ok?
    ensures name in Load(ks).value <==> exists k :: NamesAt(ks, k, name)
    ensures forall k :: LastNamesAt(ks, k, name) ==> Load(ks).value[name] == ks[k].group
  {
    if ks != [] {
      var n := |ks| - 1;
      var init := ks[..n];
      assert forall k :: 0 <= k < n ==> init[k] == ks[k];
      LoadName(init, name);
      var m := Load(ks).value;
      if NamesAt(ks, n, name) {
        forall k | LastNamesAt(ks, k, name) ensures m[name] == ks[k].group {
          assert k == n;
        }
      } else {
        assert forall k :: NamesAt(init, k, name) <==> NamesAt(ks, k, name);
        assert forall k :: LastNamesAt(ks, k, name) ==> LastNamesAt(init, k, name);
      }
    }
  }

  /** A line as the splitter writes it: `writeln!(output, "{} {}", group_name, sample_name)`. */
  function WriteLine(group: string, name: string): string {
    group + " " + name
  }

  /** A group name the reader cuts off cleanly: non-empty, no whitespace of Python's. */
  predicate PlainGroup(group: string) {
    group != [] && forall i :: 0 <= i < |group| ==> !PyIsSpace(group[i])
  }

  /** The written lines of a sequence of (group, name) entries. */
  function Written(entries: seq<(string, string)>): (r: seq<string>)
    ensures |r| == |entries|
  {
    if entries == [] then [] else Written(entries[..|entries| - 1]) + [WriteLine(entries[|entries| - 1].0, entries[|entries| - 1].1)]
  }

  /** The map the entries describe, a later entry for a name overriding an earlier one. */
  function Described(entries: seq<(string, string)>): map<string, string> {
    if entries == [] then map[]
    else Described(entries[..|entries| - 1])[entries[|entries| - 1].1 := entries[|entries| - 1].0]
  }

  /** One written line splits back into its name and group. */
  lemma WriteLineSplits(group: string, name: string)
    requires PlainGroup(group)
    ensures !Blank(WriteLine(group, name))
    ensures SplitOnce(WriteLine(group, name)) == [name, group]
  {
    var line := WriteLine(group, name);
    assert line[0] == group[0];
    assert ' ' !in group by {
      forall i | 0 <= i < |group| ensures group[i] != ' ' {
        assert !PyIsSpace(group[i]);
      }
    }
    assert IndexOf(line, ' ') == |group| by {
      assert line[|group|] == ' ';
      forall k | 0 <= k < |group| ensures line[k] != ' ' {
        assert line[k] == group[k];
      }
    }
    assert line[..|group|] == group;
    assert line[|group| + 1..] == name;
  }

  /** Reading back the splitter's lines gives the map they describe. */
  lemma {:induction false} ReadBack(entries: seq<(string, string)>)
    requires forall k :: 0 <= k < |entries| ==> PlainGroup(entries[k].0)
    ensures LoadSplit(Written(entries)) == Ok(Described(entries))
  {
    if entries != [] {
      var n := |entries| - 1;
      var ks := Kinds(Written(entries));
      assert ks[..n] == Kinds(Written(entries[..n]));
      ReadBack(entries[..n]);
      WriteLineSplits(entries[n].0, entries[n].1);
    }
  }

  /** Every entry for `name` has group `g`, and there is at least one. */
  predicate OnlyGroup(entries: seq<(string, string)>, name: string, g: string) {
    (exists k :: 0 <= k < |entries| && entries[k].1 == name)
    && forall k :: 0 <= k < |entries| && entries[k].1 == name ==> entries[k].0 == g
  }

  /** A name written only under one group is read back under that group. */
  lemma {:induction false} DescribedOnlyGroup(entries: seq<(string, string)>, name: string, g: string)
    requires OnlyGroup(entries, name, g)
    ensures name in Described(entries) && Described(entries)[name] == g
  {
    var n := |entries| - 1;
    if entries[n].1 != name {
      var k :| 0 <= k < |entries| && entries[k].1 == name;
      assert entries[..n][k] == entries[k];
      assert forall j :: 0 <= j < n ==> entries[..n][j] == entries[j];
      DescribedOnlyGroup(entries[..n], name, g);
    }
  }

  /** The `train` lines, then the `test` lines, as the splitter writes them. */
  function SplitterEntries(train: seq<string>, test: seq<string>): (r: seq<(string, string)>)
    ensures |r| == |train| + |test|
  {
    seq(|train|, i requires 0 <= i < |train| => ("train", train[i]))
      + seq(|test|, i requires 0 <= i < |test| => ("test", test[i]))
  }

  /** Where each sample sits among the splitter's entries. */
  lemma SplitterLayout(train: seq<string>, test: seq<string>)
    ensures var entries := SplitterEntries(train, test);
      && (forall i :: 0 <= i < |train| ==> entries[i] == ("train", train[i]))
      && (forall j :: 0 <= j < |test| ==> entries[|train| + j] == ("test", test[j]))
  {
  }

  /** A training sample is only ever written under `train`. */
  lemma TrainOnly(train: seq<string>, test: seq<string>, i: nat)
    requires forall i, j :: 0 <= i < |train| && 0 <= j < |test| ==> train[i] != test[j]
    requires i < |train|
    ensures OnlyGroup(SplitterEntries(train, test), train[i], "train")
  {
    var entries := SplitterEntries(train, test);
    SplitterLayout(train, test);
    assert entries[i].1 == train[i];
  }

  /** A test sample is only ever written under `test`. */
  lemma TestOnly(train: seq<string>, test: seq<string>, j: nat)
    requires forall i, j :: 0 <= i < |train| && 0 <= j < |test| ==> train[i] != test[j]
    requires j < |test|
    ensures OnlyGroup(SplitterEntries(train, test), test[j], "test")
  {
    var entries := SplitterEntries(train, test);
    SplitterLayout(train, test);
    assert entries[|train| + j].1 == test[j];
    forall k | 0 <= k < |entries| && entries[k].1 == test[j] ensures entries[k].0 == "test" {
      if k >= |train| {
        assert entries[|train| + (k - |train|)] == ("test", test[k - |train|]);
      }
    }
  }

  /**
   * A sample the splitter put into exactly one group is read back under that group, and the
   * map holds no other names.
   */
  lemma SplitterReadBack(train: seq<string>, test: seq<string>)
    requires forall i, j :: 0 <= i < |train| && 0 <= j < |test| ==> train[i] != test[j]
    ensures LoadSplit(Written(SplitterEntries(train, test))).Ok?
    ensures var m := LoadSplit(Written(SplitterEntries(train, test))).value;
      && (forall i :: 0 <= i < |train| ==> train[i] in m && m[train[i]] == "train")
      && (forall j :: 0 <= j < |test| ==> test[j] in m && m[test[j]] == "test")
      && (forall name :: name in m ==> name in train || name in test)
  {
    var entries := SplitterEntries(train, test);
    SplitterLayout(train, test);
    assert PlainGroup("train") && PlainGroup("test");
    ReadBack(entries);
    var m := Described(entries);
    forall i | 0 <= i < |train| ensures train[i] in m && m[train[i]] == "train" {
      TrainOnly(train, test, i);
      DescribedOnlyGroup(entries, train[i], "train");
    }
    forall j | 0 <= j < |test| ensures test[j] in m && m[test[j]] == "test" {
      TestOnly(train, test, j);
      DescribedOnlyGroup(entries, test[j], "test");
    }
    DescribedNames(entries);
    forall name | name in m ensures name in train || name in test {
      var k :| 0 <= k < |entries| && entries[k].1 == name;
      if k < |train| {
        assert train[k] == name;
      } else {
        assert entries[|train| + (k - |train|)] == ("test", test[k - |train|]);
        assert test[k - |train|] == name;
      }
    }
  }

  /** The described map holds exactly the names of the entries. */
  lemma {:induction false} DescribedNames(entries: seq<(string, string)>)
    ensures forall name :: name in Described(entries) <==> exists k :: 0 <= k < |entries| && entries[k].1 == name
  {
    if entries != [] {
      var n := |entries| - 1;
      DescribedNames(entries[..n]);
      assert forall k :: 0 <= k < n ==> entries[..n][k] == entries[k];
      forall name | exists k :: 0 <= k < |entries| && entries[k].1 == name
        ensures name in Described(entries)
      {
        var k :| 0 <= k < |entries| && entries[k].1 == name;
        if k < n { assert entries[..n][k].1 == name; }
      }
    }
  }
}
