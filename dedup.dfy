/** lazynlp/cleaner.py: `dedup_lines` and `dedup_lines_from_new_file`, exact
    line deduplication with a set of the keys already seen. A line's key is
    `get_hash(line.strip())`; the model keys on the stripped line itself,
    which is what the md5 digest stands for. */
module LineDedup {
  import opened Common
  import opened Text
  import opened Utils

  function Key(line: string): string { Strip(line) }

  function Keys(lines: seq<string>): set<string> {
    set l | l in lines :: Key(l)
  }

  lemma KeysAppend(a: seq<string>, b: seq<string>)
    ensures Keys(a + b) == Keys(a) + Keys(b)
  {
    assert forall l :: l in a + b <==> l in a || l in b;
  }

  /** The lines of several files, one after the other. */
  function Flatten(cs: seq<seq<string>>): seq<string> {
    if cs == [] then [] else Flatten(cs[..|cs| - 1]) + cs[|cs| - 1]
  }

  // ---------------------------------------------------------------------
  // One pass over the lines of one file

  /** The lines written so far and the set of keys seen so far. */
  datatype Pass = Pass(kept: seq<string>, seen: set<string>)

  /** The readline loop over one file, starting from the keys in `seen`: a
      line is written when its key has not been seen, and its key is then
      remembered. */
  function DedupFile(seen: set<string>, lines: seq<string>): (r: Pass)
    ensures |r.kept| <= |lines|
  {
    if lines == [] then Pass([], seen)
    else
      var d := DedupFile(seen, lines[..|lines| - 1]);
      var l := lines[|lines| - 1];
      if Key(l) in d.seen then d else Pass(d.kept + [l], d.seen + {Key(l)})
  }

  /** After the pass, the keys seen are the initial ones and those of every
      line. */
  lemma {:induction false} DedupFileSeen(seen: set<string>, lines: seq<string>)
    ensures DedupFile(seen, lines).seen == seen + Keys(lines)
  {
    if lines != [] {
      var p := lines[..|lines| - 1];
      assert lines == p + [lines[|lines| - 1]];
      KeysAppend(p, [lines[|lines| - 1]]);
      DedupFileSeen(seen, p);
    }
  }

  /** The lines written are lines of the input, in order, whose keys were not
      seen before and are pairwise different. */
  lemma {:induction false} DedupFileKept(seen: set<string>, lines: seq<string>)
    ensures var r := DedupFile(seen, lines);
      && IsSubsequence(r.kept, lines)
      && (forall i :: 0 <= i < |r.kept| ==> Key(r.kept[i]) !in seen && Key(r.kept[i]) in r.seen)
      && (forall i, j :: 0 <= i < j < |r.kept| ==> Key(r.kept[i]) != Key(r.kept[j]))
  {
    if lines != [] {
      var p := lines[..|lines| - 1];
      var l := lines[|lines| - 1];
      assert lines == p + [l];
      DedupFileKept(seen, p);
      var d := DedupFile(seen, p);
      if Key(l) in d.seen {
        SubsequenceExtend(d.kept, p, l);
      } else {
        DedupFileSeen(seen, p);
        SubsequenceAppend(d.kept, p, l);
      }
    }
  }

  /** First occurrence wins: a line is written exactly when its key is
      neither among the keys seen before the file nor the key of an
      earlier line. */
  lemma DedupFileWrites(seen: set<string>, lines: seq<string>, l: string)
    ensures DedupFile(seen, lines + [l]).kept
         == DedupFile(seen, lines).kept + (if Key(l) in seen + Keys(lines) then [] else [l])
  {
    var s := lines + [l];
    assert s[..|s| - 1] == lines && s[|s| - 1] == l;
    DedupFileSeen(seen, lines);
  }

  /** Splitting the input splits the pass: the second part starts from the
      keys the first part has seen. */
  lemma {:induction false} DedupFileAppend(seen: set<string>, a: seq<string>, b: seq<string>)
    ensures var d := DedupFile(seen, a);
      DedupFile(seen, a + b) == Pass(d.kept + DedupFile(d.seen, b).kept, DedupFile(d.seen, b).seen)
    decreases |b|
  {
    var d := DedupFile(seen, a);
    if b == [] {
      assert a + b == a;
    } else {
      var q := b[..|b| - 1];
      var l := b[|b| - 1];
      assert (a + b)[..|a + b| - 1] == a + q;
      assert (a + b)[|a + b| - 1] == l;
      DedupFileAppend(seen, a, q);
      var e := DedupFile(d.seen, q);
      assert d.kept + (e.kept + [l]) == (d.kept + e.kept) + [l];
    }
  }

  /** With nothing seen yet, the first line is always written. */
  lemma DedupFileFirst(lines: seq<string>)
    requires lines != []
    ensures DedupFile({}, lines).kept != []
  {
    DedupFileAppend({}, lines[..1], lines[1..]);
    assert lines[..1] + lines[1..] == lines;
    assert lines[..1][..0] == [];
  }

  // ---------------------------------------------------------------------
  // Several files with one shared set

  datatype Run = Run(outs: seq<seq<string>>, seen: set<string>)

  /** `dedup_lines`' outer loop: each file's pass starts from the keys of
      every earlier file. */
  function DedupFiles(seen: set<string>, cs: seq<seq<string>>): (r: Run)
    ensures |r.outs| == |cs|
  {
    if cs == [] then Run([], seen)
    else
      var run := DedupFiles(seen, cs[..|cs| - 1]);
      var d := DedupFile(run.seen, cs[|cs| - 1]);
      Run(run.outs + [d.kept], d.seen)
  }

  lemma {:induction false} DedupFilesSeen(seen: set<string>, cs: seq<seq<string>>)
    ensures DedupFiles(seen, cs).seen == seen + Keys(Flatten(cs))
  {
    if cs != [] {
      var p := cs[..|cs| - 1];
      DedupFilesSeen(seen, p);
      DedupFileSeen(DedupFiles(seen, p).seen, cs[|cs| - 1]);
      KeysAppend(Flatten(p), cs[|cs| - 1]);
    }
  }

  /** The files written, read one after the other, are exactly what one pass
      over all the input lines in list order writes: a line is dropped when
      its key occurs earlier, in the same file or in an earlier one. */
  lemma {:induction false} DedupFilesFlat(seen: set<string>, cs: seq<seq<string>>)
    ensures Flatten(DedupFiles(seen, cs).outs) == DedupFile(seen, Flatten(cs)).kept
    ensures DedupFiles(seen, cs).seen == DedupFile(seen, Flatten(cs)).seen
  {
    if cs != [] {
      var p := cs[..|cs| - 1];
      var c := cs[|cs| - 1];
      DedupFilesFlat(seen, p);
      DedupFileAppend(seen, Flatten(p), c);
      var outs := DedupFiles(seen, cs).outs;
      assert outs[..|outs| - 1] == DedupFiles(seen, p).outs;
    }
  }

  lemma DedupFileStep(seen: set<string>, lines: seq<string>, l: string)
    ensures var d := DedupFile(seen, lines);
      DedupFile(seen, lines + [l])
        == if Key(l) in d.seen then d else Pass(d.kept + [l], d.seen + {Key(l)})
  {
    var s := lines + [l];
    assert s[..|s| - 1] == lines && s[|s| - 1] == l;
  }

  lemma DedupFilesStep(seen: set<string>, cs: seq<seq<string>>, c: seq<string>)
    ensures var run := DedupFiles(seen, cs);
      var d := DedupFile(run.seen, c);
      DedupFiles(seen, cs + [c]) == Run(run.outs + [d.kept], d.seen)
  {
    var s := cs + [c];
    assert s[..|s| - 1] == cs && s[|s| - 1] == c;
  }

  lemma ExampleFirstFile(x: string, y: string)
    requires Key(x) != Key(y)
    ensures DedupFile({}, [x, y, x]) == Pass([x, y], {Key(x), Key(y)})
  {
    var e: seq<string> := [];
    DedupFileStep({}, e, x);
    assert e + [x] == [x];
    assert DedupFile({}, [x]) == Pass([x], {Key(x)});
    DedupFileStep({}, [x], y);
    assert [x] + [y] == [x, y];
    assert DedupFile({}, [x, y]) == Pass([x, y], {Key(x), Key(y)});
    DedupFileStep({}, [x, y], x);
    assert [x, y] + [x] == [x, y, x];
  }

  lemma ExampleSecondFile(x: string, y: string, z: string)
    requires Key(x) != Key(z) && Key(y) != Key(z)
    ensures DedupFile({Key(x), Key(y)}, [y, z]).kept == [z]
  {
    var sa := {Key(x), Key(y)};
    var e: seq<string> := [];
    DedupFileStep(sa, e, y);
    assert e + [y] == [y];
    DedupFileStep(sa, [y], z);
    assert [y] + [z] == [y, z];
  }

  /** The example A = [x, y, x], B = [y, z], for any three lines with
      different keys: A keeps [x, y] and B keeps [z]. */
  lemma DedupFilesExample(x: string, y: string, z: string)
    requires Key(x) != Key(y) && Key(y) != Key(z) && Key(x) != Key(z)
    ensures DedupFiles({}, [[x, y, x], [y, z]]).outs == [[x, y], [z]]
  {
    ExampleFirstFile(x, y);
    ExampleSecondFile(x, y, z);
    var none: seq<seq<string>> := [];
    DedupFilesStep({}, none, [x, y, x]);
    assert none + [[x, y, x]] == [[x, y, x]];
    DedupFilesStep({}, [[x, y, x]], [y, z]);
    assert [[x, y, x]] + [[y, z]] == [[x, y, x], [y, z]];
  }

  // ---------------------------------------------------------------------
  // Reading the input files

  /** Reading every file in order; the first missing file raises
      FileNotFoundError. */
  function ReadAll(fs: FileSystem, files: seq<string>): (r: Result<seq<seq<string>>>)
    ensures r.Ok? <==> forall i :: 0 <= i < |files| ==> files[i] in fs
    ensures r.Ok? ==> |r.value| == |files| && forall i :: 0 <= i < |files| ==> r.value[i] == fs[files[i]].lines
    ensures r.Err? ==> r.error.FileNotFoundError? && r.error.path in files && r.error.path !in fs
  {
    if files == [] then Ok([])
    else
      var p := files[..|files| - 1];
      var f := files[|files| - 1];
      var cs :- ReadAll(fs, p);
      var lines :- ReadLines(fs, f);
      Ok(cs + [lines])
  }

  lemma {:induction false} ReadAllStops(fs: FileSystem, a: seq<string>, b: seq<string>)
    requires ReadAll(fs, a).Err?
    ensures ReadAll(fs, a + b) == ReadAll(fs, a)
    decreases |b|
  {
    if b == [] {
      assert a + b == a;
    } else {
      var q := b[..|b| - 1];
      assert (a + b)[..|a + b| - 1] == a + q;
      ReadAllStops(fs, a, q);
    }
  }

  /** The first missing file is the one reported. */
  lemma ReadAllMissing(fs: FileSystem, files: seq<string>, i: nat)
    requires i < |files| && ReadAll(fs, files[..i]).Ok? && files[i] !in fs
    ensures ReadAll(fs, files) == Err(FileNotFoundError(files[i]))
  {
    ReadAllStep(fs, files, i);
    ReadAllStops(fs, files[..i + 1], files[i + 1..]);
    assert files[..i + 1] + files[i + 1..] == files;
  }

  lemma ReadAllStep(fs: FileSystem, files: seq<string>, i: nat)
    requires i < |files|
    ensures var r := ReadAll(fs, files[..i]);
      ReadAll(fs, files[..i + 1])
        == if r.Err? then r else if files[i] in fs then Ok(r.value + [fs[files[i]].lines]) else Err(FileNotFoundError(files[i]))
  {
    assert files[..i + 1][..i] == files[..i];
  }

  // ---------------------------------------------------------------------
  // dedup_lines

  /** `os.path.join(dir, name)`. */
  function PathJoin(dir: string, name: string): string {
    if name != [] && name[0] == '/' then name
    else if dir == [] || dir[|dir| - 1] == '/' then dir + name
    else dir + "/" + name
  }

  /** Where file number `i` is written: `outfold/<i>_<filename>`. */
  function OutPath(outfold: string, i: nat, file: string): string {
    PathJoin(outfold, NatToString(i) + "_" + GetFilename(file))
  }

  /** A relative name is put inside the directory. */
  lemma PathJoinRelative(dir: string, name: string)
    requires name != [] && name[0] != '/'
    ensures PathJoin(dir, name) == (if dir == [] || dir[|dir| - 1] == '/' then dir else dir + "/") + name
  {
  }

  /** The output file is named "<i>_<filename>" inside `outfold`. */
  lemma OutPathName(outfold: string, i: nat, file: string)
    ensures var name := NatToString(i) + "_" + GetFilename(file);
      OutPath(outfold, i, file) == (if outfold == [] || outfold[|outfold| - 1] == '/' then outfold else outfold + "/") + name
  {
    var digits := NatToString(i);
    var name := digits + "_" + GetFilename(file);
    assert IsDigit(digits[0]);
    assert name[0] == digits[0];
    PathJoinRelative(outfold, name);
  }

  /** Input file `index`, named `file`, whose new lines are written to
      `Path()` inside `outfold`. */
  datatype Output = Output(outfold: string, index: nat, file: string, lines: seq<string>) {
    function Path(): string { OutPath(outfold, index, file) }
  }

  datatype DedupReport = DedupReport(outputs: seq<Output>, total: nat, unique: nat)

  /** File `i` paired with the path it is written to. */
  function Outputs(outfold: string, files: seq<string>, outs: seq<seq<string>>): (r: seq<Output>)
    requires |outs| == |files|
    ensures |r| == |files|
    ensures forall i :: 0 <= i < |files| ==> r[i] == Output(outfold, i, files[i], outs[i])
  {
    seq(|files|, i requires 0 <= i < |files| => Output(outfold, i, files[i], outs[i]))
  }

  /** The contents of the written files, in order. */
  function Contents(outputs: seq<Output>): (r: seq<seq<string>>)
    ensures |r| == |outputs|
    ensures forall i :: 0 <= i < |outputs| ==> r[i] == outputs[i].lines
  {
    seq(|outputs|, i requires 0 <= i < |outputs| => outputs[i].lines)
  }

  lemma ContentsOfOutputs(outfold: string, files: seq<string>, outs: seq<seq<string>>)
    requires |outs| == |files|
    ensures Contents(Outputs(outfold, files, outs)) == outs
  {
  }

  lemma OutputsStep(outfold: string, files: seq<string>, outs: seq<seq<string>>, i: nat, kept: seq<string>)
    requires i < |files| && |outs| == i
    ensures Outputs(outfold, files[..i + 1], outs + [kept])
         == Outputs(outfold, files[..i], outs) + [Output(outfold, i, files[i], kept)]
  {
    var a := Outputs(outfold, files[..i + 1], outs + [kept]);
    var b := Outputs(outfold, files[..i], outs) + [Output(outfold, i, files[i], kept)];
    forall k | 0 <= k <= i ensures a[k] == b[k] {
      assert files[..i + 1][k] == files[k];
      if k < i {
        assert files[..i][k] == files[k];
      }
    }
  }

  /** What `dedup_lines(files, outfold)` writes and counts. */
  function DedupLinesResult(fs: FileSystem, files: seq<string>, outfold: string): Result<DedupReport> {
    var cs :- ReadAll(fs, files);
    var run := DedupFiles({}, cs);
    var total := |Flatten(cs)|;
    if total == 0 then Err(ValueError("The files list seems to be empty"))
    else Ok(DedupReport(Outputs(outfold, files, run.outs), total, |Flatten(run.outs)|))
  }

  /** The readline loop both functions share: write each line whose key
      is new, remember its key, and count the lines read and written. */
  method WriteNewLines(seen0: set<string>, lines: seq<string>)
    returns (kept: seq<string>, seen: set<string>, total: nat, unique: nat)
    ensures Pass(kept, seen) == DedupFile(seen0, lines)
    ensures total == |lines| && unique == |kept|
  {
    kept, seen := [], seen0;
    total, unique := 0, 0;
    while total < |lines|
      invariant total <= |lines|
      invariant Pass(kept, seen) == DedupFile(seen0, lines[..total])
      invariant unique == |kept|
    {
      var line := lines[total];
      DedupFileStep(seen0, lines[..total], line);
      assert lines[..total + 1] == lines[..total] + [line];
      var hashed := Key(line);
      if hashed !in seen {
        kept := kept + [line];
        seen := seen + {hashed};
        unique := unique + 1;
      }
      total := total + 1;
    }
    assert lines[..total] == lines;
  }

  lemma FlattenStep(cs: seq<seq<string>>, c: seq<string>)
    ensures Flatten(cs + [c]) == Flatten(cs) + c
  {
    var s := cs + [c];
    assert s[..|s| - 1] == cs && s[|s| - 1] == c;
  }

  /** `dedup_lines`: the readline loop over each file in turn, with one
      `seen` set and the `total` and `unique` counters. */
  method DedupLines(fs: FileSystem, files: seq<string>, outfold: string) returns (r: Result<DedupReport>)
    ensures r == DedupLinesResult(fs, files, outfold)
  {
    var seen: set<string> := {};
    var total, unique := 0, 0;
    var outputs: seq<Output> := [];
    ghost var cs: seq<seq<string>> := [];
    ghost var outs: seq<seq<string>> := [];
    for i := 0 to |files|
      invariant ReadAll(fs, files[..i]) == Ok(cs)
      invariant DedupFiles({}, cs) == Run(outs, seen)
      invariant |outs| == i && outputs == Outputs(outfold, files[..i], outs)
      invariant total == |Flatten(cs)| && unique == |Flatten(outs)|
    {
      var file := files[i];
      ReadAllStep(fs, files, i);
      if file !in fs {
        ReadAllMissing(fs, files, i);
        return Err(FileNotFoundError(file));
      }
      var lines := fs[file].lines;
      var kept, fileTotal, fileUnique;
      DedupFilesStep({}, cs, lines);
      kept, seen, fileTotal, fileUnique := WriteNewLines(seen, lines);
      total, unique := total + fileTotal, unique + fileUnique;
      outputs := outputs + [Output(outfold, i, file, kept)];
      OutputsStep(outfold, files, outs, i, kept);
      FlattenStep(cs, lines);
      FlattenStep(outs, kept);
      cs := cs + [lines];
      outs := outs + [kept];
    }
    assert files[..|files|] == files;
    DedupLinesOk(fs, files, outfold, cs);
    if total == 0 {
      return Err(ValueError("The files list seems to be empty"));
    }
    r := Ok(DedupReport(outputs, total, unique));
  }

  lemma DedupLinesOk(fs: FileSystem, files: seq<string>, outfold: string, cs: seq<seq<string>>)
    requires ReadAll(fs, files) == Ok(cs)
    ensures DedupLinesResult(fs, files, outfold)
         == if |Flatten(cs)| == 0 then Err(ValueError("The files list seems to be empty"))
            else Ok(DedupReport(Outputs(outfold, files, DedupFiles({}, cs).outs), |Flatten(cs)|, |Flatten(DedupFiles({}, cs).outs)|))
  {
  }

  /** The counters: `total` is the number of input lines and `unique`, the
      number of lines written, is at most that. */
  lemma DedupLinesCounts(fs: FileSystem, files: seq<string>, outfold: string)
    requires DedupLinesResult(fs, files, outfold).Ok?
    ensures var r := DedupLinesResult(fs, files, outfold).value;
      && r.total == |Flatten(ReadAll(fs, files).value)|
      && 0 < r.unique <= r.total
      && r.unique == |Flatten(Contents(r.outputs))|
  {
    var cs := ReadAll(fs, files).value;
    var run := DedupFiles({}, cs);
    var r := DedupLinesResult(fs, files, outfold).value;
    ContentsOfOutputs(outfold, files, run.outs);
    DedupFilesFlat({}, cs);
    DedupFileFirst(Flatten(cs));
  }

  /** The ValueError is raised exactly when every file exists and none has
      a line. */
  lemma DedupLinesEmpty(fs: FileSystem, files: seq<string>, outfold: string)
    requires forall i :: 0 <= i < |files| ==> files[i] in fs
    ensures DedupLinesResult(fs, files, outfold).Err?
        <==> forall i :: 0 <= i < |files| ==> fs[files[i]].lines == []
  {
    var cs := ReadAll(fs, files).value;
    FlattenEmpty(cs);
  }

  lemma {:induction false} FlattenEmpty(cs: seq<seq<string>>)
    ensures Flatten(cs) == [] <==> forall i :: 0 <= i < |cs| ==> cs[i] == []
  {
    if cs != [] {
      FlattenEmpty(cs[..|cs| - 1]);
    }
  }

  /** Every written file holds the lines of the input file with the same
      index whose keys occur neither earlier in it nor in an earlier file;
      all written lines together are those of one pass over all lines. */
  lemma DedupLinesWrites(fs: FileSystem, files: seq<string>, outfold: string)
    requires DedupLinesResult(fs, files, outfold).Ok?
    ensures var r := DedupLinesResult(fs, files, outfold).value;
      var cs := ReadAll(fs, files).value;
      && |r.outputs| == |files|
      && (forall i :: 0 <= i < |files| ==> r.outputs[i].Path() == OutPath(outfold, i, files[i]))
      && (forall i :: 0 <= i < |files| ==> r.outputs[i].lines == DedupFile(Keys(Flatten(cs[..i])), fs[files[i]].lines).kept)
      && Flatten(Contents(r.outputs)) == DedupFile({}, Flatten(cs)).kept
  {
    var cs := ReadAll(fs, files).value;
    var run := DedupFiles({}, cs);
    var outs := Outputs(outfold, files, run.outs);
    assert DedupLinesResult(fs, files, outfold).value.outputs == outs;
    assert Flatten(Contents(outs)) == DedupFile({}, Flatten(cs)).kept by {
      ContentsOfOutputs(outfold, files, run.outs);
      DedupFilesFlat({}, cs);
    }
    forall i | 0 <= i < |files|
      ensures outs[i].lines == DedupFile(Keys(Flatten(cs[..i])), fs[files[i]].lines).kept
    {
      DedupFilesPrefix({}, cs, i);
      var k := Keys(Flatten(cs[..i]));
      assert {} + k == k;
      assert cs[i] == fs[files[i]].lines;
    }
  }

  /** File `i` of a run is the pass over it from the keys of files 0..i-1. */
  lemma {:induction false} DedupFilesPrefix(seen: set<string>, cs: seq<seq<string>>, i: nat)
    requires i < |cs|
    ensures DedupFiles(seen, cs).outs[i] == DedupFile(seen + Keys(Flatten(cs[..i])), cs[i]).kept
    decreases |cs|
  {
    var p := cs[..|cs| - 1];
    if i < |cs| - 1 {
      assert p[..i] == cs[..i] && p[i] == cs[i];
      DedupFilesPrefix(seen, p, i);
    } else {
      assert cs[..i] == p;
      DedupFilesSeen(seen, p);
    }
  }

  // ---------------------------------------------------------------------
  // dedup_lines_from_new_file

  datatype NewReport = NewReport(outfile: string, lines: seq<string>, total: nat, unique: nat)

  /** `open(outfile, 'w')`: the output file exists from then on, empty. */
  function Truncate(fs: FileSystem, path: string): FileSystem {
    fs[path := FileEntry(0, [])]
  }

  /** What `dedup_lines_from_new_file(original_files, new_file, outfile)`
      writes: the original files only seed the keys; `outfile` is opened
      for writing before the new file is read; the lines of the new file
      are then deduplicated against the originals and each other. */
  function DedupNewResult(fs: FileSystem, originals: seq<string>, newFile: string, outfile: string): Result<NewReport> {
    var cs :- ReadAll(fs, originals);
    var lines :- ReadLines(Truncate(fs, outfile), newFile);
    var d := DedupFile(Keys(Flatten(cs)), lines);
    if |lines| == 0 then Err(ZeroDivisionError)
    else Ok(NewReport(outfile, d.kept, |lines|, |d.kept|))
  }

  /** The readline loop over an original file: remember every key. */
  method AddKeys(seen0: set<string>, lines: seq<string>) returns (seen: set<string>)
    ensures seen == seen0 + Keys(lines)
  {
    seen := seen0;
    var j := 0;
    while j < |lines|
      invariant 0 <= j <= |lines|
      invariant seen == seen0 + Keys(lines[..j])
    {
      assert lines[..j + 1] == lines[..j] + [lines[j]];
      KeysAppend(lines[..j], [lines[j]]);
      seen := seen + {Key(lines[j])};
      j := j + 1;
    }
    assert lines[..j] == lines;
  }

  /** `dedup_lines_from_new_file`: the original files fill `seen`, then the
      readline loop over the new file writes its new lines. */
  method DedupLinesFromNewFile(fs: FileSystem, originals: seq<string>, newFile: string, outfile: string)
    returns (r: Result<NewReport>)
    ensures r == DedupNewResult(fs, originals, newFile, outfile)
  {
    var seen: set<string> := {};
    ghost var cs: seq<seq<string>> := [];
    for i := 0 to |originals|
      invariant ReadAll(fs, originals[..i]) == Ok(cs)
      invariant seen == Keys(Flatten(cs))
    {
      var original := originals[i];
      ReadAllStep(fs, originals, i);
      if original !in fs {
        ReadAllMissing(fs, originals, i);
        return Err(FileNotFoundError(original));
      }
      var lines := fs[original].lines;
      seen := AddKeys(seen, lines);
      FlattenStep(cs, lines);
      KeysAppend(Flatten(cs), lines);
      cs := cs + [lines];
    }
    assert originals[..|originals|] == originals;
    var written := Truncate(fs, outfile);
    if newFile !in written {
      return Err(FileNotFoundError(newFile));
    }
    var lines := written[newFile].lines;
    var kept, total, unique;
    kept, seen, total, unique := WriteNewLines(seen, lines);
    if total == 0 {
      return Err(ZeroDivisionError);
    }
    r := Ok(NewReport(outfile, kept, total, unique));
  }

  /** The lines written come from the new file in order, have pairwise
      different keys, and no key of any line of the original files. */
  lemma DedupNewOutput(fs: FileSystem, originals: seq<string>, newFile: string, outfile: string)
    requires DedupNewResult(fs, originals, newFile, outfile).Ok?
    ensures var r := DedupNewResult(fs, originals, newFile, outfile).value;
      && IsSubsequence(r.lines, fs[newFile].lines)
      && r.total == |fs[newFile].lines| && r.unique == |r.lines| <= r.total
      && (forall i, j :: 0 <= i < j < |r.lines| ==> Key(r.lines[i]) != Key(r.lines[j]))
      && (forall i, k, l :: 0 <= i < |r.lines| && 0 <= k < |originals| && l in fs[originals[k]].lines
            ==> Key(r.lines[i]) != Key(l))
  {
    var cs := ReadAll(fs, originals).value;
    var r := DedupNewResult(fs, originals, newFile, outfile).value;
    DedupFileKept(Keys(Flatten(cs)), fs[newFile].lines);
    forall i, k, l | 0 <= i < |r.lines| && 0 <= k < |originals| && l in fs[originals[k]].lines
      ensures Key(r.lines[i]) != Key(l)
    {
      FlattenContains(cs, k, l);
    }
  }

  lemma {:induction false} FlattenContains(cs: seq<seq<string>>, k: nat, l: string)
    requires k < |cs| && l in cs[k]
    ensures l in Flatten(cs)
  {
    if k < |cs| - 1 {
      assert cs[..|cs| - 1][k] == cs[k];
      FlattenContains(cs[..|cs| - 1], k, l);
    }
  }

  /** ZeroDivisionError exactly when the new file has no line (all files
      being there), or when it is the output file, which `open(outfile, 'w')`
      has just emptied. */
  lemma DedupNewEmpty(fs: FileSystem, originals: seq<string>, newFile: string, outfile: string)
    requires forall i :: 0 <= i < |originals| ==> originals[i] in fs
    requires newFile in fs || newFile == outfile
    ensures DedupNewResult(fs, originals, newFile, outfile) == Err(ZeroDivisionError)
        <==> newFile == outfile || fs[newFile].lines == []
  {
  }

  /** Writing to the new file itself: it is emptied before it is read, so
      the run ends in ZeroDivisionError even when the file did not exist. */
  lemma DedupNewIntoItself(fs: FileSystem, originals: seq<string>, newFile: string)
    requires forall i :: 0 <= i < |originals| ==> originals[i] in fs
    ensures DedupNewResult(fs, originals, newFile, newFile) == Err(ZeroDivisionError)
  {
  }
}
