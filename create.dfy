/** lazynlp/create.py: `filter_files`, the greedy pass that keeps a file only
    when its n-gram overlap with the files kept so far is at most a
    threshold. */
module Create {
  import opened Common
  import opened Text
  import opened Bloom
  import opened Utils
  import opened Analytics

  /** The variables of the loop of `filter_files`: the lines written to
      dupped_files.list and clean_files.list, `dup_count`, and `bf`. */
  datatype Pass = Pass(dupped: seq<string>, clean: seq<string>, dupCount: nat, bf: Bf)

  /** Before the loop: nothing written and an empty filter. */
  function Start(): Pass {
    Pass([], [], 0, BloomBits(Empty()))
  }

  /** One file: score it against `bf` as it is; above the threshold it is a
      duplicate, otherwise its n-grams (lowercased, alphanumeric, header
      included) go into `bf`. */
  function FilterStep(fs: FileSystem, probe: Probe, st: Pass, file: string, threshold: real, gran: string, n: int, header: int): (r: Result<Pass>)
    ensures r.Ok? ==>
      || (r.value.dupped == st.dupped + [Strip(file)] && r.value.clean == st.clean && r.value.dupCount == st.dupCount + 1)
      || (r.value.clean == st.clean + [Strip(file)] && r.value.dupped == st.dupped && r.value.dupCount == st.dupCount)
  {
    var overlap :- EstimateOverlapBfResult(fs, probe, st.bf, file, gran, n, header);
    if overlap > threshold then Ok(Pass(st.dupped + [Strip(file)], st.clean, st.dupCount + 1, st.bf))
    else
      var bf :- BuildNgramResult(fs, probe, file, st.bf, gran, n, true, true);
      Ok(Pass(st.dupped, st.clean + [Strip(file)], st.dupCount, bf))
  }

  /** The loop over the (size, file) pairs; the first error ends the run. */
  function FilterLoop(fs: FileSystem, probe: Probe, pairs: seq<(nat, string)>, threshold: real, gran: string, n: int, header: int): Result<Pass> {
    if pairs == [] then Ok(Start())
    else
      var st :- FilterLoop(fs, probe, pairs[..|pairs| - 1], threshold, gran, n, header);
      FilterStep(fs, probe, st, pairs[|pairs| - 1].1, threshold, gran, n, header)
  }

  /** What `filter_files(files, threshold, gran, n, header=header)` leaves
      behind; the final report divides by `len(files)`. */
  function FilterFilesResult(fs: FileSystem, probe: Probe, files: seq<string>, threshold: real, gran: string, n: int, header: int): Result<Pass> {
    var pairs :- SortFilesBySize(fs, files);
    var st :- FilterLoop(fs, probe, pairs, threshold, gran, n, header);
    if |files| == 0 then Err(ZeroDivisionError) else Ok(st)
  }

  /** The stripped paths, in visiting order. */
  function Names(pairs: seq<(nat, string)>): (r: seq<string>)
    ensures |r| == |pairs|
    ensures forall i :: 0 <= i < |pairs| ==> r[i] == Strip(pairs[i].1)
  {
    seq(|pairs|, i requires 0 <= i < |pairs| => Strip(pairs[i].1))
  }

  lemma NamesSnoc(pairs: seq<(nat, string)>, x: (nat, string))
    ensures Names(pairs + [x]) == Names(pairs) + [Strip(x.1)]
  {
    var a := Names(pairs + [x]);
    var b := Names(pairs) + [Strip(x.1)];
    assert |a| == |b|;
    forall i | 0 <= i < |a|
      ensures a[i] == b[i]
    {
      if i < |pairs| {
        assert (pairs + [x])[i] == pairs[i];
      }
    }
  }

  // ---------------------------------------------------------------------
  // Steps and prefixes

  lemma FilterLoopSnoc(fs: FileSystem, probe: Probe, pairs: seq<(nat, string)>, x: (nat, string), threshold: real, gran: string, n: int, header: int)
    ensures var st := FilterLoop(fs, probe, pairs, threshold, gran, n, header);
      FilterLoop(fs, probe, pairs + [x], threshold, gran, n, header)
        == if st.Err? then st else FilterStep(fs, probe, st.value, x.1, threshold, gran, n, header)
  {
    SnocParts(pairs, x);
  }

  /** An error on a file ends the loop: no later file changes it. */
  lemma {:induction false} FilterLoopErr(fs: FileSystem, probe: Probe, pairs: seq<(nat, string)>, i: nat, threshold: real, gran: string, n: int, header: int)
    requires i <= |pairs|
    requires FilterLoop(fs, probe, pairs[..i], threshold, gran, n, header).Err?
    ensures FilterLoop(fs, probe, pairs, threshold, gran, n, header) == FilterLoop(fs, probe, pairs[..i], threshold, gran, n, header)
    decreases |pairs|
  {
    if i < |pairs| {
      var p := pairs[..|pairs| - 1];
      assert p[..i] == pairs[..i];
      FilterLoopErr(fs, probe, p, i, threshold, gran, n, header);
    } else {
      assert pairs[..i] == pairs;
    }
  }

  /** The strict rule: a file is a duplicate exactly when its overlap with
      `bf` is above the threshold, so an overlap equal to it is kept. A
      duplicate changes only the duplicate list and `dup_count`; a kept file
      changes only the clean list and `bf`. */
  lemma FilterStepDecision(fs: FileSystem, probe: Probe, st: Pass, file: string, threshold: real, gran: string, n: int, header: int)
    requires FilterStep(fs, probe, st, file, threshold, gran, n, header).Ok?
    ensures var overlap := EstimateOverlapBfResult(fs, probe, st.bf, file, gran, n, header);
      var r := FilterStep(fs, probe, st, file, threshold, gran, n, header).value;
      && overlap.Ok?
      && (overlap.value > threshold <==> r.dupped == st.dupped + [Strip(file)])
      && (overlap.value > threshold ==> r.clean == st.clean && r.bf == st.bf && r.dupCount == st.dupCount + 1)
      && (overlap.value <= threshold <==> r.clean == st.clean + [Strip(file)])
      && (overlap.value <= threshold ==>
            r.dupped == st.dupped && r.dupCount == st.dupCount && Ok(r.bf) == BuildNgramResult(fs, probe, file, st.bf, gran, n, true, true))
  {
    var overlap := EstimateOverlapBfResult(fs, probe, st.bf, file, gran, n, header);
    var r := FilterStep(fs, probe, st, file, threshold, gran, n, header).value;
    if overlap.value > threshold {
      assert |r.clean| == |st.clean|;
    } else {
      assert |r.dupped| == |st.dupped|;
    }
  }

  /** A file that scores at most the threshold and whose n-grams go in is
      appended to the clean list. */
  lemma FilterStepAccept(fs: FileSystem, probe: Probe, st: Pass, file: string, threshold: real, gran: string, n: int, header: int)
    requires EstimateOverlapBfResult(fs, probe, st.bf, file, gran, n, header).Ok?
    requires EstimateOverlapBfResult(fs, probe, st.bf, file, gran, n, header).value <= threshold
    requires BuildNgramResult(fs, probe, file, st.bf, gran, n, true, true).Ok?
    ensures FilterStep(fs, probe, st, file, threshold, gran, n, header)
         == Ok(Pass(st.dupped, st.clean + [Strip(file)], st.dupCount, BuildNgramResult(fs, probe, file, st.bf, gran, n, true, true).value))
  {
  }

  /** The strict rule again, as a statement about the loop: a file whose
      overlap with the filter of the files before it equals the threshold is
      kept. */
  predicate AcceptedAt(fs: FileSystem, probe: Probe, pairs: seq<(nat, string)>, k: nat, threshold: real, gran: string, n: int, header: int)
    requires k < |pairs|
  {
    var before := FilterLoop(fs, probe, pairs[..k], threshold, gran, n, header);
    && before.Ok?
    && var overlap := EstimateOverlapBfResult(fs, probe, before.value.bf, pairs[k].1, gran, n, header);
    && overlap.Ok?
    && overlap.value <= threshold
  }

  /** Each prefix of a successful loop succeeds, and what it wrote is a
      prefix of what the whole loop writes. */
  lemma {:induction false} FilterLoopPrefix(fs: FileSystem, probe: Probe, pairs: seq<(nat, string)>, i: nat, threshold: real, gran: string, n: int, header: int)
    requires i <= |pairs|
    requires FilterLoop(fs, probe, pairs, threshold, gran, n, header).Ok?
    ensures var pre := FilterLoop(fs, probe, pairs[..i], threshold, gran, n, header);
      var st := FilterLoop(fs, probe, pairs, threshold, gran, n, header).value;
      && pre.Ok?
      && pre.value.dupped <= st.dupped
      && pre.value.clean <= st.clean
    decreases |pairs|
  {
    if i < |pairs| {
      var p := pairs[..|pairs| - 1];
      FrontLast(pairs);
      FilterLoopSnoc(fs, probe, p, pairs[|pairs| - 1], threshold, gran, n, header);
      assert p[..i] == pairs[..i];
      FilterLoopPrefix(fs, probe, p, i, threshold, gran, n, header);
      FilterStepDecision(fs, probe, FilterLoop(fs, probe, p, threshold, gran, n, header).value, pairs[|pairs| - 1].1, threshold, gran, n, header);
    } else {
      assert pairs[..i] == pairs;
    }
  }

  // ---------------------------------------------------------------------
  // The two lists

  /** Every visited file is written to exactly one of the two lists, each
      list in visiting order, and `dup_count` is the length of the
      duplicate list. */
  lemma {:induction false} FilterLoopPartition(fs: FileSystem, probe: Probe, pairs: seq<(nat, string)>, threshold: real, gran: string, n: int, header: int)
    requires FilterLoop(fs, probe, pairs, threshold, gran, n, header).Ok?
    ensures var st := FilterLoop(fs, probe, pairs, threshold, gran, n, header).value;
      && st.dupCount == |st.dupped|
      && |st.dupped| + |st.clean| == |pairs|
      && multiset(st.dupped) + multiset(st.clean) == multiset(Names(pairs))
      && IsSubsequence(st.dupped, Names(pairs))
      && IsSubsequence(st.clean, Names(pairs))
  {
    if pairs != [] {
      var p := pairs[..|pairs| - 1];
      var x := pairs[|pairs| - 1];
      FrontLast(pairs);
      FilterLoopSnoc(fs, probe, p, x, threshold, gran, n, header);
      FilterLoopPartition(fs, probe, p, threshold, gran, n, header);
      var pre := FilterLoop(fs, probe, p, threshold, gran, n, header).value;
      FilterStepDecision(fs, probe, pre, x.1, threshold, gran, n, header);
      NamesSnoc(p, x);
      var st := FilterLoop(fs, probe, pairs, threshold, gran, n, header).value;
      if st.dupped == pre.dupped + [Strip(x.1)] {
        SubsequenceAppend(pre.dupped, Names(p), Strip(x.1));
        SubsequenceExtend(pre.clean, Names(p), Strip(x.1));
      } else {
        SubsequenceExtend(pre.dupped, Names(p), Strip(x.1));
        SubsequenceAppend(pre.clean, Names(p), Strip(x.1));
      }
    } else {
      assert Names(pairs) == [];
    }
  }

  // ---------------------------------------------------------------------
  // The filter

  /** `bf` is never None: it starts as a filter, and `build_ngram` hands
      back either that filter or a dictionary. */
  lemma {:induction false} FilterLoopBf(fs: FileSystem, probe: Probe, pairs: seq<(nat, string)>, threshold: real, gran: string, n: int, header: int)
    requires FilterLoop(fs, probe, pairs, threshold, gran, n, header).Ok?
    ensures !FilterLoop(fs, probe, pairs, threshold, gran, n, header).value.bf.NoFilter?
  {
    if pairs != [] {
      var p := pairs[..|pairs| - 1];
      var x := pairs[|pairs| - 1];
      FrontLast(pairs);
      FilterLoopSnoc(fs, probe, p, x, threshold, gran, n, header);
      FilterLoopBf(fs, probe, p, threshold, gran, n, header);
      var pre := FilterLoop(fs, probe, p, threshold, gran, n, header).value;
      FilterStepDecision(fs, probe, pre, x.1, threshold, gran, n, header);
      if EstimateOverlapBfResult(fs, probe, pre.bf, x.1, gran, n, header).value <= threshold {
        BuildNgramNotNone(fs, probe, x.1, pre.bf, gran, n, true, true);
      }
    }
  }

  /** One more file while `bf` stays a filter: it was a filter before the
      file, and it only grew. */
  lemma FilterLoopStepBits(fs: FileSystem, probe: Probe, pairs: seq<(nat, string)>, threshold: real, gran: string, n: int, header: int)
    requires ValidProbe(probe) && ParseGran(gran).Ok? && pairs != []
    requires FilterLoop(fs, probe, pairs, threshold, gran, n, header).Ok?
    requires FilterLoop(fs, probe, pairs, threshold, gran, n, header).value.bf.BloomBits?
    ensures var pre := FilterLoop(fs, probe, pairs[..|pairs| - 1], threshold, gran, n, header);
      var b := FilterLoop(fs, probe, pairs, threshold, gran, n, header).value.bf.bits;
      && pre.Ok? && pre.value.bf.BloomBits?
      && (ZeroIsEmpty(pre.value.bf.bits) ==> ZeroIsEmpty(b) && pre.value.bf.bits.on <= b.on)
  {
    var p := pairs[..|pairs| - 1];
    var x := pairs[|pairs| - 1];
    FrontLast(pairs);
    FilterLoopSnoc(fs, probe, p, x, threshold, gran, n, header);
    var pre := FilterLoop(fs, probe, p, threshold, gran, n, header).value;
    FilterStepDecision(fs, probe, pre, x.1, threshold, gran, n, header);
    var st := FilterLoop(fs, probe, pairs, threshold, gran, n, header).value;
    if st.bf != pre.bf {
      BuildNgramKeepsKind(fs, probe, x.1, pre.bf, gran, n);
      if ZeroIsEmpty(pre.bf.bits) {
        BuildNgramHas(fs, probe, x.1, pre.bf.bits, gran, n, "");
      }
    }
  }

  /** While `bf` is still a filter it only grows: the filter after any
      prefix of the files is contained in the final one. */
  lemma {:induction false} FilterLoopGrows(fs: FileSystem, probe: Probe, pairs: seq<(nat, string)>, i: nat, threshold: real, gran: string, n: int, header: int)
    requires ValidProbe(probe) && ParseGran(gran).Ok? && i <= |pairs|
    requires FilterLoop(fs, probe, pairs, threshold, gran, n, header).Ok?
    requires FilterLoop(fs, probe, pairs, threshold, gran, n, header).value.bf.BloomBits?
    ensures var pre := FilterLoop(fs, probe, pairs[..i], threshold, gran, n, header);
      var b := FilterLoop(fs, probe, pairs, threshold, gran, n, header).value.bf.bits;
      && ZeroIsEmpty(b)
      && pre.Ok? && pre.value.bf.BloomBits? && pre.value.bf.bits.on <= b.on
    decreases |pairs|
  {
    if pairs == [] {
      assert pairs[..i] == pairs;
    } else {
      var p := pairs[..|pairs| - 1];
      FilterLoopStepBits(fs, probe, pairs, threshold, gran, n, header);
      if i < |pairs| {
        FilterLoopGrows(fs, probe, p, i, threshold, gran, n, header);
        assert p[..i] == pairs[..i];
      } else {
        FilterLoopGrows(fs, probe, p, |p|, threshold, gran, n, header);
        assert p[..|p|] == p;
        assert pairs[..i] == pairs;
      }
    }
  }

  /** Each kept file is scored before its own n-grams go in, and then they
      all go in: while `bf` is a filter, it holds every key of every
      non-blank line of every kept file. */
  lemma FilterLoopHas(fs: FileSystem, probe: Probe, pairs: seq<(nat, string)>, k: nat, key: string, threshold: real, gran: string, n: int, header: int)
    requires ValidProbe(probe) && ParseGran(gran).Ok? && k < |pairs|
    requires FilterLoop(fs, probe, pairs, threshold, gran, n, header).Ok?
    requires FilterLoop(fs, probe, pairs, threshold, gran, n, header).value.bf.BloomBits?
    requires AcceptedAt(fs, probe, pairs, k, threshold, gran, n, header)
    requires pairs[k].1 in fs && KeyOfLines(fs[pairs[k].1].lines, key, ParseGran(gran).value, n)
    ensures Has(probe, FilterLoop(fs, probe, pairs, threshold, gran, n, header).value.bf.bits, key)
  {
    var q := pairs[..k + 1];
    assert q[..k] == pairs[..k];
    FrontLast(q);
    FilterLoopSnoc(fs, probe, pairs[..k], pairs[k], threshold, gran, n, header);
    FilterLoopGrows(fs, probe, pairs, k + 1, threshold, gran, n, header);
    FilterLoopGrows(fs, probe, pairs, k, threshold, gran, n, header);
    var before := FilterLoop(fs, probe, pairs[..k], threshold, gran, n, header).value;
    var after := FilterLoop(fs, probe, q, threshold, gran, n, header).value;
    assert pairs[..k][..k] == pairs[..k];
    FilterLoopGrows(fs, probe, pairs[..k], k, threshold, gran, n, header);
    assert FilterStep(fs, probe, before, pairs[k].1, threshold, gran, n, header) == Ok(after);
    FilterStepDecision(fs, probe, before, pairs[k].1, threshold, gran, n, header);
    assert BuildNgramResult(fs, probe, pairs[k].1, BloomBits(before.bf.bits), gran, n, true, true) == Ok(after.bf);
    BuildNgramHas(fs, probe, pairs[k].1, before.bf.bits, gran, n, key);
    HasGrows(probe, after.bf.bits, FilterLoop(fs, probe, pairs, threshold, gran, n, header).value.bf.bits, key);
  }

  // ---------------------------------------------------------------------
  // The first file and the errors

  /** The first file is scored against the empty filter, so its overlap is
      0 and it is kept whenever the threshold is at least 0. */
  lemma FilterFirstKept(fs: FileSystem, probe: Probe, pairs: seq<(nat, string)>, threshold: real, gran: string, n: int, header: int)
    requires ValidProbe(probe) && threshold >= 0.0 && pairs != []
    requires FilterLoop(fs, probe, pairs, threshold, gran, n, header).Ok?
    ensures var st := FilterLoop(fs, probe, pairs, threshold, gran, n, header).value;
      st.clean != [] && st.clean[0] == Strip(pairs[0].1)
  {
    FilterLoopPrefix(fs, probe, pairs, 1, threshold, gran, n, header);
    var q := pairs[..1];
    assert q == [] + [pairs[0]];
    FilterLoopSnoc(fs, probe, [], pairs[0], threshold, gran, n, header);
    FilterStepDecision(fs, probe, Start(), pairs[0].1, threshold, gran, n, header);
    EstimateEmptyFilter(fs, probe, pairs[0].1, gran, n, header);
  }

  /** A file with no line after the header makes the scorer divide by zero,
      which ends the run, once the files before it have gone through. */
  lemma FilterShortFile(fs: FileSystem, probe: Probe, pairs: seq<(nat, string)>, k: nat, threshold: real, gran: string, n: int, header: nat)
    requires ParseGran(gran).Ok? && k < |pairs| && pairs[k].1 in fs && |fs[pairs[k].1].lines| <= header
    requires FilterLoop(fs, probe, pairs[..k], threshold, gran, n, header).Ok?
    ensures FilterLoop(fs, probe, pairs, threshold, gran, n, header) == Err(ZeroDivisionError)
  {
    var q := pairs[..k + 1];
    assert q[..k] == pairs[..k];
    FrontLast(q);
    FilterLoopSnoc(fs, probe, pairs[..k], pairs[k], threshold, gran, n, header);
    var before := FilterLoop(fs, probe, pairs[..k], threshold, gran, n, header).value;
    FilterLoopBf(fs, probe, pairs[..k], threshold, gran, n, header);
    EstimateZeroDivision(fs, probe, before.bf, pairs[k].1, gran, n, header);
    FilterLoopErr(fs, probe, pairs, k + 1, threshold, gran, n, header);
  }

  /** A first file whose lines are all blank, header lines included, still
      scores 0 (each blank line after the header has the key ""), so it is
      kept. `build_ngram` skips no header and finds nothing to add, so it
      gives back its empty count dictionary and `bf` becomes that
      dictionary. */
  lemma FilterBlankFirst(fs: FileSystem, probe: Probe, pairs: seq<(nat, string)>, threshold: real, gran: string, n: int, header: nat)
    requires ValidProbe(probe) && ParseGran(gran).Ok? && threshold >= 0.0 && pairs != []
    requires pairs[0].1 in fs && header < |fs[pairs[0].1].lines|
    requires forall j :: 0 <= j < |fs[pairs[0].1].lines| ==> !Processed(fs[pairs[0].1].lines[j])
    ensures FilterLoop(fs, probe, pairs[..1], threshold, gran, n, header)
         == Ok(Pass([], [Strip(pairs[0].1)], 0, Dict(Counts([], map[]))))
  {
    var file := pairs[0].1;
    var e := EstimateOverlapBfResult(fs, probe, BloomBits(Empty()), file, gran, n, header);
    assert e == Ok(0.0) by {
      EstimateZeroDivision(fs, probe, BloomBits(Empty()), file, gran, n, header);
      EstimateEmptyFilter(fs, probe, file, gran, n, header);
    }
    var built := BuildNgramResult(fs, probe, file, BloomBits(Empty()), gran, n, true, true);
    assert built == Ok(Dict(Counts([], map[]))) by {
      BuildNgramEmptyFilter(fs, probe, file, gran, n, true, true);
      BuildNgramNotNone(fs, probe, file, BloomBits(Empty()), gran, n, true, true);
    }
    FilterStepAccept(fs, probe, Start(), file, threshold, gran, n, header);
    assert Start().clean + [Strip(file)] == [Strip(file)];
    assert FilterLoop(fs, probe, [], threshold, gran, n, header) == Ok(Start());
    assert pairs[..1] == [] + [pairs[0]];
    FilterLoopSnoc(fs, probe, [], pairs[0], threshold, gran, n, header);
  }

  /** After that, the next kept file with a non-blank line fails: a
      dictionary has no `add`. */
  lemma FilterAfterDict(fs: FileSystem, probe: Probe, st: Pass, file: string, threshold: real, gran: string, n: int, header: nat)
    requires ParseGran(gran).Ok? && file in fs && st.bf.Dict?
    requires EstimateOverlapBfResult(fs, probe, st.bf, file, gran, n, header).Ok?
    requires EstimateOverlapBfResult(fs, probe, st.bf, file, gran, n, header).value <= threshold
    requires exists j :: 0 <= j < |fs[file].lines| && Processed(fs[file].lines[j])
    ensures FilterStep(fs, probe, st, file, threshold, gran, n, header) == Err(AttributeError)
  {
    BuildLinesDict(probe, st.bf.counts, fs[file].lines, ParseGran(gran).value, n, true, true);
  }

  /** With at least one file, `filter_files` is the sort followed by the
      loop. */
  lemma FilterFilesUnfold(fs: FileSystem, probe: Probe, files: seq<string>, threshold: real, gran: string, n: int, header: int)
    requires FilterFilesResult(fs, probe, files, threshold, gran, n, header).Ok?
    ensures SortFilesBySize(fs, files).Ok?
    ensures |SortFilesBySize(fs, files).value| == |files|
    ensures FilterFilesResult(fs, probe, files, threshold, gran, n, header)
         == FilterLoop(fs, probe, SortFilesBySize(fs, files).value, threshold, gran, n, header)
  {
    var pairs := SortFilesBySize(fs, files).value;
    assert |multiset(pairs)| == |multiset(SizePairs(fs, files).value)|;
  }

  /** The outcome of `filter_files`: with no files the final report divides
      by zero; otherwise the files are visited largest first (ties by path,
      descending), each in exactly one list. */
  lemma FilterFilesSpec(fs: FileSystem, probe: Probe, files: seq<string>, threshold: real, gran: string, n: int, header: int)
    ensures files == [] ==> FilterFilesResult(fs, probe, files, threshold, gran, n, header) == Err(ZeroDivisionError)
    ensures FilterFilesResult(fs, probe, files, threshold, gran, n, header).Ok? ==>
      var pairs := SortFilesBySize(fs, files).value;
      var st := FilterFilesResult(fs, probe, files, threshold, gran, n, header).value;
      && SortFilesBySize(fs, files).Ok?
      && (forall i, j :: 0 <= i < j < |pairs| ==>
            pairs[i].0 > pairs[j].0 || (pairs[i].0 == pairs[j].0 && (pairs[i].1 == pairs[j].1 || StrLess(pairs[j].1, pairs[i].1))))
      && st.dupCount == |st.dupped|
      && |st.dupped| + |st.clean| == |files|
      && multiset(st.dupped) + multiset(st.clean) == multiset(Names(pairs))
      && IsSubsequence(st.dupped, Names(pairs))
      && IsSubsequence(st.clean, Names(pairs))
  {
    if files == [] {
      assert SortFilesBySize(fs, files).Ok?;
    }
    if FilterFilesResult(fs, probe, files, threshold, gran, n, header).Ok? {
      FilterFilesUnfold(fs, probe, files, threshold, gran, n, header);
      var pairs := SortFilesBySize(fs, files).value;
      FilterLoopPartition(fs, probe, pairs, threshold, gran, n, header);
      forall i, j | 0 <= i < j < |pairs|
        ensures pairs[i].0 > pairs[j].0 || (pairs[i].0 == pairs[j].0 && (pairs[i].1 == pairs[j].1 || StrLess(pairs[j].1, pairs[i].1)))
      {
        SortFilesBySizeOrder(fs, files, i, j);
      }
    }
  }

  // ---------------------------------------------------------------------
  // The loop

  /** What `filter_files` writes: the two lists and `dup_count`. */
  datatype Report = Report(dupped: seq<string>, clean: seq<string>, dupCount: nat)

  /** The body of the loop of `filter_files` for one file. */
  method Visit(fs: FileSystem, bf: BfArg, dupped: seq<string>, clean: seq<string>, dupCount: nat, file: string,
               threshold: real, gran: string, n: int, header: int, ghost probe: Probe)
    returns (r: Result<(Report, BfArg)>)
    requires bf.FilterArg? ==> bf.f.Valid() && bf.f.probe == probe
    modifies if bf.FilterArg? then {bf.f} else {}
    ensures bf.FilterArg? ==> bf.f.Valid()
    ensures var spec := FilterStep(fs, probe, Pass(dupped, clean, dupCount, old(Abs(bf))), file, threshold, gran, n, header);
      && r.Ok? == spec.Ok?
      && (r.Err? ==> r.error == spec.error)
      && (r.Ok? ==> spec.value == Pass(r.value.0.dupped, r.value.0.clean, r.value.0.dupCount, Abs(r.value.1))
                    && (r.value.1.FilterArg? ==> r.value.1 == bf))
  {
    var overlap := EstimateOverlapBf(fs, bf, file, gran, n, header, probe);
    if overlap.Err? {
      return Err(overlap.error);
    }
    if overlap.value > threshold {
      return Ok((Report(dupped + [Strip(file)], clean, dupCount + 1), bf));
    }
    var built := BuildNgram(fs, file, bf, gran, n, true, true, probe);
    if built.Err? {
      return Err(built.error);
    }
    r := Ok((Report(dupped, clean + [Strip(file)], dupCount), built.value));
  }

  /** `filter_files(files, threshold, gran, n, header=header)`; `probe`
      stands for the filter that `capacity` and `error_rate` make. */
  method FilterFiles(fs: FileSystem, files: seq<string>, threshold: real, gran: string, n: int, header: int, probe: Probe)
    returns (r: Result<Report>)
    requires ValidProbe(probe)
    ensures var spec := FilterFilesResult(fs, probe, files, threshold, gran, n, header);
      && r.Ok? == spec.Ok?
      && (r.Err? ==> r.error == spec.error)
      && (r.Ok? ==> r.value == Report(spec.value.dupped, spec.value.clean, spec.value.dupCount))
  {
    var sorted := SortFilesBySize(fs, files);
    if sorted.Err? {
      return Err(sorted.error);
    }
    var pairs := sorted.value;
    var f := new BloomFilter(probe);
    var bf := FilterArg(f);
    var dupped, clean, dupCount := [], [], 0;
    for i := 0 to |pairs|
      invariant f.Valid() && f.probe == probe
      invariant bf.FilterArg? ==> bf.f == f
      invariant FilterLoop(fs, probe, pairs[..i], threshold, gran, n, header) == Ok(Pass(dupped, clean, dupCount, Abs(bf)))
    {
      PrefixSnoc(pairs, i);
      FilterLoopSnoc(fs, probe, pairs[..i], pairs[i], threshold, gran, n, header);
      var next := Visit(fs, bf, dupped, clean, dupCount, pairs[i].1, threshold, gran, n, header, probe);
      if next.Err? {
        FilterLoopErr(fs, probe, pairs, i + 1, threshold, gran, n, header);
        return Err(next.error);
      }
      dupped, clean, dupCount, bf := next.value.0.dupped, next.value.0.clean, next.value.0.dupCount, next.value.1;
    }
    assert pairs[..|pairs|] == pairs;
    if |files| == 0 {
      return Err(ZeroDivisionError);
    }
    r := Ok(Report(dupped, clean, dupCount));
  }
}
