/** lazynlp/analytics.py: n-gram extraction (`build_ngram_from_tokens`), the
    readline loop that folds a file's n-grams into a filter (`build_ngram`),
    and the overlap score of a file against a filter (`estimate_overlap_bf`,
    `estimate_overlap`). */
module Analytics {
  import opened Common
  import opened Text
  import opened Cleaner
  import opened Bloom

  // ---------------------------------------------------------------------
  // gran

  datatype Gran = Word | Char

  /** `gran` must be 'word' or 'char'; anything else raises ValueError. */
  function ParseGran(gran: string): (r: Result<Gran>)
    ensures r.Ok? <==> gran == "word" || gran == "char"
    ensures r == Ok(Word) <==> gran == "word"
    ensures r.Err? ==> r.error == ValueError("gran has to be 'word' or 'char'")
  {
    if gran == "word" then Ok(Word)
    else if gran == "char" then Ok(Char)
    else Err(ValueError("gran has to be 'word' or 'char'"))
  }

  // ---------------------------------------------------------------------
  // build_ngram_from_tokens

  /** `s[1:]`, which is empty for an empty list. */
  function Drop1(s: seq<string>): seq<string> {
    if s == [] then [] else s[1..]
  }

  /** The window length: `tokens[:n]` holds min(n, L) tokens. */
  function WindowLength(tokens: seq<string>, n: nat): nat {
    if n <= |tokens| then n else |tokens|
  }

  /** Window i of `tokens` for window length m: the m tokens from position
      i; for m = 0 the empty window and then each token on its own, since
      `[][1:] + [token]` is `[token]`. */
  function Window(tokens: seq<string>, m: nat, i: nat): seq<string>
    requires m <= |tokens| && i <= |tokens| - m
  {
    if m == 0 then (if i == 0 then [] else [tokens[i - 1]]) else tokens[i..i + m]
  }

  /** The windows `build_ngram_from_tokens(tokens, n)` joins: one more than
      there are tokens after the first window. */
  function Windows(tokens: seq<string>, n: nat): seq<seq<string>> {
    var m := WindowLength(tokens, n);
    seq(|tokens| - m + 1, i requires 0 <= i <= |tokens| - m => Window(tokens, m, i))
  }

  /** The count dictionary after counting `key` once more: an old key keeps
      its place, a new one is appended with count 1. */
  function Bump(d: Counts, key: string): Counts {
    if key in d.count then Counts(d.order, d.count[key := d.count[key] + 1])
    else Counts(d.order + [key], d.count[key := 1])
  }

  /** Counting `keys` into an empty dictionary, in order. */
  function Tally(keys: seq<string>): Counts {
    if keys == [] then Counts([], map[]) else Bump(Tally(keys[..|keys| - 1]), keys[|keys| - 1])
  }

  /** The keys of the windows, `' '.join(curr)`. */
  function WindowKeys(ws: seq<seq<string>>): (ks: seq<string>)
    ensures |ks| == |ws|
    ensures forall i :: 0 <= i < |ws| ==> ks[i] == Join(ws[i])
  {
    seq(|ws|, i requires 0 <= i < |ws| => Join(ws[i]))
  }

  /** What `build_ngram_from_tokens(tokens, n)` returns for n >= 0. */
  function NgramCount(tokens: seq<string>, n: nat): Counts {
    Tally(WindowKeys(Windows(tokens, n)))
  }

  /** `len(tokens[:n])` for any int n: a negative n counts from the end, so
      `build_ngram_from_tokens(tokens, n)` acts as it does for this n. */
  function FirstWindow(tokens: seq<string>, n: int): (m: nat)
    ensures m <= |tokens|
    ensures 0 <= n ==> m == WindowLength(tokens, n)
    ensures n < 0 ==> m == if |tokens| + n < 0 then 0 else |tokens| + n
  {
    if n < 0 then (if |tokens| + n < 0 then 0 else |tokens| + n)
    else WindowLength(tokens, n)
  }

  /** `build_ngram_from_tokens`: the first window counted once, then the
      window slid over each remaining token. `tokens[:n]` and `tokens[n:]`
      split the tokens at `FirstWindow(tokens, n)` for every int n. */
  method BuildNgramFromTokens(tokens: seq<string>, n: int) returns (count: Counts)
    ensures count == NgramCount(tokens, FirstWindow(tokens, n))
  {
    var m := FirstWindow(tokens, n);
    var curr := tokens[..m];
    var rest := tokens[m..];
    count := Counts([Join(curr)], map[Join(curr) := 1]);
    ghost var ws := Windows(tokens, m);
    assert WindowKeys(ws[..1]) == [Join(curr)];
    assert Tally([Join(curr)]) == count by {
      assert [Join(curr)][..0] == [];
    }
    for j := 0 to |rest|
      invariant curr == ws[j]
      invariant count == Tally(WindowKeys(ws[..j + 1]))
    {
      var token := rest[j];
      assert token == tokens[m + j];
      curr := Drop1(curr) + [token];
      SlideStep(tokens, m, j);
      count := CountKey(count, Join(curr));
      PrefixSnoc(ws, j + 1);
      TallyStep(ws[..j + 1], curr);
    }
    assert ws[..|rest| + 1] == ws;
  }

  /** Sliding window j by the next token gives window j + 1. */
  lemma SlideStep(tokens: seq<string>, n: nat, j: nat)
    requires j + 1 < |Windows(tokens, n)|
    ensures Drop1(Windows(tokens, n)[j]) + [tokens[WindowLength(tokens, n) + j]] == Windows(tokens, n)[j + 1]
  {
    var m := WindowLength(tokens, n);
    if m > 0 {
      WindowShift(tokens, j, m);
    }
  }

  /** Sliding window j by one token gives window j + 1. */
  lemma WindowShift(tokens: seq<string>, j: nat, n: nat)
    requires 1 <= n && j + n < |tokens|
    ensures Drop1(tokens[j..j + n]) + [tokens[j + n]] == tokens[j + 1..j + n + 1]
  {
    SliceTail(tokens, j, j + n);
    SliceSnoc(tokens, j + 1, j + n);
  }

  /** `if string not in count: count[string] = 0` then `count[string] += 1`. */
  method CountKey(count: Counts, key: string) returns (r: Counts)
    ensures r == Bump(count, key)
  {
    r := count;
    if key !in r.count {
      r := Counts(r.order + [key], r.count[key := 0]);
    }
    r := Counts(r.order, r.count[key := r.count[key] + 1]);
  }

  lemma TallyStep(ws: seq<seq<string>>, w: seq<string>)
    ensures Tally(WindowKeys(ws + [w])) == Bump(Tally(WindowKeys(ws)), Join(w))
  {
    var ks := WindowKeys(ws + [w]);
    assert ks[..|ks| - 1] == WindowKeys(ws);
  }

  /** The sum of the counts of the keys in `order`. */
  function SumOver(order: seq<string>, count: map<string, nat>): nat {
    if order == [] then 0
    else SumOver(order[..|order| - 1], count) + (if order[|order| - 1] in count then count[order[|order| - 1]] else 0)
  }

  lemma {:induction false} SumOverBump(order: seq<string>, count: map<string, nat>, key: string)
    requires key in count
    requires NoDuplicates(order)
    ensures SumOver(order, count[key := count[key] + 1]) == SumOver(order, count) + (if key in order then 1 else 0)
  {
    if order != [] {
      var p := order[..|order| - 1];
      assert NoDuplicates(p);
      SumOverBump(p, count, key);
      if order[|order| - 1] == key {
        assert key !in p;
      }
    }
  }

  lemma {:induction false} SumOverFresh(order: seq<string>, count: map<string, nat>, key: string)
    requires key !in order
    ensures SumOver(order, count[key := 1]) == SumOver(order, count)
  {
    if order != [] {
      SumOverFresh(order[..|order| - 1], count, key);
    }
  }

  /** Counting one key more into a well-formed dictionary. */
  lemma BumpSpec(d: Counts, key: string)
    requires ValidCounts(d)
    ensures var e := Bump(d, key);
      && ValidCounts(e)
      && (forall k :: k in e.count <==> k in d.count || k == key)
      && (forall k :: k in e.count ==> e.count[k] == (if k in d.count then d.count[k] else 0) + (if k == key then 1 else 0))
      && SumOver(e.order, e.count) == SumOver(d.order, d.count) + 1
  {
    if key in d.count {
      SumOverBump(d.order, d.count, key);
    } else {
      SumOverFresh(d.order, d.count, key);
      assert (d.order + [key])[..|d.order|] == d.order;
    }
  }

  /** The dictionary is well formed and holds exactly the keys counted. */
  lemma {:induction false} TallyKeys(keys: seq<string>)
    ensures ValidCounts(Tally(keys))
    ensures forall k :: k in Tally(keys).count <==> k in keys
  {
    if keys != [] {
      var p := keys[..|keys| - 1];
      assert keys == p + [keys[|keys| - 1]];
      TallyKeys(p);
      BumpSpec(Tally(p), keys[|keys| - 1]);
    }
  }

  /** The dictionary is well formed, holds each key once in first-occurrence
      order with its number of occurrences, and the counts sum to the number
      of keys counted. */
  lemma {:induction false} TallySpec(keys: seq<string>)
    ensures var d := Tally(keys);
      && ValidCounts(d)
      && (forall k :: k in d.count <==> k in keys)
      && (forall k :: k in d.count ==> d.count[k] == multiset(keys)[k])
      && SumOver(d.order, d.count) == |keys|
  {
    TallyKeys(keys);
    if keys != [] {
      var p := keys[..|keys| - 1];
      var key := keys[|keys| - 1];
      assert keys == p + [key];
      TallySpec(p);
      BumpSpec(Tally(p), key);
      assert forall k :: multiset(keys)[k] == multiset(p)[k] + (if k == key then 1 else 0);
    }
  }

  /** The counts sum to the number of windows. */
  lemma NgramCountSum(tokens: seq<string>, n: nat)
    ensures var d := NgramCount(tokens, n);
      ValidCounts(d) && SumOver(d.order, d.count) == |Windows(tokens, n)|
  {
    TallySpec(WindowKeys(Windows(tokens, n)));
  }

  /** Every line has at least one key. */
  lemma NgramCountNonEmpty(tokens: seq<string>, n: nat)
    ensures NgramCount(tokens, n).order != []
  {
    var ks := WindowKeys(Windows(tokens, n));
    TallySpec(ks);
    assert ks[0] in NgramCount(tokens, n).count;
  }

  /** No tokens: the single key "" with count 1. */
  lemma NgramCountEmpty(n: nat)
    ensures NgramCount([], n) == Counts([""], map["" := 1])
  {
    var ws := Windows([], n);
    assert ws == [[]];
    assert WindowKeys(ws) == [""];
    assert [""][..0] == [];
  }

  /** Keys that are pairwise different are each counted once, in order. */
  lemma {:induction false} TallyDistinct(keys: seq<string>)
    requires NoDuplicates(keys)
    ensures Tally(keys).order == keys
    ensures forall k :: k in Tally(keys).count ==> Tally(keys).count[k] == 1
  {
    if keys != [] {
      var p := keys[..|keys| - 1];
      assert NoDuplicates(p);
      TallyDistinct(p);
      TallyKeys(p);
      assert keys[|keys| - 1] !in p;
      assert keys == p + [keys[|keys| - 1]];
    }
  }

  lemma Join3(a: string, b: string, c: string)
    ensures Join([a, b, c]) == a + " " + (b + " " + c)
  {
    assert [b, c][1..] == [c];
    assert Join([b, c]) == b + " " + c;
    assert [a, b, c][1..] == [b, c];
  }

  /** Trigram key i joins tokens i, i + 1 and i + 2. */
  lemma TrigramKey(tokens: seq<string>, i: nat)
    requires i + 3 <= |tokens|
    ensures WindowKeys(Windows(tokens, 3))[i] == tokens[i] + " " + (tokens[i + 1] + " " + tokens[i + 2])
  {
    var w := Windows(tokens, 3)[i];
    assert w == [tokens[i], tokens[i + 1], tokens[i + 2]];
    Join3(tokens[i], tokens[i + 1], tokens[i + 2]);
  }

  /** "the cat sat on the mat" with n = 3: four trigrams, each counted once. */
  lemma NgramCountExample()
    ensures var d := NgramCount(["the", "cat", "sat", "on", "the", "mat"], 3);
      && d.order == ["the cat sat", "cat sat on", "sat on the", "on the mat"]
      && forall k :: k in d.count ==> d.count[k] == 1
  {
    var tokens := ["the", "cat", "sat", "on", "the", "mat"];
    var ks := WindowKeys(Windows(tokens, 3));
    TrigramKey(tokens, 0);
    TrigramKey(tokens, 1);
    TrigramKey(tokens, 2);
    TrigramKey(tokens, 3);
    assert |ks| == 4;
    assert ks[0] == "the cat sat" && ks[1] == "cat sat on" && ks[2] == "sat on the" && ks[3] == "on the mat";
    assert ks == ["the cat sat", "cat sat on", "sat on the", "on the mat"];
    TallyDistinct(ks);
  }

  // ---------------------------------------------------------------------
  // Line normalisation

  /** A stripped line after optional lowercasing, the character filter of
      the granularity and space collapsing. */
  function Cleaned(s: string, gran: Gran, uncase: bool, alphanumeric: bool): string {
    var l := if uncase then Lower(s) else s;
    var t := match gran
      case Word => if alphanumeric then RemoveNonAlphanumeric(l) else l
      case Char => RemoveNonAlpha(l);
    Collapsed(t)
  }

  /** A line after strip and `Cleaned`. */
  function Normalized(line: string, gran: Gran, uncase: bool, alphanumeric: bool): string {
    Cleaned(Strip(line), gran, uncase, alphanumeric)
  }

  /** The tokens `line.split()` gives after normalisation; both granularities
      split into whitespace-separated words. */
  function Tokens(line: string, gran: Gran, uncase: bool, alphanumeric: bool): seq<string> {
    Split(Normalized(line, gran, uncase, alphanumeric))
  }

  /** The n-gram dictionary of one line. */
  function LineCount(line: string, gran: Gran, n: int, uncase: bool, alphanumeric: bool): Counts {
    var tokens := Tokens(line, gran, uncase, alphanumeric);
    NgramCount(tokens, FirstWindow(tokens, n))
  }

  lemma CollapsedChar(t: string, c: char)
    requires c in Collapsed(t) && c != ' '
    ensures c in t
  {
    CollapsedKeepsNonSpaces(t);
    FilterCounts(Collapsed(t), NotSpace);
    assert multiset(Filter(Collapsed(t), NotSpace))[c] == multiset(Collapsed(t))[c] > 0;
    FilterChar(t, NotSpace, c);
  }

  /** What the tokens are made of: in char mode only letters, in word mode
      with `alphanumeric` only letters and digits, and no upper-case letter
      when `uncase`. */
  lemma TokensChars(line: string, gran: Gran, uncase: bool, alphanumeric: bool)
    ensures var ts := Tokens(line, gran, uncase, alphanumeric);
      forall k, i :: 0 <= k < |ts| && 0 <= i < |ts[k]| ==>
        && !IsSpace(ts[k][i])
        && (gran == Char ==> IsLetter(ts[k][i]))
        && (gran == Word && alphanumeric ==> IsLetter(ts[k][i]) || IsDigit(ts[k][i]))
        && (uncase ==> !IsUpper(ts[k][i]))
  {
    var ts := Tokens(line, gran, uncase, alphanumeric);
    SplitChars(Normalized(line, gran, uncase, alphanumeric));
    forall k, i | 0 <= k < |ts| && 0 <= i < |ts[k]|
      ensures (gran == Char ==> IsLetter(ts[k][i]))
      ensures (gran == Word && alphanumeric ==> IsLetter(ts[k][i]) || IsDigit(ts[k][i]))
      ensures (uncase ==> !IsUpper(ts[k][i]))
    {
      NormalizedChar(line, gran, uncase, alphanumeric, ts[k][i]);
    }
  }

  lemma NormalizedChar(line: string, gran: Gran, uncase: bool, alphanumeric: bool, c: char)
    requires c in Normalized(line, gran, uncase, alphanumeric) && c != ' '
    ensures gran == Char ==> IsLetter(c)
    ensures gran == Word && alphanumeric ==> IsLetter(c) || IsDigit(c)
    ensures uncase ==> !IsUpper(c)
  {
    var s := if uncase then Lower(Strip(line)) else Strip(line);
    var t := match gran
      case Word => if alphanumeric then RemoveNonAlphanumeric(s) else s
      case Char => RemoveNonAlpha(s);
    CollapsedChar(t, c);
    if gran == Char {
      FilterChar(s, IsAlphaOrSpace, c);
    } else if alphanumeric {
      FilterChar(s, IsAlnumOrSpace, c);
    }
    if uncase {
      var j :| 0 <= j < |s| && s[j] == c;
    }
  }

  // ---------------------------------------------------------------------
  // count.update

  /** `d[k] = v`: an old key keeps its place, a new one is appended. */
  function Put(d: Counts, k: string, v: nat): Counts {
    if k in d.count then Counts(d.order, d.count[k := v]) else Counts(d.order + [k], d.count[k := v])
  }

  function PutAll(d: Counts, e: map<string, nat>, keys: seq<string>): Counts {
    if keys == [] then d
    else
      var k := keys[|keys| - 1];
      Put(PutAll(d, e, keys[..|keys| - 1]), k, if k in e then e[k] else 0)
  }

  /** `d.update(e)`. */
  function Update(d: Counts, e: Counts): Counts {
    PutAll(d, e.count, e.order)
  }

  lemma {:induction false} PutAllSpec(d: Counts, e: map<string, nat>, keys: seq<string>)
    requires ValidCounts(d)
    requires forall k :: k in keys ==> k in e
    ensures var r := PutAll(d, e, keys);
      && ValidCounts(r)
      && (forall k :: k in r.count <==> k in d.count || k in keys)
      && (forall k :: k in r.count ==> r.count[k] == if k in keys then e[k] else d.count[k])
  {
    if keys != [] {
      var p := keys[..|keys| - 1];
      var k := keys[|keys| - 1];
      FrontLast(keys);
      assert forall x :: x in keys <==> x in p || x == k;
      PutAllSpec(d, e, p);
      PutSpec(PutAll(d, e, p), k, e[k]);
    }
  }

  /** `d[k] = v` keeps the dictionary well formed, adds `k` and changes
      nothing else. */
  lemma PutSpec(d: Counts, k: string, v: nat)
    requires ValidCounts(d)
    ensures var r := Put(d, k, v);
      && ValidCounts(r)
      && (forall x :: x in r.count <==> x in d.count || x == k)
      && r.count[k] == v
      && (forall x :: x in d.count && x != k ==> r.count[x] == d.count[x])
  {
    if k !in d.count {
      assert k !in d.order;
      SnocParts(d.order, k);
    }
  }

  /** `update` overwrites: a key of `e` gets `e`'s value, any other key keeps
      its own; no key is lost or repeated. */
  lemma UpdateSpec(d: Counts, e: Counts)
    requires ValidCounts(d) && ValidCounts(e)
    ensures var r := Update(d, e);
      && ValidCounts(r)
      && (forall k :: k in r.count <==> k in d.count || k in e.count)
      && (forall k :: k in r.count ==> r.count[k] == if k in e.count then e.count[k] else d.count[k])
  {
    PutAllSpec(d, e.count, e.order);
  }

  // ---------------------------------------------------------------------
  // build_ngram

  /** What `bf` is bound to: nothing (`None`), a Bloom filter, or the count
      dictionary that `build_ngram` returns in place of a filter that is
      still empty. */
  datatype Bf = NoFilter | BloomBits(bits: Bits) | Dict(counts: Counts)

  /** `bool(bf)`: a filter is true when `len(bf) > 0`, a dictionary when it
      has a key. */
  predicate Truthy(bf: Bf) {
    match bf
      case NoFilter => false
      case BloomBits(b) => b.count > 0
      case Dict(d) => d.order != []
  }

  /** The variables of `build_ngram`'s readline loop: `count` and `bf`. */
  datatype Ngrams = Ngrams(count: Counts, bf: Bf)

  /** A line that `build_ngram` does not skip. */
  predicate Processed(line: string) {
    Strip(line) != ""
  }

  /** The readline loop of `build_ngram`: a blank line is skipped; any other
      line's n-gram dictionary updates `count`, and each of its keys is added
      to the filter. Adding to a dictionary raises AttributeError. */
  function BuildLines(probe: Probe, bf: Bf, lines: seq<string>, gran: Gran, n: int, uncase: bool, alphanumeric: bool): Result<Ngrams> {
    if lines == [] then Ok(Ngrams(Counts([], map[]), bf))
    else
      var st :- BuildLines(probe, bf, lines[..|lines| - 1], gran, n, uncase, alphanumeric);
      var line := lines[|lines| - 1];
      if !Processed(line) then Ok(st)
      else
        var lc := LineCount(line, gran, n, uncase, alphanumeric);
        var count := Update(st.count, lc);
        match st.bf
          case NoFilter => Ok(Ngrams(count, NoFilter))
          case BloomBits(b) => Ok(Ngrams(count, BloomBits(InsertAll(probe, b, lc.order))))
          case Dict(_) => Err(AttributeError)
  }

  /** What `build_ngram(file, bf=bf, gran=gran, n=n, uncase=.., alphanumeric=..)`
      returns: `bf` if it is true afterwards, otherwise the count dictionary. */
  function BuildNgramResult(fs: FileSystem, probe: Probe, file: string, bf: Bf, gran: string, n: int, uncase: bool, alphanumeric: bool): Result<Bf> {
    var g :- ParseGran(gran);
    var lines :- ReadLines(fs, file);
    var st :- BuildLines(probe, bf, lines, g, n, uncase, alphanumeric);
    Ok(if Truthy(st.bf) then st.bf else Dict(st.count))
  }

  lemma BuildLinesStep(probe: Probe, bf: Bf, lines: seq<string>, line: string, gran: Gran, n: int, uncase: bool, alphanumeric: bool)
    ensures BuildLines(probe, bf, lines + [line], gran, n, uncase, alphanumeric)
         == var r := BuildLines(probe, bf, lines, gran, n, uncase, alphanumeric);
            if r.Err? then r
            else if !Processed(line) then r
            else
              var lc := LineCount(line, gran, n, uncase, alphanumeric);
              var count := Update(r.value.count, lc);
              match r.value.bf
                case NoFilter => Ok(Ngrams(count, NoFilter))
                case BloomBits(b) => Ok(Ngrams(count, BloomBits(InsertAll(probe, b, lc.order))))
                case Dict(_) => Err(AttributeError)
  {
    SnocParts(lines, line);
  }

  /** One iteration of the readline loop of `build_ngram`. */
  function StepLine(probe: Probe, st: Ngrams, line: string, gran: Gran, n: int, uncase: bool, alphanumeric: bool): Result<Ngrams> {
    if !Processed(line) then Ok(st)
    else
      var lc := LineCount(line, gran, n, uncase, alphanumeric);
      var count := Update(st.count, lc);
      match st.bf
        case NoFilter => Ok(Ngrams(count, NoFilter))
        case BloomBits(b) => Ok(Ngrams(count, BloomBits(InsertAll(probe, b, lc.order))))
        case Dict(_) => Err(AttributeError)
  }

  lemma BuildLinesStepLine(probe: Probe, bf: Bf, lines: seq<string>, line: string, gran: Gran, n: int, uncase: bool, alphanumeric: bool)
    requires BuildLines(probe, bf, lines, gran, n, uncase, alphanumeric).Ok?
    ensures BuildLines(probe, bf, lines + [line], gran, n, uncase, alphanumeric)
         == StepLine(probe, BuildLines(probe, bf, lines, gran, n, uncase, alphanumeric).value, line, gran, n, uncase, alphanumeric)
  {
    BuildLinesStep(probe, bf, lines, line, gran, n, uncase, alphanumeric);
  }

  /** An error on a line ends the readline loop: no later line changes it. */
  lemma {:induction false} BuildLinesErr(probe: Probe, bf: Bf, lines: seq<string>, i: nat, gran: Gran, n: int, uncase: bool, alphanumeric: bool)
    requires i <= |lines|
    requires BuildLines(probe, bf, lines[..i], gran, n, uncase, alphanumeric).Err?
    ensures BuildLines(probe, bf, lines, gran, n, uncase, alphanumeric) == BuildLines(probe, bf, lines[..i], gran, n, uncase, alphanumeric)
    decreases |lines|
  {
    if i < |lines| {
      var p := lines[..|lines| - 1];
      assert p[..i] == lines[..i];
      BuildLinesErr(probe, bf, p, i, gran, n, uncase, alphanumeric);
    } else {
      assert lines[..i] == lines;
    }
  }

  /** Only the count dictionary, one line further. */
  lemma BuildLinesCount(probe: Probe, bf: Bf, lines: seq<string>, line: string, gran: Gran, n: int, uncase: bool, alphanumeric: bool)
    requires BuildLines(probe, bf, lines + [line], gran, n, uncase, alphanumeric).Ok?
    ensures BuildLines(probe, bf, lines, gran, n, uncase, alphanumeric).Ok?
    ensures var d := BuildLines(probe, bf, lines, gran, n, uncase, alphanumeric).value.count;
      BuildLines(probe, bf, lines + [line], gran, n, uncase, alphanumeric).value.count
        == if Processed(line) then Update(d, LineCount(line, gran, n, uncase, alphanumeric)) else d
  {
    BuildLinesStep(probe, bf, lines, line, gran, n, uncase, alphanumeric);
  }

  /** With a filter the loop cannot fail and keeps a filter that only grows:
      every key of every processed line is contained afterwards, and the
      filter is true afterwards exactly when it was before or some line was
      processed. */
  lemma {:induction false} BuildLinesFilter(probe: Probe, b: Bits, lines: seq<string>, gran: Gran, n: int, uncase: bool, alphanumeric: bool)
    requires ValidProbe(probe) && ZeroIsEmpty(b)
    ensures var r := BuildLines(probe, BloomBits(b), lines, gran, n, uncase, alphanumeric);
      && r.Ok? && r.value.bf.BloomBits?
      && b.on <= r.value.bf.bits.on
      && ZeroIsEmpty(r.value.bf.bits)
      && (r.value.bf.bits.count > 0 <==> b.count > 0 || exists j :: 0 <= j < |lines| && Processed(lines[j]))
      && (forall j, i :: 0 <= j < |lines| && Processed(lines[j]) && 0 <= i < |LineCount(lines[j], gran, n, uncase, alphanumeric).order|
            ==> Has(probe, r.value.bf.bits, LineCount(lines[j], gran, n, uncase, alphanumeric).order[i]))
  {
    if lines != [] {
      var p := lines[..|lines| - 1];
      var line := lines[|lines| - 1];
      BuildLinesFilter(probe, b, p, gran, n, uncase, alphanumeric);
      FrontLast(lines);
      BuildLinesStepLine(probe, BloomBits(b), p, line, gran, n, uncase, alphanumeric);
      var c := BuildLines(probe, BloomBits(b), p, gran, n, uncase, alphanumeric).value.bf.bits;
      if Processed(line) {
        var keys := LineCount(line, gran, n, uncase, alphanumeric).order;
        InsertAllHas(probe, c, keys);
        InsertAllTruthy(probe, c, keys);
        NgramCountNonEmpty(Tokens(line, gran, uncase, alphanumeric), FirstWindow(Tokens(line, gran, uncase, alphanumeric), n));
      }
      assert forall j :: 0 <= j < |p| ==> p[j] == lines[j];
      var r := BuildLines(probe, BloomBits(b), lines, gran, n, uncase, alphanumeric).value.bf.bits;
      assert c.on <= r.on;
      forall j, i | 0 <= j < |lines| && Processed(lines[j]) && 0 <= i < |LineCount(lines[j], gran, n, uncase, alphanumeric).order|
        ensures Has(probe, r, LineCount(lines[j], gran, n, uncase, alphanumeric).order[i])
      {
        if j < |p| {
          assert Has(probe, c, LineCount(p[j], gran, n, uncase, alphanumeric).order[i]);
        }
      }
    }
  }

  /** A dictionary in place of the filter: the loop fails exactly when some
      line is processed, and otherwise leaves everything empty. */
  lemma {:induction false} BuildLinesDict(probe: Probe, d: Counts, lines: seq<string>, gran: Gran, n: int, uncase: bool, alphanumeric: bool)
    ensures var r := BuildLines(probe, Dict(d), lines, gran, n, uncase, alphanumeric);
      && (r.Err? <==> exists j :: 0 <= j < |lines| && Processed(lines[j]))
      && (r.Err? ==> r.error == AttributeError)
      && (r.Ok? ==> r.value == Ngrams(Counts([], map[]), Dict(d)))
  {
    if lines != [] {
      var p := lines[..|lines| - 1];
      var line := lines[|lines| - 1];
      FrontLast(lines);
      BuildLinesStep(probe, Dict(d), p, line, gran, n, uncase, alphanumeric);
      BuildLinesDict(probe, d, p, gran, n, uncase, alphanumeric);
      assert forall j :: 0 <= j < |p| ==> p[j] == lines[j];
      assert (exists j :: 0 <= j < |lines| && Processed(lines[j]))
         <==> (exists j :: 0 <= j < |p| && Processed(p[j])) || Processed(line);
    }
  }

  /** The count dictionary holds the keys of the processed lines. */
  lemma {:induction false} BuildLinesKeys(probe: Probe, bf: Bf, lines: seq<string>, gran: Gran, n: int, uncase: bool, alphanumeric: bool)
    requires BuildLines(probe, bf, lines, gran, n, uncase, alphanumeric).Ok?
    ensures var d := BuildLines(probe, bf, lines, gran, n, uncase, alphanumeric).value.count;
      && ValidCounts(d)
      && forall k :: k in d.count <==> exists j :: 0 <= j < |lines| && Processed(lines[j]) && k in LineCount(lines[j], gran, n, uncase, alphanumeric).count
  {
    if lines != [] {
      var p := lines[..|lines| - 1];
      var line := lines[|lines| - 1];
      assert lines == p + [line];
      BuildLinesCount(probe, bf, p, line, gran, n, uncase, alphanumeric);
      BuildLinesKeys(probe, bf, p, gran, n, uncase, alphanumeric);
      var d := BuildLines(probe, bf, p, gran, n, uncase, alphanumeric).value.count;
      if Processed(line) {
        var lc := LineCount(line, gran, n, uncase, alphanumeric);
        TallySpec(WindowKeys(Windows(Tokens(line, gran, uncase, alphanumeric), FirstWindow(Tokens(line, gran, uncase, alphanumeric), n))));
        UpdateSpec(d, lc);
      }
      assert forall j :: 0 <= j < |p| ==> p[j] == lines[j];
    }
  }

  /** `update` overwrites rather than adds: a key's final count is its count
      in the last processed line that has it. */
  lemma {:induction false} BuildLinesLastWins(probe: Probe, bf: Bf, lines: seq<string>, gran: Gran, n: int, uncase: bool, alphanumeric: bool, k: string, j: nat)
    requires BuildLines(probe, bf, lines, gran, n, uncase, alphanumeric).Ok?
    requires j < |lines| && Processed(lines[j]) && k in LineCount(lines[j], gran, n, uncase, alphanumeric).count
    requires forall j' :: j < j' < |lines| && Processed(lines[j']) ==> k !in LineCount(lines[j'], gran, n, uncase, alphanumeric).count
    ensures var d := BuildLines(probe, bf, lines, gran, n, uncase, alphanumeric).value.count;
      k in d.count && d.count[k] == LineCount(lines[j], gran, n, uncase, alphanumeric).count[k]
  {
    var p := lines[..|lines| - 1];
    var line := lines[|lines| - 1];
    assert lines == p + [line];
    BuildLinesCount(probe, bf, p, line, gran, n, uncase, alphanumeric);
    BuildLinesKeys(probe, bf, p, gran, n, uncase, alphanumeric);
    var d := BuildLines(probe, bf, p, gran, n, uncase, alphanumeric).value.count;
    var lc := LineCount(line, gran, n, uncase, alphanumeric);
    LineCountValid(line, gran, n, uncase, alphanumeric);
    if j < |p| {
      assert p[j] == lines[j];
      assert forall j' :: j < j' < |p| ==> p[j'] == lines[j'];
      BuildLinesLastWins(probe, bf, p, gran, n, uncase, alphanumeric, k, j);
      if Processed(line) {
        UpdateValue(d, lc, k);
      }
    } else {
      UpdateValue(d, lc, k);
    }
  }

  lemma LineCountValid(line: string, gran: Gran, n: int, uncase: bool, alphanumeric: bool)
    ensures ValidCounts(LineCount(line, gran, n, uncase, alphanumeric))
  {
    TallySpec(WindowKeys(Windows(Tokens(line, gran, uncase, alphanumeric), FirstWindow(Tokens(line, gran, uncase, alphanumeric), n))));
  }

  lemma UpdateValue(d: Counts, e: Counts, k: string)
    requires ValidCounts(d) && ValidCounts(e) && (k in d.count || k in e.count)
    ensures k in Update(d, e).count
    ensures Update(d, e).count[k] == if k in e.count then e.count[k] else d.count[k]
  {
    UpdateSpec(d, e);
  }

  /** Truthiness after `build_ngram` on an empty filter: the filter comes
      back when some line was processed; a file with only blank lines gives
      back the empty count dictionary instead, which callers then use as
      `bf`. */
  lemma BuildNgramEmptyFilter(fs: FileSystem, probe: Probe, file: string, gran: string, n: int, uncase: bool, alphanumeric: bool)
    requires ValidProbe(probe) && file in fs && ParseGran(gran).Ok?
    ensures var r := BuildNgramResult(fs, probe, file, BloomBits(Empty()), gran, n, uncase, alphanumeric);
      && r.Ok?
      && (r.value.BloomBits? <==> exists j :: 0 <= j < |fs[file].lines| && Processed(fs[file].lines[j]))
      && (r.value.Dict? ==> r.value == Dict(Counts([], map[])))
  {
    var lines := fs[file].lines;
    var g := ParseGran(gran).value;
    BuildLinesFilter(probe, Empty(), lines, g, n, uncase, alphanumeric);
    if !exists j :: 0 <= j < |lines| && Processed(lines[j]) {
      BuildLinesNone(probe, BloomBits(Empty()), lines, g, n, uncase, alphanumeric);
    }
  }

  /** No processed line: nothing changes. */
  lemma {:induction false} BuildLinesNone(probe: Probe, bf: Bf, lines: seq<string>, gran: Gran, n: int, uncase: bool, alphanumeric: bool)
    requires forall j :: 0 <= j < |lines| ==> !Processed(lines[j])
    ensures BuildLines(probe, bf, lines, gran, n, uncase, alphanumeric) == Ok(Ngrams(Counts([], map[]), bf))
  {
    if lines != [] {
      var p := lines[..|lines| - 1];
      assert forall j :: 0 <= j < |p| ==> p[j] == lines[j];
      BuildLinesNone(probe, bf, p, gran, n, uncase, alphanumeric);
    }
  }

  // ---------------------------------------------------------------------
  // estimate_overlap_bf

  /** `key in bf` for a filter or a dictionary. */
  predicate Member(probe: Probe, bf: Bf, key: string) {
    match bf
      case NoFilter => false
      case BloomBits(b) => Has(probe, b, key)
      case Dict(d) => key in d.count
  }

  /** How many of `keys` are in `bf`. */
  function Found(probe: Probe, bf: Bf, keys: seq<string>): (r: nat)
    ensures r <= |keys|
  {
    if keys == [] then 0
    else Found(probe, bf, keys[..|keys| - 1]) + (if Member(probe, bf, keys[|keys| - 1]) then 1 else 0)
  }

  /** The counters of `estimate_overlap_bf`. */
  datatype Score = Score(seen: nat, total: nat)

  /** One line: its n-gram keys (lowercased, filtered by granularity, never
      skipped), found or not. */
  function LineKeys(line: string, gran: Gran, n: int): seq<string> {
    LineCount(line, gran, n, true, true).order
  }

  function ScoreLines(probe: Probe, bf: Bf, lines: seq<string>, gran: Gran, n: int): Score {
    if lines == [] then Score(0, 0)
    else
      var sc := ScoreLines(probe, bf, lines[..|lines| - 1], gran, n);
      var keys := LineKeys(lines[|lines| - 1], gran, n);
      Score(sc.seen + Found(probe, bf, keys), sc.total + |keys|)
  }

  /** The lines left after reading `header` lines. */
  function AfterHeader(lines: seq<string>, header: nat): seq<string> {
    if header < |lines| then lines[header..] else []
  }

  /** What `estimate_overlap_bf(bf, file, gran, n, header)` returns: seen /
      total over the lines after the header. */
  function EstimateOverlapBfResult(fs: FileSystem, probe: Probe, bf: Bf, file: string, gran: string, n: int, header: int): Result<real> {
    var g :- ParseGran(gran);
    var lines :- ReadLines(fs, file);
    if header < 0 then Err(UnboundLocalError)
    else
      var rest := AfterHeader(lines, header);
      if bf.NoFilter? && rest != [] then Err(TypeError)
      else
        var sc := ScoreLines(probe, bf, rest, g, n);
        if sc.total == 0 then Err(ZeroDivisionError) else Ok(sc.seen as real / sc.total as real)
  }

  /** At most every key is seen, and every line has at least one key. */
  lemma {:induction false} ScoreBounds(probe: Probe, bf: Bf, lines: seq<string>, gran: Gran, n: int)
    ensures var sc := ScoreLines(probe, bf, lines, gran, n);
      sc.seen <= sc.total && sc.total >= |lines|
  {
    if lines != [] {
      ScoreBounds(probe, bf, lines[..|lines| - 1], gran, n);
      NgramCountNonEmpty(Tokens(lines[|lines| - 1], Word, true, true), FirstWindow(Tokens(lines[|lines| - 1], Word, true, true), n));
      NgramCountNonEmpty(Tokens(lines[|lines| - 1], Char, true, true), FirstWindow(Tokens(lines[|lines| - 1], Char, true, true), n));
    }
  }

  /** A successful score is seen / total over the lines after the header. */
  lemma EstimateOk(fs: FileSystem, probe: Probe, bf: Bf, file: string, gran: string, n: int, header: int)
    requires EstimateOverlapBfResult(fs, probe, bf, file, gran, n, header).Ok?
    ensures ParseGran(gran).Ok? && file in fs && header >= 0
    ensures var sc := ScoreLines(probe, bf, AfterHeader(fs[file].lines, header), ParseGran(gran).value, n);
      sc.total > 0 && EstimateOverlapBfResult(fs, probe, bf, file, gran, n, header).value == sc.seen as real / sc.total as real
  {
  }

  lemma Fraction(seen: nat, total: nat)
    requires seen <= total && total > 0
    ensures 0.0 <= seen as real / total as real <= 1.0
    ensures seen == total ==> seen as real / total as real == 1.0
    ensures seen == 0 ==> seen as real / total as real == 0.0
  {
  }

  /** The overlap is a fraction in [0, 1]. */
  lemma EstimateRange(fs: FileSystem, probe: Probe, bf: Bf, file: string, gran: string, n: int, header: int)
    requires EstimateOverlapBfResult(fs, probe, bf, file, gran, n, header).Ok?
    ensures 0.0 <= EstimateOverlapBfResult(fs, probe, bf, file, gran, n, header).value <= 1.0
  {
    EstimateOk(fs, probe, bf, file, gran, n, header);
    var sc := ScoreLines(probe, bf, AfterHeader(fs[file].lines, header), ParseGran(gran).value, n);
    ScoreBounds(probe, bf, AfterHeader(fs[file].lines, header), ParseGran(gran).value, n);
    Fraction(sc.seen, sc.total);
  }

  /** ZeroDivisionError exactly when no line is left after the header. */
  lemma EstimateZeroDivision(fs: FileSystem, probe: Probe, bf: Bf, file: string, gran: string, n: int, header: nat)
    requires ParseGran(gran).Ok? && file in fs && !bf.NoFilter?
    ensures EstimateOverlapBfResult(fs, probe, bf, file, gran, n, header) == Err(ZeroDivisionError)
        <==> |fs[file].lines| <= header
    ensures EstimateOverlapBfResult(fs, probe, bf, file, gran, n, header).Ok? <==> header < |fs[file].lines|
  {
    var rest := AfterHeader(fs[file].lines, header);
    ScoreBounds(probe, bf, rest, ParseGran(gran).value, n);
  }

  lemma {:induction false} FoundNone(probe: Probe, bf: Bf, keys: seq<string>)
    requires forall i :: 0 <= i < |keys| ==> !Member(probe, bf, keys[i])
    ensures Found(probe, bf, keys) == 0
  {
    if keys != [] {
      FoundNone(probe, bf, keys[..|keys| - 1]);
    }
  }

  lemma {:induction false} FoundAll(probe: Probe, bf: Bf, keys: seq<string>)
    requires forall i :: 0 <= i < |keys| ==> Member(probe, bf, keys[i])
    ensures Found(probe, bf, keys) == |keys|
  {
    if keys != [] {
      FoundAll(probe, bf, keys[..|keys| - 1]);
    }
  }

  lemma {:induction false} ScoreEmpty(probe: Probe, lines: seq<string>, gran: Gran, n: int)
    requires ValidProbe(probe)
    ensures ScoreLines(probe, BloomBits(Empty()), lines, gran, n).seen == 0
  {
    if lines != [] {
      ScoreEmpty(probe, lines[..|lines| - 1], gran, n);
      var keys := LineKeys(lines[|lines| - 1], gran, n);
      forall i | 0 <= i < |keys| ensures !Member(probe, BloomBits(Empty()), keys[i]) {
        EmptyHasNothing(probe, keys[i]);
      }
      FoundNone(probe, BloomBits(Empty()), keys);
    }
  }

  /** Against an empty filter every file scores 0. */
  lemma EstimateEmptyFilter(fs: FileSystem, probe: Probe, file: string, gran: string, n: int, header: int)
    requires ValidProbe(probe)
    requires EstimateOverlapBfResult(fs, probe, BloomBits(Empty()), file, gran, n, header).Ok?
    ensures EstimateOverlapBfResult(fs, probe, BloomBits(Empty()), file, gran, n, header).value == 0.0
  {
    EstimateOk(fs, probe, BloomBits(Empty()), file, gran, n, header);
    var rest := AfterHeader(fs[file].lines, header);
    var g := ParseGran(gran).value;
    ScoreEmpty(probe, rest, g, n);
    ScoreBounds(probe, BloomBits(Empty()), rest, g, n);
    var sc := ScoreLines(probe, BloomBits(Empty()), rest, g, n);
    Fraction(sc.seen, sc.total);
  }

  /** Every key of every line found: seen == total. */
  lemma {:induction false} ScoreAllFound(probe: Probe, bf: Bf, lines: seq<string>, gran: Gran, n: int)
    requires forall j, i :: 0 <= j < |lines| && 0 <= i < |LineKeys(lines[j], gran, n)| ==> Member(probe, bf, LineKeys(lines[j], gran, n)[i])
    ensures ScoreLines(probe, bf, lines, gran, n).seen == ScoreLines(probe, bf, lines, gran, n).total
  {
    if lines != [] {
      var p := lines[..|lines| - 1];
      assert forall j :: 0 <= j < |p| ==> p[j] == lines[j];
      ScoreAllFound(probe, bf, p, gran, n);
      FoundAll(probe, bf, LineKeys(lines[|lines| - 1], gran, n));
    }
  }

  /** Scoring a file against the filter built from it (any filter to start
      with, the same granularity and n, `uncase` and `alphanumeric` set)
      gives 1 when no line after the header is blank. */
  lemma SelfOverlap(fs: FileSystem, probe: Probe, b: Bits, file: string, gran: string, n: int, header: nat)
    requires ValidProbe(probe) && ZeroIsEmpty(b)
    requires file in fs && ParseGran(gran).Ok? && header < |fs[file].lines|
    requires forall j :: header <= j < |fs[file].lines| ==> Processed(fs[file].lines[j])
    ensures var built := BuildNgramResult(fs, probe, file, BloomBits(b), gran, n, true, true);
      built.Ok? && EstimateOverlapBfResult(fs, probe, built.value, file, gran, n, header) == Ok(1.0)
  {
    var lines := fs[file].lines;
    var g := ParseGran(gran).value;
    BuildLinesFilter(probe, b, lines, g, n, true, true);
    assert Processed(lines[header]);
    var built := BuildNgramResult(fs, probe, file, BloomBits(b), gran, n, true, true).value;
    var rest := lines[header..];
    forall j, i | 0 <= j < |rest| && 0 <= i < |LineKeys(rest[j], g, n)|
      ensures Member(probe, built, LineKeys(rest[j], g, n)[i])
    {
      assert rest[j] == lines[header + j];
    }
    ScoreAllFound(probe, built, rest, g, n);
    ScoreBounds(probe, built, rest, g, n);
    var sc := ScoreLines(probe, built, rest, g, n);
    Fraction(sc.seen, sc.total);
    assert EstimateOverlapBfResult(fs, probe, built, file, gran, n, header) == Ok(sc.seen as real / sc.total as real);
  }

  // ---------------------------------------------------------------------
  // estimate_overlap

  /** A file argument: one path (a `str`) or a list of paths. */
  datatype Paths = OnePath(path: string) | PathList(paths: seq<string>)

  /** `if isinstance(files, str): files = [files]`. */
  function AsList(p: Paths): (r: seq<string>)
    ensures p.OnePath? ==> r == [p.path]
    ensures p.PathList? ==> r == p.paths
  {
    match p
      case OnePath(path) => [path]
      case PathList(paths) => paths
  }

  /** `bf = build_ngram(file=source, bf=bf, gran=gran, n=n, uncase=True,
      alphanumeric=True)` for each source in turn. */
  function BuildAll(fs: FileSystem, probe: Probe, bf: Bf, sources: seq<string>, gran: string, n: int): Result<Bf> {
    if sources == [] then Ok(bf)
    else
      var prev :- BuildAll(fs, probe, bf, sources[..|sources| - 1], gran, n);
      BuildNgramResult(fs, probe, sources[|sources| - 1], prev, gran, n, true, true)
  }

  /** Each target scored in turn by `score`; the first error ends the loop. */
  function ScoreEach(score: string -> Result<real>, targets: seq<string>): Result<seq<real>> {
    if targets == [] then Ok([])
    else
      var rs :- ScoreEach(score, targets[..|targets| - 1]);
      var r :- score(targets[|targets| - 1]);
      Ok(rs + [r])
  }

  /** How `estimate_overlap` scores a target: against `bf`, with n = 8. */
  function Scorer(fs: FileSystem, probe: Probe, bf: Bf, gran: string, header: int): string -> Result<real> {
    t => EstimateOverlapBfResult(fs, probe, bf, t, gran, 8, header)
  }

  /** Each target scored in order with n = 8. */
  function ScoreAll(fs: FileSystem, probe: Probe, bf: Bf, targets: seq<string>, gran: string, header: int): Result<seq<real>> {
    ScoreEach(Scorer(fs, probe, bf, gran, header), targets)
  }

  /** What `estimate_overlap(sources, targets, gran, n, header=header)`
      returns; `probe` stands for the filter that `capacity` and
      `error_rate` make. */
  function EstimateOverlapResult(fs: FileSystem, probe: Probe, sources: Paths, targets: Paths, gran: string, n: int, header: int): Result<seq<real>> {
    var _ :- ParseGran(gran);
    var bf :- BuildAll(fs, probe, BloomBits(Empty()), AsList(sources), gran, n);
    ScoreAll(fs, probe, bf, AsList(targets), gran, header)
  }

  /** A `gran` other than 'word' or 'char' raises ValueError before any file
      is opened, whatever the files. */
  lemma GranChecked(fs: FileSystem, probe: Probe, gran: string, n: int, header: int, file: string, bf: Bf, sources: Paths, targets: Paths, uncase: bool, alphanumeric: bool)
    requires gran != "word" && gran != "char"
    ensures BuildNgramResult(fs, probe, file, bf, gran, n, uncase, alphanumeric) == Err(ValueError("gran has to be 'word' or 'char'"))
    ensures EstimateOverlapBfResult(fs, probe, bf, file, gran, n, header) == Err(ValueError("gran has to be 'word' or 'char'"))
    ensures EstimateOverlapResult(fs, probe, sources, targets, gran, n, header) == Err(ValueError("gran has to be 'word' or 'char'"))
  {
  }

  /** One score per target, each what `score` gives that target. */
  lemma {:induction false} ScoreEachSpec(score: string -> Result<real>, targets: seq<string>, i: nat)
    requires ScoreEach(score, targets).Ok?
    ensures |ScoreEach(score, targets).value| == |targets|
    ensures i < |targets| ==> score(targets[i]) == Ok(ScoreEach(score, targets).value[i])
  {
    if targets != [] {
      var p := targets[..|targets| - 1];
      ScoreEachSpec(score, p, i);
      if i < |p| {
        assert p[i] == targets[i];
      }
    }
  }

  /** One score per target, each the score of that target against the
      filter of all sources with n = 8, whatever n the sources used. */
  lemma ScoreAllSpec(fs: FileSystem, probe: Probe, bf: Bf, targets: seq<string>, gran: string, header: int, i: nat)
    requires ScoreAll(fs, probe, bf, targets, gran, header).Ok?
    ensures |ScoreAll(fs, probe, bf, targets, gran, header).value| == |targets|
    ensures i < |targets| ==>
      EstimateOverlapBfResult(fs, probe, bf, targets[i], gran, 8, header) == Ok(ScoreAll(fs, probe, bf, targets, gran, header).value[i])
  {
    ScoreEachSpec(Scorer(fs, probe, bf, gran, header), targets, i);
  }

  lemma HasGrows(probe: Probe, a: Bits, b: Bits, key: string)
    requires Has(probe, a, key) && a.on <= b.on
    ensures Has(probe, b, key)
  {
  }

  /** `build_ngram` never returns None: a false `bf` is replaced by the
      count dictionary. */
  lemma BuildNgramNotNone(fs: FileSystem, probe: Probe, file: string, bf: Bf, gran: string, n: int, uncase: bool, alphanumeric: bool)
    requires BuildNgramResult(fs, probe, file, bf, gran, n, uncase, alphanumeric).Ok?
    ensures !BuildNgramResult(fs, probe, file, bf, gran, n, uncase, alphanumeric).value.NoFilter?
  {
  }

  /** A filter that comes out of `build_ngram` was a filter going in. */
  lemma BuildNgramKeepsKind(fs: FileSystem, probe: Probe, file: string, bf: Bf, gran: string, n: int)
    requires BuildNgramResult(fs, probe, file, bf, gran, n, true, true).Ok?
    requires BuildNgramResult(fs, probe, file, bf, gran, n, true, true).value.BloomBits?
    ensures bf.BloomBits?
  {
    var lines := fs[file].lines;
    var g := ParseGran(gran).value;
    if bf.Dict? {
      BuildLinesDict(probe, bf.counts, lines, g, n, true, true);
    } else if bf.NoFilter? {
      BuildLinesNoFilter(probe, lines, g, n, true, true);
    }
  }

  lemma {:induction false} BuildLinesNoFilter(probe: Probe, lines: seq<string>, gran: Gran, n: int, uncase: bool, alphanumeric: bool)
    ensures var r := BuildLines(probe, NoFilter, lines, gran, n, uncase, alphanumeric);
      r.Ok? && r.value.bf == NoFilter
  {
    if lines != [] {
      BuildLinesNoFilter(probe, lines[..|lines| - 1], gran, n, uncase, alphanumeric);
    }
  }

  lemma BuildAllStep(fs: FileSystem, probe: Probe, bf: Bf, sources: seq<string>, gran: string, n: int)
    requires BuildAll(fs, probe, bf, sources, gran, n).Ok? && sources != []
    ensures var prev := BuildAll(fs, probe, bf, sources[..|sources| - 1], gran, n);
      && prev.Ok?
      && BuildAll(fs, probe, bf, sources, gran, n) == BuildNgramResult(fs, probe, sources[|sources| - 1], prev.value, gran, n, true, true)
  {
  }

  /** `key` is a key of some line of `lines` that `build_ngram` processes. */
  predicate KeyOfLines(lines: seq<string>, key: string, gran: Gran, n: int) {
    exists j :: 0 <= j < |lines| && Processed(lines[j]) && key in LineKeys(lines[j], gran, n)
  }

  /** `build_ngram` on a filter that stays a filter: it only grows, and holds
      every key of every non-blank line of the file. */
  lemma BuildNgramHas(fs: FileSystem, probe: Probe, file: string, b: Bits, gran: string, n: int, key: string)
    requires ValidProbe(probe) && ZeroIsEmpty(b) && ParseGran(gran).Ok?
    requires BuildNgramResult(fs, probe, file, BloomBits(b), gran, n, true, true).Ok?
    requires BuildNgramResult(fs, probe, file, BloomBits(b), gran, n, true, true).value.BloomBits?
    ensures var f := BuildNgramResult(fs, probe, file, BloomBits(b), gran, n, true, true).value.bits;
      && b.on <= f.on && ZeroIsEmpty(f)
      && (KeyOfLines(fs[file].lines, key, ParseGran(gran).value, n) ==> Has(probe, f, key))
  {
    var g := ParseGran(gran).value;
    var lines := fs[file].lines;
    BuildLinesFilter(probe, b, lines, g, n, true, true);
    if KeyOfLines(lines, key, g, n) {
      var j :| 0 <= j < |lines| && Processed(lines[j]) && key in LineKeys(lines[j], g, n);
      var i :| 0 <= i < |LineKeys(lines[j], g, n)| && LineKeys(lines[j], g, n)[i] == key;
    }
  }

  /** The last source, built while `bf` is a filter, was built on a filter. */
  lemma BuildAllStepBits(fs: FileSystem, probe: Probe, b: Bits, sources: seq<string>, gran: string, n: int)
    requires sources != []
    requires BuildAll(fs, probe, BloomBits(b), sources, gran, n).Ok?
    requires BuildAll(fs, probe, BloomBits(b), sources, gran, n).value.BloomBits?
    ensures var prev := BuildAll(fs, probe, BloomBits(b), sources[..|sources| - 1], gran, n);
      && prev.Ok? && prev.value.BloomBits?
      && BuildAll(fs, probe, BloomBits(b), sources, gran, n)
        == BuildNgramResult(fs, probe, sources[|sources| - 1], BloomBits(prev.value.bits), gran, n, true, true)
  {
    BuildAllStep(fs, probe, BloomBits(b), sources, gran, n);
    var prev := BuildAll(fs, probe, BloomBits(b), sources[..|sources| - 1], gran, n);
    BuildNgramKeepsKind(fs, probe, sources[|sources| - 1], prev.value, gran, n);
  }

  /** When the sources leave a filter, it contains every key of every
      non-blank line of every source. */
  lemma {:induction false} BuildAllHas(fs: FileSystem, probe: Probe, b: Bits, sources: seq<string>, gran: string, n: int, k: nat, key: string)
    requires ValidProbe(probe) && ZeroIsEmpty(b) && ParseGran(gran).Ok?
    requires BuildAll(fs, probe, BloomBits(b), sources, gran, n).Ok?
    requires BuildAll(fs, probe, BloomBits(b), sources, gran, n).value.BloomBits?
    ensures var f := BuildAll(fs, probe, BloomBits(b), sources, gran, n).value.bits;
      && ZeroIsEmpty(f)
      && (k < |sources| && sources[k] in fs && KeyOfLines(fs[sources[k]].lines, key, ParseGran(gran).value, n) ==> Has(probe, f, key))
  {
    if sources != [] {
      var g := ParseGran(gran).value;
      var p := sources[..|sources| - 1];
      var file := sources[|sources| - 1];
      BuildAllStepBits(fs, probe, b, sources, gran, n);
      var bp := BuildAll(fs, probe, BloomBits(b), p, gran, n).value.bits;
      var f := BuildAll(fs, probe, BloomBits(b), sources, gran, n).value.bits;
      BuildAllHas(fs, probe, b, p, gran, n, k, key);
      BuildNgramHas(fs, probe, file, bp, gran, n, key);
      if k < |p| {
        assert sources[k] == p[k];
        if Has(probe, bp, key) {
          HasGrows(probe, bp, f, key);
        }
      }
    }
  }

  /** A file all of whose keys after the header are in `bf`, and none of
      whose lines after the header is blank, scores 1. */
  lemma ScoreOne(fs: FileSystem, probe: Probe, bf: Bf, file: string, gran: string, n: int, header: nat)
    requires ParseGran(gran).Ok? && file in fs && !bf.NoFilter? && header < |fs[file].lines|
    requires forall j :: header <= j < |fs[file].lines| ==> Processed(fs[file].lines[j])
    requires forall key :: KeyOfLines(fs[file].lines, key, ParseGran(gran).value, n) ==> Member(probe, bf, key)
    ensures EstimateOverlapBfResult(fs, probe, bf, file, gran, n, header) == Ok(1.0)
  {
    var g := ParseGran(gran).value;
    var lines := fs[file].lines;
    var rest := lines[header..];
    forall j, i | 0 <= j < |rest| && 0 <= i < |LineKeys(rest[j], g, n)|
      ensures Member(probe, bf, LineKeys(rest[j], g, n)[i])
    {
      assert rest[j] == lines[header + j];
      assert KeyOfLines(lines, LineKeys(rest[j], g, n)[i], g, n);
    }
    ScoreAllFound(probe, bf, rest, g, n);
    ScoreBounds(probe, bf, rest, g, n);
    var sc := ScoreLines(probe, bf, rest, g, n);
    Fraction(sc.seen, sc.total);
  }

  /** A target that is also a source, scored with the same n (8), gives 1
      when the sources leave a filter and no line of the target after the
      header is blank. */
  lemma EstimateOverlapSelf(fs: FileSystem, probe: Probe, sources: Paths, targets: Paths, gran: string, header: nat, k: nat, i: nat)
    requires ValidProbe(probe)
    requires EstimateOverlapResult(fs, probe, sources, targets, gran, 8, header).Ok?
    requires BuildAll(fs, probe, BloomBits(Empty()), AsList(sources), gran, 8).value.BloomBits?
    requires k < |AsList(sources)| && i < |AsList(targets)| && AsList(targets)[i] == AsList(sources)[k]
    requires AsList(sources)[k] in fs && header < |fs[AsList(sources)[k]].lines|
    requires forall j :: header <= j < |fs[AsList(sources)[k]].lines| ==> Processed(fs[AsList(sources)[k]].lines[j])
    ensures var rs := EstimateOverlapResult(fs, probe, sources, targets, gran, 8, header).value;
      |rs| == |AsList(targets)| && rs[i] == 1.0
  {
    var g := ParseGran(gran).value;
    var srcs := AsList(sources);
    var bf := BuildAll(fs, probe, BloomBits(Empty()), srcs, gran, 8).value;
    var file := srcs[k];
    assert EstimateOverlapResult(fs, probe, sources, targets, gran, 8, header) == ScoreAll(fs, probe, bf, AsList(targets), gran, header);
    ScoreAllSpec(fs, probe, bf, AsList(targets), gran, header, i);
    forall key | KeyOfLines(fs[file].lines, key, g, 8) ensures Member(probe, bf, key) {
      BuildAllHas(fs, probe, Empty(), srcs, gran, 8, k, key);
    }
    ScoreOne(fs, probe, bf, file, gran, 8, header);
  }

  // ---------------------------------------------------------------------
  // The loops

  /** The normalisation statements of the readline loops, on a stripped
      line, ending with `line.split()`. */
  method Tokenize(s: string, gran: Gran, uncase: bool, alphanumeric: bool) returns (tokens: seq<string>)
    ensures tokens == Split(Cleaned(s, gran, uncase, alphanumeric))
  {
    var line := s;
    if uncase {
      line := Lower(line);
    }
    if gran == Word {
      if alphanumeric {
        line := RemoveNonAlphanumeric(line);
      }
    } else {
      line := RemoveNonAlpha(line);
    }
    line := CollapseWhiteSpaces(line);
    tokens := Split(line);
  }

  /** What `bf` is bound to in the Python code: `None`, a filter object, or
      a dictionary. */
  datatype BfArg = NoneArg | FilterArg(f: BloomFilter) | DictArg(d: Counts)

  /** The value of `bf` in the current state. */
  function Abs(a: BfArg): Bf
    reads if a.FilterArg? then {a.f} else {}
  {
    match a
      case NoneArg => NoFilter
      case FilterArg(f) => BloomBits(f.State())
      case DictArg(d) => Dict(d)
  }

  /** `for key in keys: bf.add(key)`. */
  method AddAll(f: BloomFilter, keys: seq<string>)
    requires f.Valid()
    modifies f
    ensures f.Valid()
    ensures f.State() == InsertAll(f.probe, old(f.State()), keys)
    ensures f.inserted == old(f.inserted) + set k | k in keys
  {
    for i := 0 to |keys|
      invariant f.Valid()
      invariant f.State() == InsertAll(f.probe, old(f.State()), keys[..i])
      invariant f.inserted == old(f.inserted) + set k | k in keys[..i]
    {
      assert keys[..i + 1][..i] == keys[..i];
      assert keys[..i + 1] == keys[..i] + [keys[i]];
      var _ := f.Add(keys[i]);
    }
    assert keys[..|keys|] == keys;
  }

  /** The body of the readline loop of `build_ngram`: strip the line and,
      when something is left, count its n-grams into `count` and add them
      to `bf`. A dictionary has no `add`. */
  method BuildLine(bf: BfArg, count: Counts, line: string, g: Gran, n: int, uncase: bool, alphanumeric: bool, ghost probe: Probe)
    returns (r: Result<Counts>)
    requires bf.FilterArg? ==> bf.f.Valid() && bf.f.probe == probe
    modifies if bf.FilterArg? then {bf.f} else {}
    ensures bf.FilterArg? ==> bf.f.Valid()
    ensures var spec := StepLine(probe, Ngrams(count, old(Abs(bf))), line, g, n, uncase, alphanumeric);
      && (r.Err? ==> spec == Err(r.error))
      && (r.Ok? ==> spec == Ok(Ngrams(r.value, Abs(bf))))
  {
    var stripped := Strip(line);
    if stripped == "" {
      return Ok(count);
    }
    var tokens := Tokenize(stripped, g, uncase, alphanumeric);
    var lineCount := BuildNgramFromTokens(tokens, n);
    match bf {
      case NoneArg =>
      case FilterArg(f) =>
        AddAll(f, lineCount.order);
      case DictArg(_) =>
        return Err(AttributeError);
    }
    r := Ok(Update(count, lineCount));
  }

  /** The readline loop of `build_ngram` over the lines of the file. */
  method BuildAllLines(bf: BfArg, lines: seq<string>, g: Gran, n: int, uncase: bool, alphanumeric: bool, ghost probe: Probe)
    returns (r: Result<Counts>)
    requires bf.FilterArg? ==> bf.f.Valid() && bf.f.probe == probe
    modifies if bf.FilterArg? then {bf.f} else {}
    ensures bf.FilterArg? ==> bf.f.Valid()
    ensures var spec := BuildLines(probe, old(Abs(bf)), lines, g, n, uncase, alphanumeric);
      && (r.Err? ==> spec == Err(r.error))
      && (r.Ok? ==> spec == Ok(Ngrams(r.value, Abs(bf))))
  {
    var count := Counts([], map[]);
    var i := 0;
    while i < |lines|
      invariant i <= |lines|
      invariant bf.FilterArg? ==> bf.f.Valid() && bf.f.probe == probe
      invariant BuildLines(probe, old(Abs(bf)), lines[..i], g, n, uncase, alphanumeric) == Ok(Ngrams(count, Abs(bf)))
    {
      BuildLinesStepLine(probe, old(Abs(bf)), lines[..i], lines[i], g, n, uncase, alphanumeric);
      assert lines[..i + 1] == lines[..i] + [lines[i]];
      var next := BuildLine(bf, count, lines[i], g, n, uncase, alphanumeric, probe);
      if next.Err? {
        BuildLinesErr(probe, old(Abs(bf)), lines, i + 1, g, n, uncase, alphanumeric);
        return Err(next.error);
      }
      count := next.value;
      i := i + 1;
    }
    assert lines[..i] == lines;
    r := Ok(count);
  }

  /** `build_ngram(file, bf=bf, gran=gran, n=n, uncase=.., alphanumeric=..)`:
      the readline loop, then `bf` if it is true, else `count`. A filter
      object is updated in place and returned itself. */
  method BuildNgram(fs: FileSystem, file: string, bf: BfArg, gran: string, n: int, uncase: bool, alphanumeric: bool, ghost probe: Probe)
    returns (r: Result<BfArg>)
    requires bf.FilterArg? ==> bf.f.Valid() && bf.f.probe == probe
    modifies if bf.FilterArg? then {bf.f} else {}
    ensures bf.FilterArg? ==> bf.f.Valid()
    ensures var spec := BuildNgramResult(fs, probe, file, old(Abs(bf)), gran, n, uncase, alphanumeric);
      && r.Ok? == spec.Ok?
      && (r.Err? ==> r.error == spec.error)
      && (r.Ok? ==> Abs(r.value) == spec.value && (r.value.FilterArg? ==> r.value == bf))
  {
    var g :- ParseGran(gran);
    if file !in fs {
      return Err(FileNotFoundError(file));
    }
    var count :- BuildAllLines(bf, fs[file].lines, g, n, uncase, alphanumeric, probe);
    if Truthy(Abs(bf)) {
      r := Ok(bf);
    } else {
      r := Ok(DictArg(count));
    }
  }

  /** `for key in line_count: if key in bf: seen += 1; total += 1`. */
  method ScoreKeys(bf: BfArg, keys: seq<string>, seen0: nat, total0: nat, ghost probe: Probe) returns (seen: nat, total: nat)
    requires !bf.NoneArg?
    requires bf.FilterArg? ==> bf.f.probe == probe
    ensures seen == seen0 + Found(probe, Abs(bf), keys)
    ensures total == total0 + |keys|
  {
    seen, total := seen0, total0;
    for i := 0 to |keys|
      invariant seen == seen0 + Found(probe, Abs(bf), keys[..i])
      invariant total == total0 + i
    {
      assert keys[..i + 1][..i] == keys[..i];
      var found := match bf
        case FilterArg(f) => f.Contains(keys[i])
        case DictArg(d) => keys[i] in d.count;
      if found {
        seen := seen + 1;
      }
      total := total + 1;
    }
    assert keys[..|keys|] == keys;
  }

  lemma ScoreLinesStep(probe: Probe, bf: Bf, lines: seq<string>, line: string, gran: Gran, n: int)
    ensures var sc := ScoreLines(probe, bf, lines, gran, n);
      var keys := LineKeys(line, gran, n);
      ScoreLines(probe, bf, lines + [line], gran, n) == Score(sc.seen + Found(probe, bf, keys), sc.total + |keys|)
  {
    SnocParts(lines, line);
  }

  lemma LineKeysTokens(line: string, gran: Gran, n: int)
    ensures var tokens := Split(Cleaned(Strip(line), gran, true, true));
      LineKeys(line, gran, n) == NgramCount(tokens, FirstWindow(tokens, n)).order
  {
  }

  /** The result of `estimate_overlap_bf` once the checks before the
      readline loop have passed. */
  lemma EstimateCases(fs: FileSystem, probe: Probe, bf: Bf, file: string, gran: string, n: int, header: int)
    requires ParseGran(gran).Ok? && file in fs && 0 <= header
    ensures var lines := fs[file].lines;
      var sc := ScoreLines(probe, bf, AfterHeader(lines, header), ParseGran(gran).value, n);
      EstimateOverlapBfResult(fs, probe, bf, file, gran, n, header)
        == if |lines| <= header then Err(ZeroDivisionError)
           else if bf.NoFilter? then Err(TypeError)
           else if sc.total == 0 then Err(ZeroDivisionError)
           else Ok(sc.seen as real / sc.total as real)
  {
  }

  /** The keys of `build_ngram_from_tokens` on a line stripped, lowercased,
      filtered by granularity and collapsed. */
  method ScoredKeys(line: string, g: Gran, n: int) returns (keys: seq<string>)
    ensures keys == LineKeys(line, g, n)
  {
    var tokens := Tokenize(Strip(line), g, true, true);
    var lineCount := BuildNgramFromTokens(tokens, n);
    LineKeysTokens(line, g, n);
    keys := lineCount.order;
  }

  /** One iteration of the readline loop of `estimate_overlap_bf`. */
  method ScoreLine(bf: BfArg, line: string, seen0: nat, total0: nat, g: Gran, n: int, ghost done: seq<string>, ghost probe: Probe)
    returns (seen: nat, total: nat)
    requires !bf.NoneArg?
    requires bf.FilterArg? ==> bf.f.probe == probe
    requires Score(seen0, total0) == ScoreLines(probe, Abs(bf), done, g, n)
    ensures Score(seen, total) == ScoreLines(probe, Abs(bf), done + [line], g, n)
  {
    ScoreLinesStep(probe, Abs(bf), done, line, g, n);
    var keys := ScoredKeys(line, g, n);
    seen, total := ScoreKeys(bf, keys, seen0, total0, probe);
  }

  /** The readline loop of `estimate_overlap_bf` over the lines after the
      header. */
  method ScoreRest(bf: BfArg, rest: seq<string>, g: Gran, n: int, ghost probe: Probe) returns (seen: nat, total: nat)
    requires !bf.NoneArg?
    requires bf.FilterArg? ==> bf.f.probe == probe
    ensures Score(seen, total) == ScoreLines(probe, Abs(bf), rest, g, n)
  {
    seen, total := 0, 0;
    for k := 0 to |rest|
      invariant Score(seen, total) == ScoreLines(probe, Abs(bf), rest[..k], g, n)
    {
      PrefixSnoc(rest, k);
      seen, total := ScoreLine(bf, rest[k], seen, total, g, n, rest[..k], probe);
    }
    assert rest[..|rest|] == rest;
  }

  /** `estimate_overlap_bf(bf, target_file, gran, n, header)`: skip the
      header lines, then score every remaining line against `bf`. */
  method EstimateOverlapBf(fs: FileSystem, bf: BfArg, file: string, gran: string, n: int, header: int, ghost probe: Probe)
    returns (r: Result<real>)
    requires bf.FilterArg? ==> bf.f.probe == probe
    ensures r == EstimateOverlapBfResult(fs, probe, Abs(bf), file, gran, n, header)
  {
    var parsed := ParseGran(gran);
    if parsed.Err? {
      return Err(parsed.error);
    }
    var g := parsed.value;
    if file !in fs {
      return Err(FileNotFoundError(file));
    }
    var lines := fs[file].lines;
    if header < 0 {
      // `range(header + 1)` is empty and `line` is never bound
      return Err(UnboundLocalError);
    }
    ghost var bfv := Abs(bf);
    EstimateCases(fs, probe, bfv, file, gran, n, header);
    if |lines| <= header {
      // the last readline of the header loop returns '': seen / total is 0 / 0
      return Err(ZeroDivisionError);
    }
    if bf.NoneArg? {
      // `key in None` on the first key of the first line
      return Err(TypeError);
    }
    // the header + 1 readline calls leave line `header` in hand; the
    // while loop reads the rest
    var rest := lines[header..];
    assert rest == AfterHeader(lines, header);
    var seen, total := ScoreRest(bf, rest, g, n, probe);
    if total == 0 {
      return Err(ZeroDivisionError);
    }
    r := Ok(seen as real / total as real);
  }

  /** An error while building ends `estimate_overlap`'s source loop. */
  lemma {:induction false} BuildAllErr(fs: FileSystem, probe: Probe, bf: Bf, sources: seq<string>, i: nat, gran: string, n: int)
    requires i <= |sources|
    requires BuildAll(fs, probe, bf, sources[..i], gran, n).Err?
    ensures BuildAll(fs, probe, bf, sources, gran, n) == BuildAll(fs, probe, bf, sources[..i], gran, n)
    decreases |sources|
  {
    if i < |sources| {
      var p := sources[..|sources| - 1];
      assert p[..i] == sources[..i];
      BuildAllErr(fs, probe, bf, p, i, gran, n);
    } else {
      assert sources[..i] == sources;
    }
  }

  /** An error while scoring ends `estimate_overlap`'s target loop. */
  lemma {:induction false} ScoreEachErr(score: string -> Result<real>, targets: seq<string>, i: nat)
    requires i <= |targets|
    requires ScoreEach(score, targets[..i]).Err?
    ensures ScoreEach(score, targets) == ScoreEach(score, targets[..i])
    decreases |targets|
  {
    if i < |targets| {
      var p := targets[..|targets| - 1];
      assert p[..i] == targets[..i];
      ScoreEachErr(score, p, i);
    } else {
      assert targets[..i] == targets;
    }
  }

  lemma EstimateOverlapCases(fs: FileSystem, probe: Probe, sources: Paths, targets: Paths, gran: string, n: int, header: int)
    requires ParseGran(gran).Ok?
    ensures var built := BuildAll(fs, probe, BloomBits(Empty()), AsList(sources), gran, n);
      EstimateOverlapResult(fs, probe, sources, targets, gran, n, header)
        == if built.Err? then Err(built.error) else ScoreAll(fs, probe, built.value, AsList(targets), gran, header)
  {
  }

  /** The source loop of `estimate_overlap`. A filter passed in is
      updated in place. */
  method BuildSources(fs: FileSystem, sources: seq<string>, bf0: BfArg, gran: string, n: int, ghost probe: Probe)
    returns (r: Result<BfArg>)
    requires bf0.FilterArg? ==> bf0.f.Valid() && bf0.f.probe == probe
    modifies if bf0.FilterArg? then {bf0.f} else {}
    ensures bf0.FilterArg? ==> bf0.f.Valid()
    ensures var spec := BuildAll(fs, probe, old(Abs(bf0)), sources, gran, n);
      && r.Ok? == spec.Ok?
      && (r.Err? ==> r.error == spec.error)
      && (r.Ok? ==> Abs(r.value) == spec.value && (r.value.FilterArg? ==> r.value == bf0))
  {
    var bf := bf0;
    for i := 0 to |sources|
      invariant bf0.FilterArg? ==> bf0.f.Valid() && bf0.f.probe == probe
      invariant bf.FilterArg? ==> bf == bf0
      invariant BuildAll(fs, probe, old(Abs(bf0)), sources[..i], gran, n) == Ok(Abs(bf))
    {
      assert sources[..i + 1][..i] == sources[..i];
      var next := BuildNgram(fs, sources[i], bf, gran, n, true, true, probe);
      if next.Err? {
        BuildAllErr(fs, probe, old(Abs(bf0)), sources, i + 1, gran, n);
        return Err(next.error);
      }
      bf := next.value;
    }
    assert sources[..|sources|] == sources;
    r := Ok(bf);
  }

  lemma ScoreEachSnoc(score: string -> Result<real>, targets: seq<string>, target: string)
    requires ScoreEach(score, targets).Ok?
    ensures ScoreEach(score, targets + [target])
      == if score(target).Err? then Err(score(target).error) else Ok(ScoreEach(score, targets).value + [score(target).value])
  {
    SnocParts(targets, target);
  }

  /** The target loop of `estimate_overlap`. */
  method ScoreTargets(fs: FileSystem, bf: BfArg, targets: seq<string>, gran: string, header: int, ghost probe: Probe)
    returns (r: Result<seq<real>>)
    requires bf.FilterArg? ==> bf.f.probe == probe
    ensures r == ScoreAll(fs, probe, Abs(bf), targets, gran, header)
  {
    var results := [];
    for i := 0 to |targets|
      invariant ScoreAll(fs, probe, Abs(bf), targets[..i], gran, header) == Ok(results)
    {
      ScoreEachSnoc(Scorer(fs, probe, Abs(bf), gran, header), targets[..i], targets[i]);
      PrefixSnoc(targets, i);
      var score := EstimateOverlapBf(fs, bf, targets[i], gran, 8, header, probe);
      if score.Err? {
        ScoreEachErr(Scorer(fs, probe, Abs(bf), gran, header), targets, i + 1);
        return Err(score.error);
      }
      results := results + [score.value];
    }
    assert targets[..|targets|] == targets;
    r := Ok(results);
  }

  /** `estimate_overlap(source_files, target_files, gran, n, header=header)`:
      one fresh filter built from every source, then every target scored
      against it with n = 8. */
  method EstimateOverlap(fs: FileSystem, sources: Paths, targets: Paths, gran: string, n: int, header: int, probe: Probe)
    returns (r: Result<seq<real>>)
    requires ValidProbe(probe)
    ensures r == EstimateOverlapResult(fs, probe, sources, targets, gran, n, header)
  {
    var parsed := ParseGran(gran);
    if parsed.Err? {
      return Err(parsed.error);
    }
    EstimateOverlapCases(fs, probe, sources, targets, gran, n, header);
    var f := new BloomFilter(probe);
    var built := BuildSources(fs, AsList(sources), FilterArg(f), gran, n, probe);
    if built.Err? {
      return Err(built.error);
    }
    r := ScoreTargets(fs, built.value, AsList(targets), gran, header, probe);
  }
}
