/** lazynlp/utils.py: number and initial recognition, path and URL slicing,
    and the sorting helpers. */
module Utils {
  import opened Common
  import opened Text
  import opened Sorting

  // ---------------------------------------------------------------------
  // String order (Python's `<` on str: code point by code point)

  predicate StrLess(a: string, b: string) {
    if a == [] then b != []
    else if b == [] then false
    else if a[0] != b[0] then a[0] < b[0]
    else StrLess(a[1..], b[1..])
  }

  lemma {:induction false} StrLessIrreflexive(a: string)
    ensures !StrLess(a, a)
  {
    if a != [] { StrLessIrreflexive(a[1..]); }
  }

  lemma {:induction false} StrLessTransitive(a: string, b: string, c: string)
    requires StrLess(a, b) && StrLess(b, c)
    ensures StrLess(a, c)
  {
    if a != [] && b != [] && c != [] && a[0] == b[0] && b[0] == c[0] {
      StrLessTransitive(a[1..], b[1..], c[1..]);
    }
  }

  lemma {:induction false} StrLessTrichotomy(a: string, b: string)
    ensures a == b || StrLess(a, b) || StrLess(b, a)
  {
    if a != [] && b != [] && a[0] == b[0] {
      StrLessTrichotomy(a[1..], b[1..]);
      if a[1..] == b[1..] {
        assert a == [a[0]] + a[1..] && b == [b[0]] + b[1..];
      }
    }
  }

  /** Python's ordering of strings is a strict total order. */
  lemma StrLessTotal()
    ensures StrictTotalOrder(StrLess)
  {
    forall x | true ensures !StrLess(x, x) { StrLessIrreflexive(x); }
    forall x, y, z | StrLess(x, y) && StrLess(y, z) ensures StrLess(x, z) {
      StrLessTransitive(x, y, z);
    }
    forall x, y | Equivalent(StrLess, x, y) ensures x == y { StrLessTrichotomy(x, y); }
  }

  // ---------------------------------------------------------------------
  // is_initial

  /** One or more repetitions of a lower-case letter followed by '.'. */
  predicate LetterDots(s: string) {
    |s| > 0 && |s| % 2 == 0
    && forall i :: 0 <= i < |s| ==> if i % 2 == 0 then IsLower(s[i]) else s[i] == '.'
  }

  /** `re.match(r"^([a-z]\.)+?$", token.lower())`: `$` also matches just
      before one final '\n'. */
  predicate IsInitial(token: string) {
    var s := Lower(token);
    LetterDots(s) || (|s| > 0 && s[|s| - 1] == '\n' && LetterDots(s[..|s| - 1]))
  }

  lemma {:induction false} LowerIdempotent(s: string)
    ensures Lower(Lower(s)) == Lower(s)
  {
  }

  /** Recognition ignores case and needs at least "x.". */
  lemma IsInitialCaseInsensitive(token: string)
    ensures IsInitial(token) <==> IsInitial(Lower(token))
    ensures IsInitial(token) ==> |token| >= 2
  {
    LowerIdempotent(token);
  }

  lemma IsInitialAccepts()
    ensures IsInitial("J.") && IsInitial("j.R.r.") && IsInitial("a.\n")
  {
    assert Lower("J.") == "j.";
    assert Lower("j.R.r.") == "j.r.r.";
    assert Lower("a.\n") == "a.\n" && "a.\n"[..2] == "a.";
  }

  lemma IsInitialRejects()
    ensures !IsInitial("") && !IsInitial("ab") && !IsInitial("a.b") && !IsInitial(".")
  {
    assert Lower("ab") == "ab" && "ab"[1] != '.' && "ab"[..1] == "a";
    assert Lower("a.b") == "a.b" && "a.b"[..2] == "a.";
    assert Lower(".") == "." && "."[..0] == "";
  }

  // ---------------------------------------------------------------------
  // is_positive_number, is_number

  /** The `while` loop over the reversed string: strip groups of digits
      whose length is a positive multiple of 3, each followed by ','. */
  predicate CommaAccept(rev: string)
    decreases |rev|
  {
    var idx := Find(rev, ',');
    if idx > 0 && idx % 3 == 0 && IsDigits(rev[..idx]) then CommaAccept(rev[idx + 1..])
    else idx == -1 && IsDigits(rev)
  }

  /** What `is_positive_number` decides, branch by branch. */
  predicate PositiveNumber(s: string, neg: bool) {
    if s == "" then false
    else if IsDigits(s) then true
    else
      var idx := Find(s, '.');
      if idx > -1 && idx < |s| - 1 && idx == 0 && neg then false
      else if idx > -1 && idx < |s| - 1 && IsDigits(s[..idx] + s[idx + 1..]) then true
      else CommaAccept(Reverse(s))
  }

  method IsPositiveNumber(s: string, neg: bool) returns (r: bool)
    ensures r == PositiveNumber(s, neg)
  {
    if s == "" { return false; }
    if IsDigits(s) { return true; }
    var idx := Find(s, '.');
    if idx > -1 && idx < |s| - 1 {
      if idx == 0 && neg { return false; }
      var newString := s[..idx] + s[idx + 1..];
      if IsDigits(newString) { return true; }
    }
    assert PositiveNumber(s, neg) == CommaAccept(Reverse(s));
    r := StripCommaGroups(Reverse(s));
  }

  /** The `while` loop of `is_positive_number` on the reversed string. */
  method StripCommaGroups(s: string) returns (r: bool)
    ensures r == CommaAccept(s)
  {
    var rev := s;
    var idx := Find(rev, ',');
    while idx > 0 && idx % 3 == 0 && IsDigits(rev[..idx])
      invariant idx == Find(rev, ',')
      invariant CommaAccept(rev) == CommaAccept(s)
      decreases |rev|
    {
      rev := rev[idx + 1..];
      idx := Find(rev, ',');
    }
    r := idx == -1 && IsDigits(rev);
  }

  /** `is_number`: one leading '-' is stripped and the rest must be a
      positive number with a leading '.' refused. */
  predicate IsNumber(s: string) {
    if s != "" && s[0] == '-' then PositiveNumber(s[1..], true) else PositiveNumber(s, false)
  }

  /** The comma format read from the left: a non-empty digit run, then
      groups of ',' followed by a non-empty digit run whose length is a
      multiple of 3. */
  predicate CommaGrouped(s: string)
    decreases |s|
  {
    var i := RFind(s, ',');
    if i == -1 then IsDigits(s)
    else
      var g := s[i + 1..];
      |g| % 3 == 0 && IsDigits(g) && CommaGrouped(s[..i])
  }

  lemma {:induction false} ReverseDigits(s: string)
    ensures IsDigits(Reverse(s)) == IsDigits(s)
  {
    if IsDigits(Reverse(s)) {
      forall i | 0 <= i < |s| ensures IsDigit(s[i]) { assert s[i] == Reverse(s)[|s| - 1 - i]; }
    }
  }

  lemma {:induction false} FindInReverse(s: string, c: char)
    ensures Find(Reverse(s), c) == if RFind(s, c) == -1 then -1 else |s| - 1 - RFind(s, c)
  {
    var r := Reverse(s);
    var i := RFind(s, c);
    if i == -1 {
      assert c !in r by {
        forall j | 0 <= j < |r| ensures r[j] != c { assert r[j] == s[|s| - 1 - j]; }
      }
    } else {
      var k := |s| - 1 - i;
      assert r[k] == c;
      assert forall j :: 0 <= j < k ==> r[j] != c by {
        forall j | 0 <= j < k ensures r[j] != c { assert r[j] == s[|s| - 1 - j]; }
      }
    }
  }

  /** Reversing around position i: what follows it comes first, what
      precedes it last. */
  lemma ReverseAround(s: string, i: nat)
    requires i < |s|
    ensures Reverse(s)[..|s| - 1 - i] == Reverse(s[i + 1..])
    ensures Reverse(s)[|s| - i..] == Reverse(s[..i])
  {
    var r := Reverse(s);
    assert r[..|s| - 1 - i] == Reverse(s[i + 1..]);
    assert r[|s| - i..] == Reverse(s[..i]);
  }

  /** The loop over the reversed string accepts exactly the comma format. */
  lemma {:induction false} CommaAcceptIsGrouped(s: string)
    ensures CommaAccept(Reverse(s)) == CommaGrouped(s)
    decreases |s|
  {
    var r := Reverse(s);
    FindInReverse(s, ',');
    var i := RFind(s, ',');
    if i == -1 {
      ReverseDigits(s);
    } else {
      var idx := |s| - 1 - i;
      var g := s[i + 1..];
      ReverseAround(s, i);
      ReverseDigits(g);
      CommaAcceptIsGrouped(s[..i]);
      assert CommaAccept(r) == (idx > 0 && idx % 3 == 0 && IsDigits(r[..idx]) && CommaAccept(r[idx + 1..]));
      assert CommaGrouped(s) == (|g| % 3 == 0 && IsDigits(g) && CommaGrouped(s[..i]));
      assert IsDigits(g) ==> idx > 0;
    }
  }

  lemma {:induction false} FindAfter(a: string, c: char, b: string)
    requires c !in a
    ensures Find(a + [c] + b, c) == |a|
  {
    var s := a + [c] + b;
    assert s[|a|] == c;
    forall j | 0 <= j < |a| ensures s[j] != c { assert s[j] == a[j]; }
  }

  lemma {:induction false} RFindBefore(a: string, c: char, b: string)
    requires c !in b
    ensures RFind(a + [c] + b, c) == |a|
  {
    var s := a + [c] + b;
    assert s[|a|] == c;
    forall j | |a| < j < |s| ensures s[j] != c { assert s[j] == b[j - |a| - 1]; }
  }

  /** A decimal "a.b" with digits on both sides (the integer part may be
      empty) is a positive number, except ".b" after a stripped '-'. */
  lemma {:induction false} DecimalAccepted(a: string, b: string, neg: bool)
    requires a == "" || IsDigits(a)
    requires IsDigits(b)
    ensures PositiveNumber(a + "." + b, neg) == !(a == "" && neg)
  {
    var s := a + "." + b;
    assert '.' !in a by { if a != "" { assert forall i :: 0 <= i < |a| ==> IsDigit(a[i]); } }
    FindAfter(a, '.', b);
    assert !IsDigits(s) by { assert s[|a|] == '.'; }
    assert s[..|a|] + s[|a| + 1..] == a + b;
    assert IsDigits(a + b) by {
      forall i | 0 <= i < |a + b| ensures IsDigit((a + b)[i]) {
        if i < |a| { assert (a + b)[i] == a[i]; } else { assert (a + b)[i] == b[i - |a|]; }
      }
    }
  }

  /** Without a decimal point, a positive number is exactly a digit run in
      the comma format. */
  lemma {:induction false} IntegerIsCommaGrouped(s: string, neg: bool)
    requires '.' !in s
    ensures PositiveNumber(s, neg) == CommaGrouped(s)
  {
    CommaAcceptIsGrouped(s);
    if IsDigits(s) {
      assert ',' !in s by { assert forall i :: 0 <= i < |s| ==> IsDigit(s[i]); }
    }
  }

  /** One more group of a multiple of 3 digits after a ',' keeps the comma
      format. */
  lemma CommaGroupedStep(a: string, g: string)
    requires IsDigits(g) && |g| % 3 == 0
    ensures CommaGrouped(a + [','] + g) == CommaGrouped(a)
  {
    var s := a + [','] + g;
    assert ',' !in g by { assert forall i :: 0 <= i < |g| ==> IsDigit(g[i]); }
    RFindBefore(a, ',', g);
    assert s[|a| + 1..] == g && s[..|a|] == a;
  }

  /** A string without '-' in front and without '.' is a number exactly
      when it is in the comma format. */
  lemma IntegerIsNumber(s: string)
    requires s != "" && s[0] != '-' && '.' !in s
    ensures IsNumber(s) == CommaGrouped(s)
  {
    IntegerIsCommaGrouped(s, false);
  }

  /** A digit run followed by two groups of three digits, each after a
      ',', is a number. */
  lemma ThreeGroupsNumber(a: string, b: string, c: string)
    requires IsDigits(a) && IsDigits(b) && IsDigits(c) && |b| == 3 && |c| == 3
    ensures IsNumber(a + [','] + b + [','] + c)
  {
    var t := a + [','] + b;
    var s := t + [','] + c;
    CommaGroupedStep(a, b);
    CommaGroupedStep(t, c);
    assert ',' !in a by { assert forall i :: 0 <= i < |a| ==> IsDigit(a[i]); }
    assert s[0] == a[0];
    assert '.' !in s by {
      forall i | 0 <= i < |s| ensures s[i] != '.' {
        if i < |a| { assert s[i] == a[i]; }
        else if |a| < i < |t| { assert s[i] == b[i - |a| - 1]; }
        else if |t| < i { assert s[i] == c[i - |t| - 1]; }
      }
    }
    IntegerIsNumber(s);
  }

  lemma NumberCommaGroups()
    ensures IsNumber("239,000,000")
  {
    ThreeGroupsNumber("239", "000", "000");
    assert "239" + [','] + "000" + [','] + "000" == "239,000,000";
  }

  lemma NumberDecimal()
    ensures IsNumber("32.0323")
  {
    assert "32.0323" == "32" + "." + "0323";
    DecimalAccepted("32", "0323", false);
  }

  lemma NumberLeadingPoint()
    ensures IsNumber(".230")
  {
    assert ".230" == "" + "." + "230";
    DecimalAccepted("", "230", false);
  }

  lemma NumberNegative()
    ensures IsNumber("-12")
  {
    assert "-12"[1..] == "12";
  }

  lemma NumberShortGroup()
    ensures !IsNumber("1,00")
  {
    var s := "1,00";
    CommaAcceptIsGrouped(s);
    assert RFind(s, ',') == 1;
    assert s[2..] == "00";
    assert !IsDigits(s);
    assert Find(s, '.') == -1;
  }

  lemma NumberEmptyLead()
    ensures !IsNumber(",000")
  {
    var s := ",000";
    CommaAcceptIsGrouped(s);
    assert RFind(s, ',') == 0;
    assert s[..0] == "";
    assert !IsDigits(s);
    assert Find(s, '.') == -1;
  }

  lemma NumberNegativeLeadingPoint()
    ensures !IsNumber("-.5")
  {
    assert "-.5"[1..] == "" + "." + "5";
    DecimalAccepted("", "5", true);
  }

  lemma NumberTrailingPoint()
    ensures !IsNumber("5.")
  {
    var s := "5.";
    assert !IsDigit(s[1]);
    assert !IsDigits(s);
    assert Find(s, '.') == 1;
    CommaAcceptIsGrouped(s);
    assert RFind(s, ',') == -1;
    assert !CommaGrouped(s);
  }

  lemma NumberLoneMinus()
    ensures !IsNumber("-")
  {
    assert "-"[1..] == "";
  }

  // ---------------------------------------------------------------------
  // sort_files_by_size

  /** Python's tuple comparison `a > b` on (size, path) pairs. */
  predicate PairGreater(a: (nat, string), b: (nat, string)) {
    a.0 > b.0 || (a.0 == b.0 && StrLess(b.1, a.1))
  }

  lemma PairGreaterTotal()
    ensures StrictTotalOrder(PairGreater)
  {
    forall x | true ensures !PairGreater(x, x) { StrLessIrreflexive(x.1); }
    forall x, y, z | PairGreater(x, y) && PairGreater(y, z) ensures PairGreater(x, z) {
      if x.0 == y.0 == z.0 { StrLessTransitive(z.1, y.1, x.1); }
    }
    forall x, y | Equivalent(PairGreater, x, y) ensures x == y { StrLessTrichotomy(x.1, y.1); }
  }

  /** The (size, path) pairs in list order; a missing path fails like
      `os.path.getsize`. */
  function SizePairs(fs: FileSystem, files: seq<string>): (r: Result<seq<(nat, string)>>)
    ensures r.Ok? <==> forall i :: 0 <= i < |files| ==> files[i] in fs
    ensures r.Ok? ==> |r.value| == |files|
    ensures r.Ok? ==> forall i :: 0 <= i < |files| ==> r.value[i] == (fs[files[i]].size, files[i])
  {
    if files == [] then Ok([])
    else
      var front := SizePairs(fs, files[..|files| - 1]);
      var last := files[|files| - 1];
      if front.Err? then front
      else if last !in fs then Err(FileNotFoundError(last))
      else Ok(front.value + [(fs[last].size, last)])
  }

  /** `sort_files_by_size`: the pairs sorted with `reverse=True`. */
  function SortFilesBySize(fs: FileSystem, files: seq<string>): (r: Result<seq<(nat, string)>>)
    ensures r.Ok? <==> forall i :: 0 <= i < |files| ==> files[i] in fs
    ensures r.Ok? ==> SortedBy(r.value, PairGreater)
    ensures r.Ok? ==> multiset(r.value) == multiset(SizePairs(fs, files).value)
  {
    PairGreaterTotal();
    var pairs :- SizePairs(fs, files);
    Ok(Sort(pairs, PairGreater))
  }

  /** Bigger files first; equal sizes by path, descending. */
  lemma SortFilesBySizeOrder(fs: FileSystem, files: seq<string>, i: nat, j: nat)
    requires SortFilesBySize(fs, files).Ok?
    requires i < j < |SortFilesBySize(fs, files).value|
    ensures var r := SortFilesBySize(fs, files).value;
      r[i].0 > r[j].0 || (r[i].0 == r[j].0 && (r[i].1 == r[j].1 || StrLess(r[j].1, r[i].1)))
  {
    var r := SortFilesBySize(fs, files).value;
    StrLessTrichotomy(r[i].1, r[j].1);
  }

  /** Any arrangement of the pairs that is non-increasing is the one the
      function returns: the order does not depend on the input order. */
  lemma SortFilesBySizeUnique(fs: FileSystem, files: seq<string>, other: seq<(nat, string)>)
    requires SortFilesBySize(fs, files).Ok?
    requires SortedBy(other, PairGreater)
    requires multiset(other) == multiset(SizePairs(fs, files).value)
    ensures other == SortFilesBySize(fs, files).value
  {
    PairGreaterTotal();
    SortedUnique(other, SortFilesBySize(fs, files).value, PairGreater);
  }

  // ---------------------------------------------------------------------
  // get_filename, get_raw_url

  /** `path[path.rfind('/') + 1:]`. */
  function GetFilename(path: string): (r: string)
    ensures '/' !in r
    ensures |r| <= |path| && path == path[..|path| - |r|] + r
    ensures '/' !in path ==> r == path
    ensures '/' in path ==> path[|path| - |r| - 1] == '/'
  {
    var i := RFind(path, '/');
    assert forall j :: i < j < |path| ==> path[j] != '/';
    path[i + 1..]
  }

  predicate NoDoubleSlash(s: string) {
    forall j :: 0 <= j < |s| - 1 ==> !(s[j] == '/' && s[j + 1] == '/')
  }

  lemma {:induction false} NoDoubleSlashSuffix(s: string, k: nat)
    requires k <= |s|
    requires forall j :: k <= j < |s| - 1 ==> !(s[j] == '/' && s[j + 1] == '/')
    ensures NoDoubleSlash(s[k..])
  {
    forall j | 0 <= j < |s[k..]| - 1 ensures !(s[k..][j] == '/' && s[k..][j + 1] == '/') {
      assert s[k..][j] == s[k + j] && s[k..][j + 1] == s[k + j + 1];
    }
  }

  /** The "www" rule of `get_raw_url`: text starting with "www" loses
      everything through its first '.', when it has one. */
  function DropWww(u: string): (r: string)
    ensures |r| <= |u| && r == u[|u| - |r|..]
    ensures "www" <= u && '.' in u ==> |r| < |u| && u[|u| - |r| - 1] == '.' && '.' !in u[..|u| - |r| - 1]
    ensures !("www" <= u) || '.' !in u ==> r == u
  {
    if "www" <= u then
      var k := Find(u, '.');
      assert k >= 0 ==> u[..k] == u[..|u| - |u[k + 1..]| - 1];
      u[k + 1..]
    else u
  }

  /** `get_raw_url`: drop everything up to the last "//", then apply the
      "www" rule to what is left. */
  function GetRawUrl(url: string): (r: string)
    ensures |r| <= |url| && r == url[|url| - |r|..]
    ensures NoDoubleSlash(r)
  {
    var idx := RFindPair(url, '/', '/');
    var start := if idx > -1 then idx + 2 else 0;
    var u := url[start..];
    var r := DropWww(u);
    NoDoubleSlashSuffix(url, |url| - |r|);
    assert url[|url| - |r|..] == r;
    r
  }

  /** In `a + "//" + b`, the last "//" is the one before `b` when `b` holds
      no "//" and does not start with '/'. */
  lemma {:induction false} LastDoubleSlash(a: string, b: string)
    requires NoDoubleSlash(b) && (b == [] || b[0] != '/')
    ensures RFindPair(a + "//" + b, '/', '/') == |a|
  {
    var s := a + "//" + b;
    assert s[|a|] == '/' && s[|a| + 1] == '/';
    assert forall j :: |a| < j < |s| - 1 ==> !(s[j] == '/' && s[j + 1] == '/') by {
      forall j | |a| < j < |s| - 1 ensures !(s[j] == '/' && s[j + 1] == '/') {
        assert s[j + 1] == b[j - |a| - 1];
        if j > |a| + 1 { assert s[j] == b[j - |a| - 2]; }
      }
    }
  }

  /** A URL with a scheme: everything through the last "//" goes, then the
      "www" rule applies to the rest. */
  lemma GetRawUrlAfterScheme(a: string, b: string)
    requires NoDoubleSlash(b) && (b == [] || b[0] != '/')
    ensures GetRawUrl(a + "//" + b) == DropWww(b)
  {
    LastDoubleSlash(a, b);
    assert (a + "//" + b)[|a| + 2..] == b;
  }

  /** A URL without "//": only the "www" rule applies. */
  lemma GetRawUrlNoScheme(u: string)
    requires NoDoubleSlash(u)
    ensures GetRawUrl(u) == DropWww(u)
  {
    assert u[0..] == u;
  }

  /** "www" text loses everything through its first '.'. */
  lemma DropWwwDot(w: string, rest: string)
    requires '.' !in w
    ensures DropWww("www" + w + "." + rest) == rest
  {
    var b := "www" + w + "." + rest;
    var k := 3 + |w|;
    assert b[..3] == "www";
    assert b[k] == '.';
    var r := DropWww(b);
    var m := |b| - |r| - 1;
    forall j | 3 <= j < k ensures b[j] != '.' { assert b[j] == w[j - 3]; }
    assert m == k;
    assert b[k + 1..] == rest;
  }

  /** The scheme is dropped, then "www" through the first '.'. */
  lemma GetRawUrlDropsScheme(a: string, w: string, rest: string)
    requires '.' !in w
    requires NoDoubleSlash("www" + w + "." + rest)
    ensures GetRawUrl(a + "//" + ("www" + w + "." + rest)) == rest
  {
    var b := "www" + w + "." + rest;
    assert b[0] == 'w';
    GetRawUrlAfterScheme(a, b);
    DropWwwDot(w, rest);
  }

  /** Text after the scheme that does not start with "www" is kept. */
  lemma GetRawUrlKeepsSubdomain(a: string, b: string)
    requires NoDoubleSlash(b) && (b == [] || b[0] != '/')
    requires !("www" <= b)
    ensures GetRawUrl(a + "//" + b) == b
  {
    GetRawUrlAfterScheme(a, b);
  }

  /** A "www" text without a '.' is kept whole, because `find` gives -1. */
  lemma GetRawUrlWithoutDot(a: string, b: string)
    requires NoDoubleSlash(b) && (b == [] || b[0] != '/')
    requires '.' !in b
    ensures GetRawUrl(a + "//" + b) == b
  {
    GetRawUrlAfterScheme(a, b);
  }

  // ---------------------------------------------------------------------
  // sort_lines

  predicate StrictlyAscending(s: seq<string>) {
    forall i, j :: 0 <= i < j < |s| ==> StrLess(s[i], s[j])
  }

  /** `sorted(lines)` on strings. */
  function SortStrings(lines: seq<string>): (r: seq<string>)
    ensures SortedBy(r, StrLess)
    ensures multiset(r) == multiset(lines)
  {
    StrLessTotal();
    Sort(lines, StrLess)
  }

  /** `sort_lines`: the lines sorted and written once each. The `reverse`
      argument of the source is never read. */
  method SortLines(lines: seq<string>, reverse: bool) returns (written: seq<string>)
    ensures StrictlyAscending(written)
    ensures forall l :: l in written <==> l in lines
  {
    var sorted := SortStrings(lines);
    var seen: set<string> := {};
    written := [];
    var i := 0;
    while i < |sorted|
      invariant 0 <= i <= |sorted|
      invariant StrictlyAscending(written)
      invariant forall l :: l in written <==> l in sorted[..i]
      invariant forall l :: l in seen <==> l in written
    {
      var line := sorted[i];
      PrefixStep(sorted, i);
      if line !in seen {
        AppendAscending(written, line, sorted, i);
        seen := seen + {line};
        written := written + [line];
      }
      i := i + 1;
    }
    SameMembers(lines, sorted);
  }

  lemma PrefixStep(s: seq<string>, i: nat)
    requires i < |s|
    ensures forall l :: l in s[..i + 1] <==> l in s[..i] || l == s[i]
  {
    assert s[..i + 1] == s[..i] + [s[i]];
  }

  lemma SameMembers(lines: seq<string>, sorted: seq<string>)
    requires multiset(sorted) == multiset(lines)
    ensures forall l :: l in lines <==> l in sorted[..|sorted|]
  {
    assert sorted[..|sorted|] == sorted;
    forall l ensures l in lines <==> l in sorted {
      assert l in lines <==> l in multiset(lines);
      assert l in sorted <==> l in multiset(sorted);
    }
  }

  /** A line of the sorted input not written yet is greater than every
      line written so far. */
  lemma AppendAscending(written: seq<string>, line: string, sorted: seq<string>, i: nat)
    requires i < |sorted| && line == sorted[i]
    requires SortedBy(sorted, StrLess)
    requires StrictlyAscending(written)
    requires forall l :: l in written <==> l in sorted[..i]
    requires line !in written
    ensures StrictlyAscending(written + [line])
  {
    forall k | 0 <= k < |written| ensures StrLess(written[k], line) {
      assert written[k] in sorted[..i];
      var m :| 0 <= m < i && sorted[m] == written[k];
      assert !StrLess(line, written[k]);
      StrLessTrichotomy(written[k], line);
    }
  }

  // ---------------------------------------------------------------------
  // dict_sorted_2_file

  function CountOf(d: Counts, k: string): nat {
    if k in d.count then d.count[k] else 0
  }

  /** The order `sorted(dictionary, key=dictionary.get, reverse=...)` sorts
      by: for `reverse`, larger counts first; equal counts keep their order. */
  function ByCount(d: Counts, reverse: bool): (before: (string, string) -> bool)
    ensures StrictWeakOrder(before)
  {
    (a: string, b: string) => if reverse then CountOf(d, a) > CountOf(d, b) else CountOf(d, a) < CountOf(d, b)
  }

  /** The key order of `sorted(dictionary, key=dictionary.get, reverse=...)`:
      `sorted` is stable, so keys of equal count keep the dictionary's
      insertion order. */
  function SortedKeys(d: Counts, reverse: bool): (ks: seq<string>)
    ensures multiset(ks) == multiset(d.order)
    ensures SortedBy(ks, ByCount(d, reverse))
    ensures forall x :: ClassOf(ks, ByCount(d, reverse), x) == ClassOf(d.order, ByCount(d, reverse), x)
  {
    Sort(d.order, ByCount(d, reverse))
  }

  /** Every key exactly once, and no other string. */
  lemma SortedKeysKeys(d: Counts, reverse: bool)
    requires ValidCounts(d)
    ensures NoDuplicates(SortedKeys(d, reverse))
    ensures forall k :: k in SortedKeys(d, reverse) <==> k in d.count
  {
    var ks := SortedKeys(d, reverse);
    forall k ensures k in ks <==> k in d.order {
      assert k in ks <==> k in multiset(ks);
      assert k in d.order <==> k in multiset(d.order);
    }
    forall i, j | 0 <= i < j < |ks| ensures ks[i] != ks[j] {
      if ks[i] == ks[j] {
        MultisetTwice(ks, i, j);
        NoDuplicatesMultiset(d.order, ks[i]);
      }
    }
  }

  /** Counts non-increasing when `reverse`, non-decreasing otherwise. */
  lemma SortedKeysOrder(d: Counts, reverse: bool, i: nat, j: nat)
    requires i < j < |SortedKeys(d, reverse)|
    ensures var ks := SortedKeys(d, reverse);
      if reverse then CountOf(d, ks[i]) >= CountOf(d, ks[j]) else CountOf(d, ks[i]) <= CountOf(d, ks[j])
  {
    var ks := SortedKeys(d, reverse);
    assert !ByCount(d, reverse)(ks[j], ks[i]);
  }

  lemma {:induction false} MultisetTwice(s: seq<string>, i: nat, j: nat)
    requires i < j < |s| && s[i] == s[j]
    ensures multiset(s)[s[i]] >= 2
  {
    assert s == s[..i] + [s[i]] + s[i + 1..j] + [s[j]] + s[j + 1..];
  }

  lemma {:induction false} NoDuplicatesMultiset(s: seq<string>, x: string)
    requires NoDuplicates(s)
    ensures multiset(s)[x] <= 1
  {
    if s != [] {
      assert s == [s[0]] + s[1..];
      NoDuplicatesMultiset(s[1..], x);
      if s[0] == x {
        assert x !in s[1..];
      }
    }
  }

  /** One output line of the dump: "key\tcount\n". */
  function DumpLine(d: Counts, k: string): string {
    k + "\t" + NatToString(CountOf(d, k)) + "\n"
  }

  /** The lines `dict_sorted_2_file` writes, in order. */
  function DumpLines(d: Counts, reverse: bool): (ls: seq<string>)
    ensures |ls| == |SortedKeys(d, reverse)|
    ensures forall i :: 0 <= i < |ls| ==> ls[i] == DumpLine(d, SortedKeys(d, reverse)[i])
  {
    var ks := SortedKeys(d, reverse);
    seq(|ks|, i requires 0 <= i < |ks| => DumpLine(d, ks[i]))
  }

  function Concat(ls: seq<string>): string {
    if ls == [] then "" else Concat(ls[..|ls| - 1]) + ls[|ls| - 1]
  }

  /** `dict_sorted_2_file`: the text written, one line per key in sorted
      key order. */
  method DictSorted2File(d: Counts, reverse: bool) returns (text: string)
    ensures text == Concat(DumpLines(d, reverse))
  {
    var keys := SortedKeys(d, reverse);
    ghost var lines := DumpLines(d, reverse);
    text := "";
    var i := 0;
    while i < |keys|
      invariant 0 <= i <= |keys|
      invariant text == Concat(lines[..i])
    {
      text := text + DumpLine(d, keys[i]);
      assert lines[..i + 1][..i] == lines[..i];
      i := i + 1;
    }
    assert lines[..i] == lines;
  }
}
