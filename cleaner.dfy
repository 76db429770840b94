/** lazynlp/cleaner.py: the character-class filters, space collapsing and
    line joining that normalise text. */
module Cleaner {
  import opened Common
  import opened Text

  // ---------------------------------------------------------------------
  // remove_non_alphanumeric, remove_non_alpha

  predicate IsAlnumOrSpace(c: char) { IsLetter(c) || IsDigit(c) || c == ' ' }

  predicate IsAlphaOrSpace(c: char) { IsLetter(c) || c == ' ' }

  /** Deleting every run of characters outside a class (`re.sub` of a negated
      character class by ''): the kept characters, all of them, in order. */
  function Filter(txt: string, keep: char -> bool): (r: string)
    ensures |r| <= |txt|
    ensures forall i :: 0 <= i < |r| ==> keep(r[i])
    decreases |txt|
  {
    if txt == [] then []
    else
      var rest := Filter(txt[1..], keep);
      if keep(txt[0]) then [txt[0]] + rest else rest
  }

  /** Every kept character survives as often as it occurs, no other does,
      and the survivors keep their order. */
  lemma {:induction false} FilterCounts(txt: string, keep: char -> bool)
    ensures forall c :: multiset(Filter(txt, keep))[c] == if keep(c) then multiset(txt)[c] else 0
    ensures IsSubsequence(Filter(txt, keep), txt)
    decreases |txt|
  {
    if txt != [] {
      var rest := Filter(txt[1..], keep);
      FilterCounts(txt[1..], keep);
      assert txt == [txt[0]] + txt[1..];
      if keep(txt[0]) {
        assert ([txt[0]] + rest)[1..] == rest;
      }
    }
  }

  lemma FilterChar(t: string, keep: char -> bool, c: char)
    requires c in Filter(t, keep)
    ensures c in t && keep(c)
  {
    FilterCounts(t, keep);
    assert multiset(Filter(t, keep))[c] > 0;
  }

  lemma {:induction false} FilterAppend(a: string, b: string, keep: char -> bool)
    ensures Filter(a + b, keep) == Filter(a, keep) + Filter(b, keep)
    decreases |a|
  {
    if a == [] {
      assert a + b == b;
    } else {
      assert (a + b)[0] == a[0] && (a + b)[1..] == a[1..] + b;
      FilterAppend(a[1..], b, keep);
    }
  }

  /** A string with only kept characters is left as it is. */
  lemma {:induction false} FilterIdentity(txt: string, keep: char -> bool)
    requires forall i :: 0 <= i < |txt| ==> keep(txt[i])
    ensures Filter(txt, keep) == txt
    decreases |txt|
  {
    if txt != [] {
      FilterIdentity(txt[1..], keep);
    }
  }

  lemma FilterIdempotent(txt: string, keep: char -> bool)
    ensures Filter(Filter(txt, keep), keep) == Filter(txt, keep)
  {
    FilterIdentity(Filter(txt, keep), keep);
  }

  /** `remove_non_alphanumeric`: keep exactly [a-zA-Z0-9 ]. */
  function RemoveNonAlphanumeric(txt: string): (r: string)
    ensures forall i :: 0 <= i < |r| ==> IsAlnumOrSpace(r[i])
  {
    Filter(txt, IsAlnumOrSpace)
  }

  /** `remove_non_alpha`: keep exactly [a-zA-Z ]. */
  function RemoveNonAlpha(txt: string): (r: string)
    ensures forall i :: 0 <= i < |r| ==> IsAlphaOrSpace(r[i])
  {
    Filter(txt, IsAlphaOrSpace)
  }

  /** Letters, digits and spaces all survive `remove_non_alphanumeric`, in
      order, and nothing else does. */
  lemma RemoveNonAlphanumericCounts(txt: string)
    ensures forall c :: multiset(RemoveNonAlphanumeric(txt))[c] == if IsAlnumOrSpace(c) then multiset(txt)[c] else 0
    ensures IsSubsequence(RemoveNonAlphanumeric(txt), txt)
  {
    FilterCounts(txt, IsAlnumOrSpace);
  }

  /** Letters and spaces all survive `remove_non_alpha`, in order, and
      nothing else does. */
  lemma RemoveNonAlphaCounts(txt: string)
    ensures forall c :: multiset(RemoveNonAlpha(txt))[c] == if IsAlphaOrSpace(c) then multiset(txt)[c] else 0
    ensures IsSubsequence(RemoveNonAlpha(txt), txt)
  {
    FilterCounts(txt, IsAlphaOrSpace);
  }

  lemma RemoveNonAlphanumericIdempotent(txt: string)
    ensures RemoveNonAlphanumeric(RemoveNonAlphanumeric(txt)) == RemoveNonAlphanumeric(txt)
  {
    FilterIdempotent(txt, IsAlnumOrSpace);
  }

  lemma RemoveNonAlphanumericClean(txt: string)
    requires forall i :: 0 <= i < |txt| ==> IsAlnumOrSpace(txt[i])
    ensures RemoveNonAlphanumeric(txt) == txt
  {
    FilterIdentity(txt, IsAlnumOrSpace);
  }

  lemma RemoveNonAlphaIdempotent(txt: string)
    ensures RemoveNonAlpha(RemoveNonAlpha(txt)) == RemoveNonAlpha(txt)
  {
    FilterIdempotent(txt, IsAlphaOrSpace);
  }

  lemma RemoveNonAlphaClean(txt: string)
    requires forall i :: 0 <= i < |txt| ==> IsAlphaOrSpace(txt[i])
    ensures RemoveNonAlpha(txt) == txt
  {
    FilterIdentity(txt, IsAlphaOrSpace);
  }

  // ---------------------------------------------------------------------
  // collapse_white_spaces

  predicate NoDoubleSpace(s: string) {
    forall j :: 0 <= j < |s| - 1 ==> !(s[j] == ' ' && s[j + 1] == ' ')
  }

  predicate NotSpace(c: char) { c != ' ' }

  /** The text `collapse_white_spaces` builds from `t`: a ' ' is dropped
      exactly when the input character before it is also ' '. */
  function Collapsed(t: string): (r: string)
    ensures NoDoubleSpace(r)
    ensures |r| <= |t|
    ensures t != [] ==> r != [] && r[|r| - 1] == t[|t| - 1]
  {
    if t == [] then []
    else
      var p := t[..|t| - 1];
      var c := t[|t| - 1];
      var r := Collapsed(p);
      if c == ' ' && p != [] && p[|p| - 1] == ' ' then r else r + [c]
  }

  /** `collapse_white_spaces`: the loop with the `prev` character. */
  method CollapseWhiteSpaces(txt: string) returns (cleanTxt: string)
    ensures cleanTxt == Collapsed(txt)
  {
    cleanTxt := "";
    var prev: char := '\0';
    var hasPrev := false;
    for i := 0 to |txt|
      invariant cleanTxt == Collapsed(txt[..i])
      invariant hasPrev <==> i > 0
      invariant i > 0 ==> prev == txt[i - 1]
    {
      var c := txt[i];
      assert txt[..i + 1][..i] == txt[..i];
      if !(c == ' ' && hasPrev && prev == ' ') {
        cleanTxt := cleanTxt + [c];
      }
      prev := c;
      hasPrev := true;
    }
    assert txt[..|txt|] == txt;
  }

  /** Only spaces are deleted: without their spaces, input and output are
      the same string. */
  lemma {:induction false} CollapsedKeepsNonSpaces(t: string)
    ensures Filter(Collapsed(t), NotSpace) == Filter(t, NotSpace)
  {
    if t != [] {
      var p := t[..|t| - 1];
      var c := t[|t| - 1];
      assert t == p + [c];
      CollapsedKeepsNonSpaces(p);
      FilterAppend(p, [c], NotSpace);
      FilterAppend(Collapsed(p), [c], NotSpace);
    }
  }

  /** A character other than ' ' separates the collapsing of what precedes
      it from that of what follows it. */
  lemma {:induction false} CollapsedSplit(a: string, c: char, b: string)
    requires c != ' '
    ensures Collapsed(a + [c] + b) == Collapsed(a) + [c] + Collapsed(b)
    decreases |b|
  {
    var t := a + [c] + b;
    if b == [] {
      assert t == a + [c];
      CollapsedSnoc(a, c);
    } else {
      var q := b[..|b| - 1];
      var d := b[|b| - 1];
      var p := a + [c] + q;
      FrontLast(b);
      AppendAssoc(a + [c], q, [d]);
      CollapsedSplit(a, c, q);
      CollapsedSnoc(p, d);
      CollapsedSnoc(q, d);
      assert p[|p| - 1] == if q == [] then c else q[|q| - 1];
      if !(d == ' ' && q != [] && q[|q| - 1] == ' ') {
        AppendAssoc(Collapsed(a) + [c], Collapsed(q), [d]);
      }
    }
  }

  /** Appending one character: it is dropped exactly when it is a second
      ' ' in a row. */
  lemma CollapsedSnoc(p: string, d: char)
    ensures Collapsed(p + [d]) == if d == ' ' && p != [] && p[|p| - 1] == ' ' then Collapsed(p) else Collapsed(p) + [d]
  {
    SnocParts(p, d);
  }

  /** A string without two adjacent spaces is left as it is. */
  lemma {:induction false} CollapsedIdentity(t: string)
    requires NoDoubleSpace(t)
    ensures Collapsed(t) == t
  {
    if t != [] {
      var p := t[..|t| - 1];
      assert NoDoubleSpace(p) by {
        forall j | 0 <= j < |p| - 1 ensures !(p[j] == ' ' && p[j + 1] == ' ') {
          assert p[j] == t[j] && p[j + 1] == t[j + 1];
        }
      }
      CollapsedIdentity(p);
      if p != [] {
        assert p[|p| - 1] == t[|t| - 2];
      }
      assert t == p + [t[|t| - 1]];
    }
  }

  lemma CollapsedIdempotent(t: string)
    ensures Collapsed(Collapsed(t)) == Collapsed(t)
  {
    CollapsedIdentity(Collapsed(t));
  }

  // ---------------------------------------------------------------------
  // connect_lines

  /** The loop variables of `connect_lines`: the finished text and the
      pending paragraph. */
  datatype Connect = Connect(result: string, curr: string)

  /** One line of the loop: a blank line flushes the pending text (with a
      '\n' when there is any) and then writes one separator; any other line
      is stripped and added to the pending text with a trailing ' '. */
  function ConnectStep(st: Connect, line: string, lineSep: string): Connect {
    var l := Strip(line);
    if l == "" then
      Connect((if st.curr != "" then st.result + (st.curr + "\n") else st.result) + lineSep, "")
    else
      Connect(st.result, st.curr + (l + " "))
  }

  function ConnectAll(lines: seq<string>, lineSep: string): Connect {
    if lines == [] then Connect("", "")
    else ConnectStep(ConnectAll(lines[..|lines| - 1], lineSep), lines[|lines| - 1], lineSep)
  }

  /** The text `connect_lines` returns for the lines of its input. */
  function Connected(lines: seq<string>, lineSep: string): string {
    var st := ConnectAll(lines, lineSep);
    st.result + st.curr
  }

  /** `connect_lines(txt, line_sep)`. */
  method ConnectLines(txt: string, lineSep: string) returns (r: string)
    ensures r == Connected(SplitOn(txt, '\n'), lineSep)
  {
    var lines := SplitOn(txt, '\n');
    var result, curr := "", "";
    for i := 0 to |lines|
      invariant Connect(result, curr) == ConnectAll(lines[..i], lineSep)
    {
      ConnectUnfold(lines, i, lineSep);
      ghost var st := Connect(result, curr);
      var line := Strip(lines[i]);
      if line == "" {
        if curr != "" {
          result := result + (curr + "\n");
        }
        result := result + lineSep;
        curr := "";
      } else {
        curr := curr + (line + " ");
      }
      assert Connect(result, curr) == ConnectStep(st, lines[i], lineSep);
    }
    assert lines[..|lines|] == lines;
    r := result + curr;
  }

  lemma ConnectUnfold(lines: seq<string>, i: nat, lineSep: string)
    requires i < |lines|
    ensures ConnectAll(lines[..i + 1], lineSep) == ConnectStep(ConnectAll(lines[..i], lineSep), lines[i], lineSep)
  {
    assert lines[..i + 1][..i] == lines[..i];
  }

  /** Each stripped line followed by one space. */
  function Spaced(lines: seq<string>): string {
    if lines == [] then "" else Spaced(lines[..|lines| - 1]) + (Strip(lines[|lines| - 1]) + " ")
  }

  /** Without blank lines nothing is finished: the pending text is every
      line stripped, in order, each followed by a space. */
  lemma {:induction false} ConnectNonBlank(lines: seq<string>, lineSep: string)
    requires forall i :: 0 <= i < |lines| ==> Strip(lines[i]) != ""
    ensures ConnectAll(lines, lineSep) == Connect("", Spaced(lines))
  {
    if lines != [] {
      ConnectNonBlank(lines[..|lines| - 1], lineSep);
    }
  }

  /** Once nothing is pending, the rest of the lines are processed as if
      they were the whole input: blank lines separate independent blocks. */
  lemma {:induction false} ConnectCompose(a: seq<string>, b: seq<string>, lineSep: string)
    requires ConnectAll(a, lineSep).curr == ""
    ensures ConnectAll(a + b, lineSep)
         == Connect(ConnectAll(a, lineSep).result + ConnectAll(b, lineSep).result, ConnectAll(b, lineSep).curr)
    decreases |b|
  {
    if b == [] {
      assert a + b == a;
    } else {
      var q := b[..|b| - 1];
      assert (a + b)[..|a + b| - 1] == a + q;
      assert (a + b)[|a + b| - 1] == b[|b| - 1];
      ConnectCompose(a, q, lineSep);
      ConnectStepShift(ConnectAll(a, lineSep).result, ConnectAll(q, lineSep), b[|b| - 1], lineSep);
    }
  }

  /** A step does not look at the text finished before it. */
  lemma ConnectStepShift(x: string, st: Connect, line: string, lineSep: string)
    ensures var next := ConnectStep(st, line, lineSep);
      ConnectStep(Connect(x + st.result, st.curr), line, lineSep) == Connect(x + next.result, next.curr)
  {
    var flushed := if st.curr != "" then st.curr + "\n" else "";
    assert (x + st.result) + flushed + lineSep == x + ((st.result + flushed) + lineSep);
    if st.curr == "" {
      assert st.result + flushed == st.result;
      assert (x + st.result) + flushed == x + st.result;
    }
  }

  /** A blank line ends a paragraph: the block written for `a` followed by a
      blank line is its finished text, its pending text and '\n' when there
      is any, and one separator; nothing is left pending. */
  lemma ConnectBlank(a: seq<string>, blank: string, lineSep: string)
    requires Strip(blank) == ""
    ensures var st := ConnectAll(a, lineSep);
      ConnectAll(a + [blank], lineSep)
        == Connect((if st.curr != "" then st.result + (st.curr + "\n") else st.result) + lineSep, "")
  {
    var b := a + [blank];
    assert b[..|b| - 1] == a;
    assert b[|b| - 1] == blank;
    assert ConnectAll(b, lineSep) == ConnectStep(ConnectAll(a, lineSep), blank, lineSep);
  }
}
