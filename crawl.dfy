/** lazynlp/crawl.py: the book id of a Project Gutenberg Australia link, the
    merge of the catalogue's txt and html links into one list with one link
    per book, and the `to_skip` test of the page crawler. */
module Crawl {
  import opened Common
  import opened Text
  import opened Utils

  // ---------------------------------------------------------------------
  // Python slicing

  /** A slice bound as Python reads it: a negative bound counts from the
      end, and the result is clamped to the string. */
  function PyIndex(i: int, len: nat): (r: nat)
    ensures r <= len
    ensures 0 <= i <= len ==> r == i
    ensures -(len as int) <= i < 0 ==> r == i + len
  {
    var j := if i < 0 then i + len else i;
    if j < 0 then 0 else if j > len then len else j
  }

  /** `s[lo:hi]`. An empty result for `hi <= lo` is stated only for a
      non-negative `hi`: a negative one counts from the end. */
  function PySlice(s: string, lo: int, hi: int): (r: string)
    ensures |r| <= |s|
    ensures 0 <= lo <= hi <= |s| ==> r == s[lo..hi]
    ensures 0 <= hi <= lo ==> r == []
  {
    var a := PyIndex(lo, |s|);
    var b := PyIndex(hi, |s|);
    if a < b then s[a..b] else []
  }

  // ---------------------------------------------------------------------
  // get_id_aus

  /** The text between the last '/' and the last '.', without one trailing
      'h'; `id_[-1]` on an empty slice raises IndexError. Without a '.',
      `rfind` gives -1, which Python reads as the last character. */
  function GetIdAus(link: string): (r: Result<string>)
    ensures r.Err? ==> r.error == IndexError
    ensures r.Ok? ==> '/' !in r.value && |r.value| < |link|
  {
    var id := PySlice(link, RFind(link, '/') + 1, RFind(link, '.'));
    if id == [] then Err(IndexError)
    else if id[|id| - 1] == 'h' then Ok(id[..|id| - 1])
    else Ok(id)
  }

  lemma RFindAt(s: string, c: char, k: nat)
    requires k < |s| && s[k] == c
    requires forall j :: k < j < |s| ==> s[j] != c
    ensures RFind(s, c) == k
  {
  }

  /** When the last '.' comes after the last '/', the id is the text
      strictly between them, less one trailing 'h'; it is empty, and the
      call fails, exactly when the two are adjacent. Without a '.', the
      slice ends before the last character of the link. */
  lemma GetIdAusSpec(link: string)
    ensures '.' in link ==>
      (GetIdAus(link).Err? <==> RFind(link, '.') <= RFind(link, '/') + 1)
    ensures '.' !in link ==>
      (GetIdAus(link).Err? <==> |link| <= RFind(link, '/') + 2)
    ensures GetIdAus(link).Err? ==> GetIdAus(link).error == IndexError
    ensures '.' in link && RFind(link, '/') + 1 < RFind(link, '.') ==>
      var id := link[RFind(link, '/') + 1..RFind(link, '.')];
      GetIdAus(link) == Ok(if id[|id| - 1] == 'h' then id[..|id| - 1] else id)
  {
    var lo := RFind(link, '/') + 1;
    var hi := RFind(link, '.');
    var id := PySlice(link, lo, hi);
    assert 0 <= lo <= |link|;
    if '.' in link {
      assert 0 <= hi < |link|;
      assert id == [] <==> hi <= lo;
    } else if link != [] {
      assert PyIndex(hi, |link|) == |link| - 1;
      assert id == [] <==> |link| - 1 <= lo;
    }
  }

  /** In `<dir>/<stem><ext>` with no '/' in stem or extension, the last
      '/' ends the directory. */
  lemma LastSlash(dir: string, stem: string, ext: string)
    requires dir != [] && dir[|dir| - 1] == '/' && '/' !in stem && '/' !in ext
    ensures RFind(dir + stem + ext, '/') == |dir| - 1
  {
    var l := dir + (stem + ext);
    var rest := stem + ext;
    forall j | |dir| - 1 < j < |l|
      ensures l[j] != '/'
    {
      var k := j - |dir|;
      assert l[j] == rest[k];
      if k < |stem| {
        assert rest[k] == stem[k];
      } else {
        assert rest[k] == ext[k - |stem|];
      }
    }
    assert l == dir + stem + ext;
    RFindAt(l, '/', |dir| - 1);
  }

  /** ... and the last '.' starts the extension. */
  lemma LastDot(dir: string, stem: string, ext: string)
    requires ext != [] && ext[0] == '.' && '.' !in ext[1..]
    ensures RFind(dir + stem + ext, '.') == |dir| + |stem|
  {
    var pre := dir + stem;
    var l := pre + ext;
    var d := |pre|;
    forall j | d < j < |l|
      ensures l[j] != '.'
    {
      var k := j - d;
      assert l[j] == ext[k];
      assert ext[k] == ext[1..][k - 1];
    }
    RFindAt(l, '.', d);
  }

  /** A link `<dir>/<stem><ext>` whose stem has no '/' or '.' and whose
      extension is a '.' and then neither: the id is the stem, less one
      trailing 'h'. */
  lemma GetIdAusOf(dir: string, stem: string, ext: string)
    requires dir != [] && dir[|dir| - 1] == '/'
    requires stem != [] && '/' !in stem && '.' !in stem
    requires ext != [] && ext[0] == '.' && '/' !in ext && '.' !in ext[1..]
    ensures GetIdAus(dir + stem + ext) == Ok(if stem[|stem| - 1] == 'h' then stem[..|stem| - 1] else stem)
  {
    var l := dir + stem + ext;
    LastSlash(dir, stem, ext);
    LastDot(dir, stem, ext);
    assert l[|dir|..|dir| + |stem|] == stem;
    assert PySlice(l, RFind(l, '/') + 1, RFind(l, '.')) == stem;
  }

  /** The html and the txt link of one book give the same id: for a
      directory ending in '/' and an id without '/', '.' or a final 'h',
      both ".../<id>h.html" and ".../<id>.txt" give that id. */
  lemma GetIdAusFormats(dir: string, id: string)
    requires dir != [] && dir[|dir| - 1] == '/'
    requires id != [] && '/' !in id && '.' !in id && id[|id| - 1] != 'h'
    ensures GetIdAus(dir + id + "h" + ".html") == Ok(id)
    ensures GetIdAus(dir + id + ".txt") == Ok(id)
  {
    var html, txt := ".html", ".txt";
    assert html[1..] == "html" && txt[1..] == "txt";
    var stem := id + "h";
    forall k | 0 <= k < |stem|
      ensures stem[k] != '/' && stem[k] != '.'
    {
      if k < |id| {
        assert stem[k] == id[k];
      }
    }
    assert stem[..|id|] == id;
    GetIdAusOf(dir, stem, html);
    AppendAssoc(dir, id, "h");
    GetIdAusOf(dir, id, txt);
  }

  // ---------------------------------------------------------------------
  // The merge of get_aus_gutenberg_links

  // The merge is stated for any function from a link to its id, which the
  // loops below instantiate with GetIdAus.
  type IdOf = string -> Result<string>

  /** Every link has an id. */
  predicate AllIds(idOf: IdOf, links: seq<string>) {
    forall i :: 0 <= i < |links| ==> idOf(links[i]).Ok?
  }

  /** The ids of some links. */
  function IdSet(idOf: IdOf, links: seq<string>): (r: set<string>)
    requires AllIds(idOf, links)
    ensures forall i :: 0 <= i < |links| ==> idOf(links[i]).value in r
    ensures forall x :: x in r ==> exists i :: 0 <= i < |links| && idOf(links[i]).value == x
  {
    set i | 0 <= i < |links| :: idOf(links[i]).value
  }

  /** The html link at index k is for a new book: no txt link and no earlier
      html link has its id. */
  predicate NewAt(idOf: IdOf, txt: seq<string>, html: seq<string>, k: nat)
    requires AllIds(idOf, txt) && AllIds(idOf, html) && k < |html|
  {
    idOf(html[k]).value !in IdSet(idOf, txt)
    && forall j :: 0 <= j < k ==> idOf(html[j]).value != idOf(html[k]).value
  }

  /** The html links for new books, in catalogue order. */
  function Chosen(idOf: IdOf, txt: seq<string>, html: seq<string>): (r: seq<string>)
    requires AllIds(idOf, txt) && AllIds(idOf, html)
    ensures forall i :: 0 <= i < |r| ==> r[i] in html
    ensures |r| <= |html|
  {
    if html == [] then []
    else
      var front := Chosen(idOf, txt, html[..|html| - 1]);
      if NewAt(idOf, txt, html, |html| - 1) then front + [html[|html| - 1]] else front
  }

  /** What the loops write to `outfile`: every txt link, then the html links
      for new books. The first link without an id raises its error. */
  function MergeResult(idOf: IdOf, txt: seq<string>, html: seq<string>): (r: Result<seq<string>>)
    ensures r.Ok? <==> AllIds(idOf, txt) && AllIds(idOf, html)
    ensures r.Ok? ==> txt <= r.value && |r.value| <= |txt| + |html|
  {
    if !AllIds(idOf, txt) then
      var k := FirstBad(idOf, txt);
      Err(idOf(txt[k]).error)
    else if !AllIds(idOf, html) then
      var k := FirstBad(idOf, html);
      Err(idOf(html[k]).error)
    else Ok(txt + Chosen(idOf, txt, html))
  }

  /** The first link without an id. */
  function FirstBad(idOf: IdOf, links: seq<string>): (k: nat)
    requires !AllIds(idOf, links)
    ensures k < |links| && idOf(links[k]).Err?
    ensures AllIds(idOf, links[..k])
  {
    if idOf(links[0]).Err? then 0
    else
      var k := FirstBad(idOf, links[1..]);
      assert forall i :: 0 <= i < k ==> links[1..][..k][i] == links[i + 1];
      k + 1
  }

  /** One html link more. */
  lemma ChosenSnoc(idOf: IdOf, txt: seq<string>, html: seq<string>, x: string)
    requires AllIds(idOf, txt) && AllIds(idOf, html + [x]) && idOf(x).Ok?
    ensures AllIds(idOf, html)
    ensures Chosen(idOf, txt, html + [x])
         == Chosen(idOf, txt, html) + (if idOf(x).value in IdSet(idOf, txt) + IdSet(idOf, html) then [] else [x])
  {
    var h := html + [x];
    SnocParts(html, x);
    assert AllIds(idOf, html) by {
      forall i | 0 <= i < |html|
        ensures idOf(html[i]).Ok?
      {
        assert h[i] == html[i];
      }
    }
    if idOf(x).value in IdSet(idOf, html) {
      var i :| 0 <= i < |html| && idOf(html[i]).value == idOf(x).value;
      assert h[i] == html[i];
      assert !NewAt(idOf, txt, h, |html|);
    } else if idOf(x).value !in IdSet(idOf, txt) {
      forall j | 0 <= j < |html|
        ensures idOf(h[j]).value != idOf(x).value
      {
        assert h[j] == html[j];
      }
      assert NewAt(idOf, txt, h, |html|);
    }
  }

  /** At most one link per book: the chosen html links have distinct ids,
      none of them the id of a txt link. */
  lemma {:induction false} ChosenDistinct(idOf: IdOf, txt: seq<string>, html: seq<string>)
    requires AllIds(idOf, txt) && AllIds(idOf, html)
    ensures var c := Chosen(idOf, txt, html);
      forall i :: 0 <= i < |c| ==> idOf(c[i]).Ok? && idOf(c[i]).value !in IdSet(idOf, txt)
    ensures var c := Chosen(idOf, txt, html);
      forall i, j :: 0 <= i < j < |c| ==> idOf(c[i]).value != idOf(c[j]).value
  {
    if html != [] {
      var p := html[..|html| - 1];
      var x := html[|html| - 1];
      FrontLast(html);
      ChosenSnoc(idOf, txt, p, x);
      ChosenDistinct(idOf, txt, p);
      var c := Chosen(idOf, txt, html);
      var cp := Chosen(idOf, txt, p);
      if c != cp {
        assert c == cp + [x];
        forall i | 0 <= i < |c|
          ensures idOf(c[i]).Ok? && idOf(c[i]).value !in IdSet(idOf, txt)
        {
          if i < |cp| {
            assert c[i] == cp[i];
          }
        }
        forall i, j | 0 <= i < j < |c|
          ensures idOf(c[i]).value != idOf(c[j]).value
        {
          assert c[i] == cp[i];
          if j < |cp| {
            assert c[j] == cp[j];
          } else {
            assert cp[i] in p;
          }
        }
      }
    }
  }

  /** The rule as the loop applies it: an html link is written exactly when
      its id is not that of a txt link or of an html link written before. */
  lemma ChosenByWritten(idOf: IdOf, txt: seq<string>, html: seq<string>, x: string)
    requires AllIds(idOf, txt) && AllIds(idOf, html + [x]) && idOf(x).Ok?
    ensures AllIds(idOf, html) && AllIds(idOf, Chosen(idOf, txt, html))
    ensures Chosen(idOf, txt, html + [x])
         == Chosen(idOf, txt, html)
            + (if idOf(x).value in IdSet(idOf, txt) + IdSet(idOf, Chosen(idOf, txt, html)) then [] else [x])
  {
    ChosenSnoc(idOf, txt, html, x);
    var c := Chosen(idOf, txt, html);
    ChosenDistinct(idOf, txt, html);
    forall y | y in IdSet(idOf, c)
      ensures y in IdSet(idOf, html)
    {
      var i :| 0 <= i < |c| && idOf(c[i]).value == y;
      var k :| 0 <= k < |html| && html[k] == c[i];
    }
    forall y | y in IdSet(idOf, html)
      ensures y in IdSet(idOf, txt) + IdSet(idOf, c)
    {
      var k :| 0 <= k < |html| && idOf(html[k]).value == y;
      ChosenCovers(idOf, txt, html, k);
    }
  }

  /** No book is lost: the id of every html link is that of a txt link or of
      a chosen html link. */
  lemma {:induction false} ChosenCovers(idOf: IdOf, txt: seq<string>, html: seq<string>, k: nat)
    requires AllIds(idOf, txt) && AllIds(idOf, html) && k < |html|
    ensures idOf(html[k]).value in IdSet(idOf, txt)
         || exists i :: 0 <= i < |Chosen(idOf, txt, html)| && idOf(Chosen(idOf, txt, html)[i]) == idOf(html[k])
  {
    var p := html[..|html| - 1];
    var x := html[|html| - 1];
    FrontLast(html);
    ChosenSnoc(idOf, txt, p, x);
    var c := Chosen(idOf, txt, html);
    var cp := Chosen(idOf, txt, p);
    assert forall i :: 0 <= i < |cp| ==> c[i] == cp[i];
    if k < |p| {
      assert html[k] == p[k];
      ChosenCovers(idOf, txt, p, k);
    } else if idOf(x).value in IdSet(idOf, p) {
      var j :| 0 <= j < |p| && idOf(p[j]).value == idOf(x).value;
      assert html[j] == p[j];
      ChosenCovers(idOf, txt, p, j);
    } else if idOf(x).value !in IdSet(idOf, txt) {
      assert c[|cp|] == x;
    }
  }

  /** The loop over the txt links: each is written, and its id goes into
      `seen_ids`. */
  method WriteTxtLinks(idOf: IdOf, txt: seq<string>) returns (r: Result<set<string>>)
    ensures r.Ok? <==> AllIds(idOf, txt)
    ensures r.Ok? ==> r.value == IdSet(idOf, txt)
    ensures r.Err? ==> r.error == idOf(txt[FirstBad(idOf, txt)]).error
  {
    var seenIds: set<string> := {};
    for i := 0 to |txt|
      invariant AllIds(idOf, txt[..i])
      invariant seenIds == IdSet(idOf, txt[..i])
    {
      var link := txt[i];
      var id := idOf(link);
      if id.Err? {
        FirstBadAt(idOf, txt, i);
        return Err(id.error);
      }
      PrefixSnoc(txt, i);
      IdSetSnoc(idOf, txt[..i], link);
      seenIds := seenIds + {id.value};
    }
    assert txt[..|txt|] == txt;
    return Ok(seenIds);
  }

  /** The loop over the html links: a link is written when its id is not in
      `seen_ids` yet, and its id is added. */
  method WriteHtmlLinks(idOf: IdOf, txt: seq<string>, html: seq<string>, seen0: set<string>) returns (r: Result<seq<string>>)
    requires AllIds(idOf, txt) && seen0 == IdSet(idOf, txt)
    ensures r.Ok? <==> AllIds(idOf, html)
    ensures r.Ok? ==> r.value == Chosen(idOf, txt, html)
    ensures r.Err? ==> r.error == idOf(html[FirstBad(idOf, html)]).error
  {
    var out: seq<string> := [];
    var seenIds := seen0;
    for i := 0 to |html|
      invariant AllIds(idOf, html[..i])
      invariant out == Chosen(idOf, txt, html[..i])
      invariant seenIds == IdSet(idOf, txt) + IdSet(idOf, html[..i])
    {
      var link := html[i];
      var bookId := idOf(link);
      if bookId.Err? {
        FirstBadAt(idOf, html, i);
        return Err(bookId.error);
      }
      PrefixSnoc(html, i);
      IdSetSnoc(idOf, html[..i], link);
      ChosenSnoc(idOf, txt, html[..i], link);
      if bookId.value !in seenIds {
        out := out + [link];
        seenIds := seenIds + {bookId.value};
      }
    }
    assert html[..|html|] == html;
    return Ok(out);
  }

  /** Both loops of `get_aus_gutenberg_links` once the catalogue has been
      scanned: the returned lines are what it writes to `outfile`. */
  method MergeLinks(idOf: IdOf, txt: seq<string>, html: seq<string>) returns (r: Result<seq<string>>)
    ensures r == MergeResult(idOf, txt, html)
  {
    var seenIds :- WriteTxtLinks(idOf, txt);
    var chosen :- WriteHtmlLinks(idOf, txt, html, seenIds);
    return Ok(txt + chosen);
  }

  /** The merge with the ids of Project Gutenberg Australia links. */
  method MergeAusLinks(txt: seq<string>, html: seq<string>) returns (r: Result<seq<string>>)
    ensures r == MergeResult(GetIdAus, txt, html)
  {
    r := MergeLinks(GetIdAus, txt, html);
  }

  lemma IdSetSnoc(idOf: IdOf, links: seq<string>, x: string)
    requires AllIds(idOf, links) && idOf(x).Ok?
    ensures AllIds(idOf, links + [x])
    ensures IdSet(idOf, links + [x]) == IdSet(idOf, links) + {idOf(x).value}
  {
    SnocParts(links, x);
    var l := links + [x];
    forall i | 0 <= i < |l|
      ensures idOf(l[i]).Ok?
    {
      if i < |links| {
        assert l[i] == links[i];
      }
    }
    forall y | y in IdSet(idOf, links)
      ensures y in IdSet(idOf, l)
    {
      var i :| 0 <= i < |links| && idOf(links[i]).value == y;
      assert l[i] == links[i];
    }
  }

  /** A link without an id after links that all have one is the first. */
  lemma {:induction false} FirstBadAt(idOf: IdOf, links: seq<string>, k: nat)
    requires k < |links| && AllIds(idOf, links[..k]) && idOf(links[k]).Err?
    ensures !AllIds(idOf, links) && FirstBad(idOf, links) == k
  {
    if k > 0 {
      assert links[..k][0] == links[0];
      assert links[1..][..k - 1] == links[..k][1..];
      FirstBadAt(idOf, links[1..], k - 1);
    }
  }

  // ---------------------------------------------------------------------
  // to_skip

  /** `tldextract.extract`: the (subdomain, domain, suffix) of a link. */
  type Extract = string -> (string, string, string)

  /** The loop over `extensions`: some extension ends the link. */
  function EndsWithAny(link: string, extensions: seq<string>): (r: bool)
    ensures r <==> exists i :: 0 <= i < |extensions| && EndsWith(link, extensions[i])
  {
    if extensions == [] then false
    else if EndsWith(link, extensions[0]) then true
    else
      var rest := EndsWithAny(link, extensions[1..]);
      assert forall i :: 1 <= i < |extensions| ==> extensions[i] == extensions[1..][i - 1];
      rest
  }

  /** `to_skip(link, extensions, domains)`. Iterating over, or testing
      membership in, a missing list (the default None) raises TypeError.
      `raw_url` is computed and never used. */
  function ToSkip(link: string, extensions: Option<seq<string>>, domains: Option<seq<string>>, extract: Extract): Result<bool> {
    if extensions.None? then Err(TypeError)
    else if EndsWithAny(link, extensions.value) then Ok(true)
    else
      var rawUrl := GetRawUrl(link);
      var (subdomain, domain, suffix) := extract(link);
      if domains.None? then Err(TypeError)
      else
        Ok(domain in domains.value
           || domain + "." + suffix in domains.value
           || subdomain + "." + domain + "." + suffix in domains.value)
  }

  /** A link is skipped exactly when it ends with an extension, or its
      domain is listed by name, by name and suffix, or in full. */
  lemma ToSkipSpec(link: string, extensions: seq<string>, domains: seq<string>, extract: Extract)
    ensures ToSkip(link, Some(extensions), Some(domains), extract).Ok?
    ensures ToSkip(link, Some(extensions), Some(domains), extract).value <==>
      || (exists e :: e in extensions && EndsWith(link, e))
      || extract(link).1 in domains
      || extract(link).1 + "." + extract(link).2 in domains
      || extract(link).0 + "." + extract(link).1 + "." + extract(link).2 in domains
  {
    if exists e :: e in extensions && EndsWith(link, e) {
      var e :| e in extensions && EndsWith(link, e);
      var i :| 0 <= i < |extensions| && extensions[i] == e;
    }
  }

  /** The defaults raise: without extensions always, without domains unless
      an extension matches first. */
  lemma ToSkipMissing(link: string, extensions: Option<seq<string>>, domains: Option<seq<string>>, extract: Extract)
    ensures ToSkip(link, None, domains, extract) == Err(TypeError)
    ensures extensions.Some? ==>
      (ToSkip(link, extensions, None, extract) == Err(TypeError)
       <==> forall e :: e in extensions.value ==> !EndsWith(link, e))
  {
    if extensions.Some? && exists e :: e in extensions.value && EndsWith(link, e) {
      var e :| e in extensions.value && EndsWith(link, e);
      var i :| 0 <= i < |extensions.value| && extensions.value[i] == e;
    }
  }

  /** `raw_url` plays no part: two links that end alike and extract alike are
      skipped alike, whatever their raw URLs. */
  lemma ToSkipIgnoresRawUrl(a: string, b: string, extensions: seq<string>, domains: Option<seq<string>>, extract: Extract)
    requires forall e :: e in extensions ==> (EndsWith(a, e) <==> EndsWith(b, e))
    requires extract(a) == extract(b)
    ensures ToSkip(a, Some(extensions), domains, extract) == ToSkip(b, Some(extensions), domains, extract)
  {
    forall i | 0 <= i < |extensions|
      ensures EndsWith(a, extensions[i]) <==> EndsWith(b, extensions[i])
    {
      assert extensions[i] in extensions;
    }
  }
}
