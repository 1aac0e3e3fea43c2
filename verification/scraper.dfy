/** `scrape_video_links`: the links of a page whose target ends in a video
    suffix, each paired with the absolute URL and a sanitised file name.
    Fetching and parsing the page are not modelled: the page is given as the
    `href` attributes of its anchors in document order (`None` for an anchor
    without one), or as the text of the error the fetch raised. `urljoin` is
    given as the parameter `join`. */
module Scraper {
  import opened Wrappers
  import opened Text
  import opened PosixPath
  import opened Sanitize

  /** `suff_list`, compared case-sensitively by `str.endswith`. */
  const SuffList: seq<string> := [".avi", ".mpg", ".mkv", ".flv", ".mp4"]

  predicate HasVideoSuffix(href: string) {
    exists i :: 0 <= i < |SuffList| && EndsWith(href, SuffList[i])
  }

  /** `a.get('href', '')`. */
  function HrefOf(anchor: Option<string>): string {
    if anchor.Some? then anchor.value else ""
  }

  /** The anchor is one the comprehension keeps. */
  predicate IsVideoAnchor(anchor: Option<string>) {
    HasVideoSuffix(HrefOf(anchor))
  }

  /** The hrefs the comprehension keeps, in document order. */
  function Kept(anchors: seq<Option<string>>): (hrefs: seq<string>)
    ensures |hrefs| <= |anchors|
    ensures forall h :: h in hrefs ==> HasVideoSuffix(h)
  {
    if anchors == [] then []
    else (if IsVideoAnchor(anchors[0]) then [anchors[0].value] else []) + Kept(anchors[1..])
  }

  /** One entry of the `videos` list. */
  datatype Link = Link(url: string, filename: string)

  /** The entry made for a kept href: `urljoin` against the page, and the
      sanitised text after the last `/` (`href.split('/')[-1]`). */
  function LinkFor(pageUrl: string, href: string, join: (string, string) -> string): (link: Link)
    ensures NoForbidden(link.filename) && '/' !in link.filename
  {
    var name := SanitizeFilename(Basename(href));
    assert '/' !in name by {
      assert forall c :: c in name ==> !Forbidden(c);
    }
    Link(join(pageUrl, href), name)
  }

  function Links(pageUrl: string, hrefs: seq<string>, join: (string, string) -> string): (links: seq<Link>)
    ensures |links| == |hrefs|
    ensures forall i :: 0 <= i < |hrefs| ==> links[i] == LinkFor(pageUrl, hrefs[i], join)
  {
    if hrefs == [] then [] else [LinkFor(pageUrl, hrefs[0], join)] + Links(pageUrl, hrefs[1..], join)
  }

  /** `scrape_video_links`: an error of the fetch is returned as its text;
      otherwise one link per kept anchor, in document order. */
  function ScrapeVideoLinks(pageUrl: string, page: Result<seq<Option<string>>, string>,
                            join: (string, string) -> string): (r: Result<seq<Link>, string>)
  {
    match page
    case Failure(e) => Failure(e)
    case Success(anchors) => Success(Links(pageUrl, Kept(anchors), join))
  }

  // ---------------------------------------------------------------------
  // Properties of the filter
  // ---------------------------------------------------------------------

  /** The filter works anchor by anchor: filtering a concatenation filters
      each part and keeps their order. */
  lemma {:induction false} KeptAppend(a: seq<Option<string>>, b: seq<Option<string>>)
    ensures Kept(a + b) == Kept(a) + Kept(b)
  {
    if a == [] {
      assert a + b == b;
    } else {
      assert (a + b)[1..] == a[1..] + b;
      assert (a + b)[0] == a[0];
      KeptAppend(a[1..], b);
    }
  }

  /** A single anchor is kept exactly when its href ends in a video suffix. */
  lemma KeptSingle(anchor: Option<string>)
    ensures Kept([anchor]) == if IsVideoAnchor(anchor) then [anchor.value] else []
  {
    assert [anchor][1..] == [];
  }

  /** An href is among those kept exactly when some anchor carries it and it
      ends in a video suffix. */
  lemma KeptExactly(anchors: seq<Option<string>>, href: string)
    ensures href in Kept(anchors) <==>
      HasVideoSuffix(href) && exists i :: 0 <= i < |anchors| && anchors[i] == Some(href)
  {
    if href in Kept(anchors) {
      var i := KeptFrom(anchors, href);
    }
    if HasVideoSuffix(href) && exists i :: 0 <= i < |anchors| && anchors[i] == Some(href) {
      var i :| 0 <= i < |anchors| && anchors[i] == Some(href);
      AnchorKept(anchors, i);
    }
  }

  /** Every kept href comes from an anchor: the index of one is returned. */
  lemma {:induction false} KeptFrom(anchors: seq<Option<string>>, href: string) returns (i: nat)
    requires href in Kept(anchors)
    ensures i < |anchors| && anchors[i] == Some(href)
  {
    if IsVideoAnchor(anchors[0]) && href == anchors[0].value {
      i := 0;
    } else {
      var j := KeptFrom(anchors[1..], href);
      i := j + 1;
    }
  }

  /** An anchor whose href ends in a video suffix is kept. */
  lemma AnchorKept(anchors: seq<Option<string>>, i: nat)
    requires i < |anchors| && anchors[i].Some? && HasVideoSuffix(anchors[i].value)
    ensures anchors[i].value in Kept(anchors)
  {
    var before, after := anchors[..i], anchors[i + 1..];
    assert anchors == before + ([anchors[i]] + after);
    KeptAppend(before, [anchors[i]] + after);
    KeptAppend([anchors[i]], after);
    KeptSingle(anchors[i]);
  }

  /** The suffix test is case-sensitive: an upper-case extension is dropped. */
  lemma UpperCaseSuffixDropped()
    ensures Kept([Some("clip.MP4")]) == []
  {
    KeptSingle(Some("clip.MP4"));
    assert !EndsWith("clip.MP4", ".mp4") by {
      assert "clip.MP4"[7] == '4';
      assert "clip.MP4"[6] != ".mp4"[2];
    }
    forall i | 0 <= i < |SuffList|
      ensures !EndsWith("clip.MP4", SuffList[i])
    {
      assert "clip.MP4"[|"clip.MP4"| - 1] == '4';
      if i < 4 {
        assert SuffList[i][|SuffList[i]| - 1] != '4';
      }
    }
  }

  /** An anchor without an href is dropped. */
  lemma MissingHrefDropped()
    ensures Kept([None]) == []
  {
    KeptSingle(None);
    assert HrefOf(None) == "";
  }

  // ---------------------------------------------------------------------
  // Properties of the result
  // ---------------------------------------------------------------------

  /** A failed fetch gives its error text; a page gives one link per video
      anchor, in document order, whose URL is joined against the page and
      whose file name is sanitised and free of forbidden characters. */
  lemma ScrapeResultShape(pageUrl: string, page: Result<seq<Option<string>>, string>,
                          join: (string, string) -> string)
    ensures ScrapeVideoLinks(pageUrl, page, join).Failure? <==> page.Failure?
    ensures page.Failure? ==> ScrapeVideoLinks(pageUrl, page, join).error == page.error
    ensures page.Success? ==>
      var links := ScrapeVideoLinks(pageUrl, page, join).value;
      var hrefs := Kept(page.value);
      && |links| == |hrefs|
      && forall i :: 0 <= i < |links| ==>
           && links[i].url == join(pageUrl, hrefs[i])
           && links[i].filename == SanitizeFilename(Basename(hrefs[i]))
           && NoForbidden(links[i].filename)
  {
  }

  /** Scraping a page made of two runs of anchors scrapes each run. */
  lemma ScrapeSplits(pageUrl: string, a: seq<Option<string>>, b: seq<Option<string>>,
                     join: (string, string) -> string)
    ensures ScrapeVideoLinks(pageUrl, Success(a + b), join).value
         == ScrapeVideoLinks(pageUrl, Success(a), join).value + ScrapeVideoLinks(pageUrl, Success(b), join).value
  {
    KeptAppend(a, b);
    LinksAppend(pageUrl, Kept(a), Kept(b), join);
  }

  lemma LinksAppend(pageUrl: string, x: seq<string>, y: seq<string>, join: (string, string) -> string)
    ensures Links(pageUrl, x + y, join) == Links(pageUrl, x, join) + Links(pageUrl, y, join)
  {
    var l := Links(pageUrl, x + y, join);
    var r := Links(pageUrl, x, join) + Links(pageUrl, y, join);
    assert |l| == |r|;
    forall i | 0 <= i < |l|
      ensures l[i] == r[i]
    {
      if i < |x| {
        assert (x + y)[i] == x[i];
      } else {
        assert (x + y)[i] == y[i - |x|];
      }
    }
  }
}
