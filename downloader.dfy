/** The PDF downloader (pubmed_download.py:30-208): for each PMID it skips a
    PDF already on disk, fetches the record, collects the record's
    identifiers and tries the DOI, PII and PMC routes in that order, each a
    fixed list of candidate URLs.

    The network is a set of oracles (`Web`) and the disk a set of file
    paths. `World` also keeps the URLs handed to `download`, in order, so
    that the order of attempts and the short-circuits can be stated. */
module Downloader {
  import opened Wrappers
  import opened PyBuiltins
  import opened Mapper

  /** How PyPDF2 takes the file just written. */
  datatype PdfCheck = Parsed | ValueRaised | OtherRaised

  /** `requests.get(url)`: an exception, or a status code with the body's
      fate under PyPDF2. */
  datatype Response = Unanswered | Answered(status: int, check: PdfCheck)

  /** The network: `get` answers `requests.get`, `link` gives the PDF link
      scraped from a page (None when the page cannot be fetched or has no
      such link), `efetch` answers the registry. */
  datatype Web = Web(get: string -> Response, link: string -> Option<string>, efetch: string -> Reply)

  /** The files on disk and the URLs passed to `download` so far. */
  datatype World = World(files: set<string>, requests: seq<string>)

  /** `os.path.basename`: what follows the last '/'. */
  function BaseName(p: string): (r: string)
    ensures |r| <= |p| && r == p[|p| - |r|..]
    ensures '/' !in r
    ensures '/' !in p ==> r == p
    decreases |p|
  {
    if p == [] then []
    else if p[|p| - 1] == '/' then []
    else BaseName(p[..|p| - 1]) + [p[|p| - 1]]
  }

  /** The base name is the whole path or starts right after a '/': with
      the contract of `BaseName`, the part after the last '/'. */
  lemma {:induction false} BaseNameAfterSlash(p: string)
    ensures var r := BaseName(p); |r| < |p| ==> p[|p| - |r| - 1] == '/'
    decreases |p|
  {
    if p != [] && p[|p| - 1] != '/' {
      BaseNameAfterSlash(p[..|p| - 1]);
    }
  }

  /** `os.path.join(a, b)`: an absolute `b` replaces `a`; a separator is
      added unless `a` is empty or already ends with one. */
  function PathJoin(a: string, b: string): (r: string)
    ensures |b| <= |r| && r[|r| - |b|..] == b
    ensures (b == [] || b[0] != '/') ==> |a| <= |r| && r[..|a|] == a
  {
    if |b| > 0 && b[0] == '/' then b
    else if a == [] || a[|a| - 1] == '/' then a + b
    else a + "/" + b
  }

  /** Where `download` writes the PDF of `pmid`. */
  function DownloadPath(storePath: string, pmid: string): string {
    storePath + "/" + BaseName(pmid) + ".pdf"
  }

  /** Where `check_downloaded` looks for it. */
  function CheckPath(storePath: string, pmid: string): string {
    PathJoin(storePath, pmid + ".pdf")
  }

  /** For a PMID without '/' and a store path that neither is empty nor ends
      with '/', `check_downloaded` looks exactly where `download` writes. */
  lemma SamePath(storePath: string, pmid: string)
    requires '/' !in pmid && storePath != [] && storePath[|storePath| - 1] != '/'
    ensures DownloadPath(storePath, pmid) == CheckPath(storePath, pmid)
  {
    var name := pmid + ".pdf";
    assert name[0] != '/' by {
      if pmid != [] {
        assert name[0] == pmid[0];
      }
    }
    assert CheckPath(storePath, pmid) == storePath + "/" + name;
    assert BaseName(pmid) == pmid;
    assert storePath + "/" + pmid + ".pdf" == storePath + "/" + name;
  }

  /** A path as the file system resolves it: a run of '/' names what a
      single '/' names. */
  function Canon(p: string): (r: string)
    ensures |r| <= |p|
    ensures p != [] ==> r != [] && r[|r| - 1] == p[|p| - 1]
    decreases |p|
  {
    if |p| < 2 then p
    else if p[|p| - 1] == '/' && p[|p| - 2] == '/' then Canon(p[..|p| - 1])
    else Canon(p[..|p| - 1]) + [p[|p| - 1]]
  }

  /** No two '/' side by side. */
  predicate SingleSlashes(p: string) {
    forall i :: 0 <= i < |p| - 1 ==> !(p[i] == '/' && p[i + 1] == '/')
  }

  /** The resolved spelling has no run of '/', and a spelling without one
      is already resolved. */
  lemma {:induction false} CanonShape(p: string)
    ensures SingleSlashes(Canon(p))
    ensures SingleSlashes(p) ==> Canon(p) == p
    decreases |p|
  {
    if |p| >= 2 {
      var q := p[..|p| - 1];
      CanonShape(q);
      assert SingleSlashes(p) ==> SingleSlashes(q) by {
        if SingleSlashes(p) {
          forall i | 0 <= i < |q| - 1 ensures !(q[i] == '/' && q[i + 1] == '/') {
            assert q[i] == p[i] && q[i + 1] == p[i + 1];
          }
        }
      }
      if !(p[|p| - 1] == '/' && p[|p| - 2] == '/') {
        var c := Canon(q);
        var r := c + [p[|p| - 1]];
        forall i | 0 <= i < |r| - 1 ensures !(r[i] == '/' && r[i + 1] == '/') {
          if i + 1 == |r| - 1 {
            assert r[i] == c[|c| - 1] == p[|p| - 2];
          } else {
            assert r[i] == c[i] && r[i + 1] == c[i + 1];
          }
        }
        if SingleSlashes(p) {
          assert q + [p[|p| - 1]] == p;
        }
      } else {
        assert !SingleSlashes(p) by {
          assert p[|p| - 2] == '/' && p[|p| - 1] == '/';
        }
      }
    }
  }

  /** Resolving a path one character longer. */
  lemma CanonStep(x: string, c: char)
    ensures Canon(x + [c]) == if x != [] && c == '/' && x[|x| - 1] == '/' then Canon(x) else Canon(x) + [c]
  {
    assert (x + [c])[..|x|] == x;
  }

  lemma CanonSameLast(x: string, y: string, c: char)
    requires x != [] && y != [] && x[|x| - 1] == y[|y| - 1] && Canon(x) == Canon(y)
    ensures Canon(x + [c]) == Canon(y + [c])
  {
    CanonStep(x, c);
    CanonStep(y, c);
  }

  /** After a '/', one more '/' resolves to nothing. */
  lemma {:induction false} CanonDropsSlash(a: string, b: string)
    requires a != [] && a[|a| - 1] == '/'
    ensures Canon(a + "/" + b) == Canon(a + b)
    decreases |b|
  {
    if b == [] {
      CanonStep(a, '/');
      assert a + "/" + b == a + "/" && a + b == a;
    } else {
      var b' := b[..|b| - 1];
      var c := b[|b| - 1];
      var x := a + "/" + b';
      var y := a + b';
      CanonDropsSlash(a, b');
      if b' == [] {
        assert x == a + "/" && y == a;
      } else {
        assert x[|x| - 1] == b'[|b'| - 1] == y[|y| - 1];
      }
      assert b == b' + [c];
      assert a + "/" + b == x + [c];
      assert a + b == y + [c];
      CanonSameLast(x, y, c);
    }
  }

  /** For a PMID without '/' and a store path that is not empty,
      `check_downloaded` finds the file `download` writes: the two
      spellings resolve to the same file, even with a trailing '/'. */
  lemma SameFile(storePath: string, pmid: string)
    requires '/' !in pmid && storePath != []
    ensures Canon(DownloadPath(storePath, pmid)) == Canon(CheckPath(storePath, pmid))
  {
    if storePath[|storePath| - 1] != '/' {
      SamePath(storePath, pmid);
    } else {
      CanonDropsSlash(storePath, pmid + ".pdf");
      assert DownloadPath(storePath, pmid) == storePath + "/" + (pmid + ".pdf");
    }
  }

  /** `os.path.exists(p) and os.path.isfile(p)`: some file on disk resolves
      to where `p` does. */
  predicate OnDisk(w: World, p: string) {
    exists f :: f in w.files && Canon(f) == Canon(p)
  }

  /** `download` reports success for a 200 whose body PyPDF2 reads or
      rejects with `ValueError`. */
  predicate Accepts(r: Response) {
    r.Answered? && r.status == 200 && !r.check.OtherRaised?
  }

  /** `download(pmid, url)` with the PDF written to `path`. */
  function Fetch(w: World, path: string, url: string, web: Web): (r: (bool, World))
    ensures r.0 == Accepts(web.get(url))
    ensures web.get(url).Answered? && web.get(url).status == 200 ==>
      (path in r.1.files <==> r.0) && r.1.files - {path} == w.files - {path}
    ensures !(web.get(url).Answered? && web.get(url).status == 200) ==> r.1.files == w.files
  {
    var sent := w.(requests := w.requests + [url]);
    match web.get(url)
    case Unanswered => (false, sent)
    case Answered(status, check) =>
      if status != 200 then (false, sent)
      else if check.OtherRaised? then (false, sent.(files := w.files - {path}))
      else (true, sent.(files := w.files + {path}))
  }

  /** Every call of `download` is recorded, in order. */
  lemma FetchRecords(w: World, path: string, url: string, web: Web)
    ensures Fetch(w, path, url, web).1.requests == w.requests + [url]
  {
  }

  /** The candidates handed to `download` by a loop that stops after the
      first success: every URL up to and including the first accepted
      one. */
  function Tried(urls: seq<string>, web: Web): (r: seq<string>)
    ensures |r| <= |urls| && r == urls[..|r|]
    ensures forall i :: 0 <= i < |r| - 1 ==> !Accepts(web.get(urls[i]))
    ensures |r| < |urls| ==> |r| > 0 && Accepts(web.get(urls[|r| - 1]))
    decreases |urls|
  {
    if urls == [] then []
    else if Accepts(web.get(urls[0])) then [urls[0]]
    else [urls[0]] + Tried(urls[1..], web)
  }

  /** `for url in urls: if not status: status = download(pmid, url)
      else: break` */
  function TryInOrder(urls: seq<string>, status: bool, w: World, path: string, web: Web): (bool, World)
    decreases |urls|
  {
    if urls == [] || status then (status, w)
    else
      var step := Fetch(w, path, urls[0], web);
      TryInOrder(urls[1..], step.0, step.1, path, web)
  }

  /** One turn of the candidate loop, from position `i`. */
  lemma TryInOrderStep(urls: seq<string>, i: int, status: bool, w: World, path: string, web: Web)
    requires 0 <= i < |urls|
    ensures status ==> TryInOrder(urls[i..], status, w, path, web) == (status, w)
    ensures !status ==>
      TryInOrder(urls[i..], status, w, path, web)
      == TryInOrder(urls[i + 1..], Fetch(w, path, urls[i], web).0, Fetch(w, path, urls[i], web).1, path, web)
  {
    assert urls[i..][0] == urls[i] && urls[i..][1..] == urls[i + 1..];
  }

  /** Starting from failure, the loop succeeds exactly when one candidate
      is accepted, and it hands `download` the candidates in list order up
      to the first accepted one. */
  lemma {:induction false} TryInOrderSpec(urls: seq<string>, w: World, path: string, web: Web)
    ensures TryInOrder(urls, false, w, path, web).0 <==> exists i :: 0 <= i < |urls| && Accepts(web.get(urls[i]))
    ensures TryInOrder(urls, false, w, path, web).1.requests == w.requests + Tried(urls, web)
    decreases |urls|
  {
    if urls != [] {
      var step := Fetch(w, path, urls[0], web);
      FetchRecords(w, path, urls[0], web);
      if !step.0 {
        TryInOrderSpec(urls[1..], step.1, path, web);
        if exists i :: 0 <= i < |urls| && Accepts(web.get(urls[i])) {
          var i :| 0 <= i < |urls| && Accepts(web.get(urls[i]));
          assert urls[1..][i - 1] == urls[i];
        }
      }
    }
  }

  /** A success leaves the PDF on disk: the loop keeps a file that is there
      when it starts successful, and a success inside it writes one. */
  lemma {:induction false} TryInOrderKeepsFile(urls: seq<string>, status: bool, w: World, path: string, web: Web)
    requires status ==> path in w.files
    ensures TryInOrder(urls, status, w, path, web).0 ==> path in TryInOrder(urls, status, w, path, web).1.files
    decreases |urls|
  {
    if urls != [] && !status {
      var step := Fetch(w, path, urls[0], web);
      TryInOrderKeepsFile(urls[1..], step.0, step.1, path, web);
    }
  }

  /** The DOI loop: `for url in urls: if not status: download(pmid,
      url.strip()) else: break`. The result of `download` is dropped, so
      `status` never changes inside the loop. */
  function Sweep(urls: seq<string>, status: bool, w: World, path: string, web: Web): World
    decreases |urls|
  {
    if urls == [] || status then w
    else Sweep(urls[1..], status, Fetch(w, path, Strip(urls[0]), web).1, path, web)
  }

  /** One turn of the DOI loop, from position `i`. */
  lemma SweepStep(urls: seq<string>, i: int, status: bool, w: World, path: string, web: Web)
    requires 0 <= i < |urls|
    ensures status ==> Sweep(urls[i..], status, w, path, web) == w
    ensures !status ==>
      Sweep(urls[i..], status, w, path, web)
      == Sweep(urls[i + 1..], status, Fetch(w, path, Strip(urls[i]), web).1, path, web)
  {
    assert urls[i..][0] == urls[i] && urls[i..][1..] == urls[i + 1..];
  }

  /** The candidates of the DOI loop as handed to `download`. */
  function Stripped(urls: seq<string>): (r: seq<string>)
    ensures |r| == |urls|
    ensures forall i :: 0 <= i < |urls| ==> r[i] == Strip(urls[i])
  {
    seq(|urls|, i requires 0 <= i < |urls| => Strip(urls[i]))
  }

  lemma StrippedCons(urls: seq<string>)
    requires urls != []
    ensures Stripped(urls) == [Strip(urls[0])] + Stripped(urls[1..])
  {
    assert Stripped(urls)[1..] == Stripped(urls[1..]);
  }

  /** After a failure every candidate is handed to `download`, whatever
      the earlier ones returned; after a success none is. */
  lemma {:induction false} SweepSpec(urls: seq<string>, status: bool, w: World, path: string, web: Web)
    ensures status ==> Sweep(urls, status, w, path, web) == w
    ensures !status ==> Sweep(urls, status, w, path, web).requests == w.requests + Stripped(urls)
    decreases |urls|
  {
    if urls != [] && !status {
      var next := Fetch(w, path, Strip(urls[0]), web).1;
      FetchRecords(w, path, Strip(urls[0]), web);
      SweepSpec(urls[1..], status, next, path, web);
      StrippedCons(urls);
    }
  }

  const SCI_HUB := "https://sci-hub.ren/"
  const PMC_HOST := "https://www.ncbi.nlm.nih.gov"

  /** The page scraped for a PMC id. */
  function PmcPage(pmc: string): string {
    PMC_HOST + "/pmc/articles/" + pmc
  }

  /** The thirteen fixed DOI candidates, the Wiley one twice. */
  function DoiUrls(doi: string): (r: seq<string>)
    ensures |r| == 13 && r[3] == r[7]
  {
    [ "https://sci-hub.wf/" + doi,
      "https://sci/bban/top/" + doi + ".pdf#view=FitH",
      "https://www.spandidos-publications.com/" + doi + "/download",
      "https://onlinelibrary.wiley.com/doi/pdfdirect/" + doi,
      "https://jeccr.biomedcentral.com/track/pdf/" + doi,
      "https://www.frontiersin.org/articles/" + doi + "/pdf",
      "https://journals.plos.org/plosone/article/file?id=" + doi + "&type=printable",
      "https://onlinelibrary.wiley.com/doi/pdfdirect/" + doi,
      "https://www.tandfonline.com/doi/pdf/" + doi + "?needAccess=true",
      "https://immunityageing.biomedcentral.com/track/pdf/" + doi,
      "https://pubs.acs.org/doi/pdf/" + doi,
      "https://journals.sagepub.com/doi/pdf/" + doi,
      "https://www.futuremedicine.com/doi/epub/" + doi ]
  }

  function PiiUrls(pii: string): (r: seq<string>)
    ensures |r| == 3
  {
    [ "https://www.jto.org/action/showPdf?pii=" + pii,
      "https://www.jto.org/article/" + pii + "/pdf",
      "https://www.oncotarget.com/article/" + pii + "/pdf/" ]
  }

  function PmcUrls(pmc: string): (r: seq<string>)
    ensures |r| == 1
  {
    ["http://europepmc.org/articles/" + Lower(pmc) + "?pdf=render"]
  }

  /** A scraped link gets the `https:` scheme unless it already mentions
      it. */
  function WithScheme(link: string): (r: string)
    ensures Contains(r, "https:")
  {
    if Contains(link, "https:") then link
    else
      ContainsPrefix("https:", link);
      "https:" + link
  }

  /** `search_by_doi(pmid, doi)` */
  function SearchDoi(w: World, path: string, doi: string, web: Web): (bool, World) {
    var link := web.link(SCI_HUB + doi);
    var first := if link.Some? then Fetch(w, path, WithScheme(link.value), web) else (false, w);
    (first.0, Sweep(DoiUrls(doi), first.0, first.1, path, web))
  }

  /** `search_by_pii(pmid, pii)` */
  function SearchPii(w: World, path: string, pii: string, web: Web): (bool, World) {
    TryInOrder(PiiUrls(pii), false, w, path, web)
  }

  /** `search_by_pmc(pmid, pmc)` */
  function SearchPmc(w: World, path: string, pmc: string, web: Web): (bool, World) {
    var link := web.link(PmcPage(pmc));
    var first := if link.Some? then Fetch(w, path, PMC_HOST + link.value, web) else (false, w);
    TryInOrder(PmcUrls(pmc), first.0, first.1, path, web)
  }

  /** The DOI route reports only the scraped link's download: when that
      fails, all thirteen candidates are downloaded in order and the route
      still reports failure, even if one of them was accepted. */
  lemma DoiStatusIsScrapeOnly(w: World, path: string, doi: string, web: Web)
    ensures var link := web.link(SCI_HUB + doi);
      var r := SearchDoi(w, path, doi, web);
      && (r.0 <==> link.Some? && Accepts(web.get(WithScheme(link.value))))
      && (r.0 ==> r.1.requests == w.requests + [WithScheme(link.value)])
      && (!r.0 && link.None? ==> r.1.requests == w.requests + Stripped(DoiUrls(doi)))
      && (!r.0 && link.Some? ==> r.1.requests == w.requests + [WithScheme(link.value)] + Stripped(DoiUrls(doi)))
      && (r.0 ==> path in r.1.files)
  {
    var link := web.link(SCI_HUB + doi);
    var first := if link.Some? then Fetch(w, path, WithScheme(link.value), web) else (false, w);
    if link.Some? {
      FetchRecords(w, path, WithScheme(link.value), web);
    }
    SweepSpec(DoiUrls(doi), first.0, first.1, path, web);
  }

  /** The PII route tries its three URLs in order, stops at the first
      accepted one, and succeeds exactly when one is accepted. */
  lemma PiiInOrder(w: World, path: string, pii: string, web: Web)
    ensures SearchPii(w, path, pii, web).0 <==> exists i :: 0 <= i < 3 && Accepts(web.get(PiiUrls(pii)[i]))
    ensures SearchPii(w, path, pii, web).1.requests == w.requests + Tried(PiiUrls(pii), web)
    ensures SearchPii(w, path, pii, web).0 ==> path in SearchPii(w, path, pii, web).1.files
  {
    TryInOrderSpec(PiiUrls(pii), w, path, web);
    TryInOrderKeepsFile(PiiUrls(pii), false, w, path, web);
  }

  /** The PMC route tries the scraped link first and falls back to Europe
      PMC, under the lower-cased id, only when that fails or the page gives
      no link. */
  lemma PmcFallback(w: World, path: string, pmc: string, web: Web)
    ensures var link := web.link(PmcPage(pmc));
      var r := SearchPmc(w, path, pmc, web);
      var fallback := "http://europepmc.org/articles/" + Lower(pmc) + "?pdf=render";
      var scraped := if link.Some? then [PMC_HOST + link.value] else [];
      && (link.Some? && Accepts(web.get(PMC_HOST + link.value)) ==> r.0 && r.1.requests == w.requests + scraped)
      && (!(link.Some? && Accepts(web.get(PMC_HOST + link.value))) ==>
            (r.0 <==> Accepts(web.get(fallback))) && r.1.requests == w.requests + scraped + [fallback])
      && (r.0 ==> path in r.1.files)
  {
    var link := web.link(PmcPage(pmc));
    var first := if link.Some? then Fetch(w, path, PMC_HOST + link.value, web) else (false, w);
    if link.Some? {
      FetchRecords(w, path, PMC_HOST + link.value, web);
    }
    TryInOrderKeepsFile(PmcUrls(pmc), first.0, first.1, path, web);
    if !first.0 {
      TryInOrderSpec(PmcUrls(pmc), first.1, path, web);
    }
  }

  /** A change of the world by a route: only the PMID's file may change,
      and requests are only appended. */
  predicate Touches(w: World, w': World, path: string) {
    w'.files - {path} == w.files - {path} && w.requests <= w'.requests
  }

  lemma {:induction false} TryInOrderTouches(urls: seq<string>, status: bool, w: World, path: string, web: Web)
    ensures Touches(w, TryInOrder(urls, status, w, path, web).1, path)
    decreases |urls|
  {
    if urls != [] && !status {
      var step := Fetch(w, path, urls[0], web);
      TryInOrderTouches(urls[1..], step.0, step.1, path, web);
    }
  }

  lemma {:induction false} SweepTouches(urls: seq<string>, status: bool, w: World, path: string, web: Web)
    ensures Touches(w, Sweep(urls, status, w, path, web), path)
    decreases |urls|
  {
    if urls != [] && !status {
      SweepTouches(urls[1..], status, Fetch(w, path, Strip(urls[0]), web).1, path, web);
    }
  }

  lemma TouchesTrans(a: World, b: World, c: World, path: string)
    requires Touches(a, b, path) && Touches(b, c, path)
    ensures Touches(a, c, path)
  {
  }

  /** The search over the three routes writes no file but the PMID's own
      and only appends to the requests. */
  lemma RoutesTouchOnlyPath(w: World, path: string, d: map<Option<string>, Option<string>>, web: Web)
    ensures Touches(w, SearchIds(w, path, d, web).1, path)
  {
    var doi := IdOf(d, "doi");
    var pii := IdOf(d, "pii");
    var pmc := IdOf(d, "pmc");
    var afterDoi := if Truthy(doi) then SearchDoi(w, path, Strip(doi.value), web).1 else w;
    if Truthy(doi) {
      DoiTouches(w, path, Strip(doi.value), web);
    }
    var afterPii := if Truthy(pii) then SearchPii(afterDoi, path, Strip(pii.value), web).1 else afterDoi;
    if Truthy(pii) {
      TryInOrderTouches(PiiUrls(Strip(pii.value)), false, afterDoi, path, web);
      TouchesTrans(w, afterDoi, afterPii, path);
    }
    if Truthy(pmc) {
      PmcTouches(afterPii, path, Strip(pmc.value), web);
      TouchesTrans(w, afterPii, SearchPmc(afterPii, path, Strip(pmc.value), web).1, path);
    }
  }

  lemma DoiTouches(w: World, path: string, doi: string, web: Web)
    ensures Touches(w, SearchDoi(w, path, doi, web).1, path)
  {
    var link := web.link(SCI_HUB + doi);
    var first := if link.Some? then Fetch(w, path, WithScheme(link.value), web) else (false, w);
    SweepTouches(DoiUrls(doi), first.0, first.1, path, web);
  }

  lemma PmcTouches(w: World, path: string, pmc: string, web: Web)
    ensures Touches(w, SearchPmc(w, path, pmc, web).1, path)
  {
    var link := web.link(PmcPage(pmc));
    var first := if link.Some? then Fetch(w, path, PMC_HOST + link.value, web) else (false, w);
    TryInOrderTouches(PmcUrls(pmc), first.0, first.1, path, web);
  }

  /** `ids_dict`: `ids_dict.update({k.id_type: k.id_value})` for each
      identifier in turn. */
  function IdMap(ids: seq<ArticleId>): map<Option<string>, Option<string>>
    decreases |ids|
  {
    if ids == [] then map[]
    else IdMap(ids[..|ids| - 1])[ids[|ids| - 1].idType := ids[|ids| - 1].idValue]
  }

  /** A type is in the map exactly when some identifier has it. */
  lemma {:induction false} IdMapKeys(ids: seq<ArticleId>, kind: Option<string>)
    ensures kind in IdMap(ids) <==> exists i :: 0 <= i < |ids| && ids[i].idType == kind
    decreases |ids|
  {
    if ids != [] {
      var n := |ids| - 1;
      IdMapKeys(ids[..n], kind);
      if ids[n].idType != kind {
        if exists i :: 0 <= i < |ids| && ids[i].idType == kind {
          var i :| 0 <= i < |ids| && ids[i].idType == kind;
          assert ids[..n][i] == ids[i];
        }
        if kind in IdMap(ids[..n]) {
          var i :| 0 <= i < n && ids[..n][i].idType == kind;
          assert ids[i].idType == kind;
        }
      }
    }
  }

  /** The last identifier of a type gives that type's value. */
  lemma {:induction false} IdMapLast(ids: seq<ArticleId>, kind: Option<string>, j: nat)
    requires j < |ids| && ids[j].idType == kind
    requires forall i :: j < i < |ids| ==> ids[i].idType != kind
    ensures kind in IdMap(ids) && IdMap(ids)[kind] == ids[j].idValue
    decreases |ids|
  {
    var n := |ids| - 1;
    if j < n {
      IdMapLast(ids[..n], kind, j);
    }
  }

  /** A type is in the map exactly when some identifier has it, and the
      last identifier of that type gives the value. */
  lemma LastIdWins(ids: seq<ArticleId>, kind: Option<string>)
    ensures kind in IdMap(ids) <==> exists i :: 0 <= i < |ids| && ids[i].idType == kind
    ensures forall j :: 0 <= j < |ids| && ids[j].idType == kind && (forall i :: j < i < |ids| ==> ids[i].idType != kind) ==> IdMap(ids)[kind] == ids[j].idValue
  {
    IdMapKeys(ids, kind);
    forall j | 0 <= j < |ids| && ids[j].idType == kind && (forall i :: j < i < |ids| ==> ids[i].idType != kind)
      ensures IdMap(ids)[kind] == ids[j].idValue
    {
      IdMapLast(ids, kind, j);
    }
  }

  /** The loop that builds `ids_dict`. */
  method BuildIdMap(ids: seq<ArticleId>) returns (d: map<Option<string>, Option<string>>)
    ensures d == IdMap(ids)
  {
    d := map[];
    for i := 0 to |ids|
      invariant d == IdMap(ids[..i])
    {
      d := d[ids[i].idType := ids[i].idValue];
      assert ids[..i + 1][..i] == ids[..i];
    }
    assert ids[..|ids|] == ids;
  }

  /** `ids_dict.get(kind, None)` */
  function IdOf(d: map<Option<string>, Option<string>>, kind: string): Option<string> {
    if Some(kind) in d then d[Some(kind)] else None
  }

  /** The three routes in the order DOI, PII, PMC, each only when its
      identifier is present and not empty, each with the stripped value,
      stopping at the first that reports success. */
  function SearchIds(w: World, path: string, d: map<Option<string>, Option<string>>, web: Web): (bool, World) {
    var doi := IdOf(d, "doi");
    var pii := IdOf(d, "pii");
    var pmc := IdOf(d, "pmc");
    var byDoi := if Truthy(doi) then SearchDoi(w, path, Strip(doi.value), web) else (false, w);
    if byDoi.0 then byDoi
    else
      var byPii := if Truthy(pii) then SearchPii(byDoi.1, path, Strip(pii.value), web) else (false, byDoi.1);
      if byPii.0 then byPii
      else if Truthy(pmc) then SearchPmc(byPii.1, path, Strip(pmc.value), web) else (false, byPii.1)
  }

  /** A route that reports success ends the search: nothing after it is
      requested. When DOI and PII fail or are skipped, PMC decides, starting
      from the state they left. A search that reports success leaves the PDF
      on disk. */
  lemma RoutesInOrder(w: World, path: string, d: map<Option<string>, Option<string>>, web: Web)
    ensures var doi := IdOf(d, "doi");
      Truthy(doi) && SearchDoi(w, path, Strip(doi.value), web).0 ==>
        SearchIds(w, path, d, web) == SearchDoi(w, path, Strip(doi.value), web)
    ensures var doi := IdOf(d, "doi");
      var pii := IdOf(d, "pii");
      var afterDoi := if Truthy(doi) then SearchDoi(w, path, Strip(doi.value), web).1 else w;
      !(Truthy(doi) && SearchDoi(w, path, Strip(doi.value), web).0) && Truthy(pii) &&
      SearchPii(afterDoi, path, Strip(pii.value), web).0 ==>
        SearchIds(w, path, d, web) == SearchPii(afterDoi, path, Strip(pii.value), web)
    ensures var doi := IdOf(d, "doi");
      var pii := IdOf(d, "pii");
      var pmc := IdOf(d, "pmc");
      var afterDoi := if Truthy(doi) then SearchDoi(w, path, Strip(doi.value), web).1 else w;
      var afterPii := if Truthy(pii) then SearchPii(afterDoi, path, Strip(pii.value), web).1 else afterDoi;
      !(Truthy(doi) && SearchDoi(w, path, Strip(doi.value), web).0) &&
      !(Truthy(pii) && SearchPii(afterDoi, path, Strip(pii.value), web).0) ==>
        SearchIds(w, path, d, web) ==
          (if Truthy(pmc) then SearchPmc(afterPii, path, Strip(pmc.value), web) else (false, afterPii))
    ensures !Truthy(IdOf(d, "doi")) && !Truthy(IdOf(d, "pii")) && !Truthy(IdOf(d, "pmc")) ==>
      SearchIds(w, path, d, web) == (false, w)
    ensures SearchIds(w, path, d, web).0 ==> path in SearchIds(w, path, d, web).1.files
  {
    var doi := IdOf(d, "doi");
    var pii := IdOf(d, "pii");
    var pmc := IdOf(d, "pmc");
    if Truthy(doi) {
      DoiStatusIsScrapeOnly(w, path, Strip(doi.value), web);
    }
    var afterDoi := if Truthy(doi) then SearchDoi(w, path, Strip(doi.value), web).1 else w;
    if Truthy(pii) {
      PiiInOrder(afterDoi, path, Strip(pii.value), web);
    }
    var afterPii := if Truthy(pii) then SearchPii(afterDoi, path, Strip(pii.value), web).1 else afterDoi;
    if Truthy(pmc) {
      PmcFallback(afterPii, path, Strip(pmc.value), web);
    }
  }

  /** A search that reports success leaves the PDF on disk. */
  lemma FoundOnDisk(w: World, path: string, d: map<Option<string>, Option<string>>, web: Web)
    ensures SearchIds(w, path, d, web).0 ==> path in SearchIds(w, path, d, web).1.files
  {
    RoutesInOrder(w, path, d, web);
  }

  /** Where a walk over the PMIDs stands: still running, or stopped by the
      `AttributeError` of reading `ids` on a missing article. */
  datatype Progress = Running(failed: seq<string>, world: World) | Aborted(failed: seq<string>, world: World)

  /** One turn of the loop of `run`, with `parsed` what
      `Article.parse_pmid(pmid)` gave. */
  function Visit(storePath: string, failed: seq<string>, w: World, pmid: string,
                 parsed: Result<Option<Article>, PyError>, web: Web): Progress
  {
    if OnDisk(w, CheckPath(storePath, pmid)) then Running(failed + [pmid], w)
    else if parsed.Err? then Running(failed + [pmid], w)
    else if parsed.value.None? then Aborted(failed, w)
    else
      var found := SearchIds(w, DownloadPath(storePath, pmid), IdMap(parsed.value.value.ids), web);
      Running(if found.0 then failed else failed + [pmid], found.1)
  }

  /** A PDF already on disk is counted as a failure, with no record fetched
      and nothing downloaded; a record that cannot be parsed is a failure;
      a missing record stops the batch; otherwise the PMID fails exactly
      when every route does. */
  lemma VisitCases(storePath: string, failed: seq<string>, w: World, pmid: string,
                   parsed: Result<Option<Article>, PyError>, web: Web)
    ensures OnDisk(w, CheckPath(storePath, pmid)) ==>
      Visit(storePath, failed, w, pmid, parsed, web) == Running(failed + [pmid], w)
    ensures !OnDisk(w, CheckPath(storePath, pmid)) && parsed.Err? ==>
      Visit(storePath, failed, w, pmid, parsed, web) == Running(failed + [pmid], w)
    ensures !OnDisk(w, CheckPath(storePath, pmid)) && parsed == Ok(None) ==>
      Visit(storePath, failed, w, pmid, parsed, web).Aborted?
    ensures !OnDisk(w, CheckPath(storePath, pmid)) && parsed.Ok? && parsed.value.Some? ==>
      var v := Visit(storePath, failed, w, pmid, parsed, web);
      v.Running? && (v.failed == failed || v.failed == failed + [pmid]) &&
      (v.failed == failed ==> DownloadPath(storePath, pmid) in v.world.files)
    ensures !OnDisk(w, CheckPath(storePath, pmid)) && parsed.Ok? && parsed.value.Some? ==>
      var v := Visit(storePath, failed, w, pmid, parsed, web);
      var found := SearchIds(w, DownloadPath(storePath, pmid), IdMap(parsed.value.value.ids), web);
      v.failed == (if found.0 then failed else failed + [pmid]) && v.world == found.1
  {
    if !OnDisk(w, CheckPath(storePath, pmid)) && parsed.Ok? && parsed.value.Some? {
      FoundOnDisk(w, DownloadPath(storePath, pmid), IdMap(parsed.value.value.ids), web);
    }
  }

  /** `Article.parse_pmid` as `run` sees it, fetching from the registry. */
  function Records(web: Web): string -> Result<Option<Article>, PyError> {
    pmid => ParsePmid(pmid, web.efetch)
  }

  /** The loop of `run` from a given state, with `records` giving what
      `Article.parse_pmid` returns for each PMID. */
  function Walk(storePath: string, pmids: seq<string>, failed: seq<string>, w: World,
                records: string -> Result<Option<Article>, PyError>, web: Web): Progress
    decreases |pmids|
  {
    if pmids == [] then Running(failed, w)
    else
      match Visit(storePath, failed, w, pmids[0], records(pmids[0]), web)
      case Aborted(f, w') => Aborted(f, w')
      case Running(f, w') => Walk(storePath, pmids[1..], f, w', records, web)
  }

  /** `failed_list` only grows, and only by PMIDs of the batch, at most
      one per PMID. */
  lemma {:induction false} WalkFailed(storePath: string, pmids: seq<string>, failed: seq<string>, w: World,
                                      records: string -> Result<Option<Article>, PyError>, web: Web)
    ensures var r := Walk(storePath, pmids, failed, w, records, web);
      && |failed| <= |r.failed| <= |failed| + |pmids| && r.failed[..|failed|] == failed
      && forall x :: x in r.failed[|failed|..] ==> x in pmids
    decreases |pmids|
  {
    if pmids != [] {
      var v := Visit(storePath, failed, w, pmids[0], records(pmids[0]), web);
      if v.Running? {
        WalkFailed(storePath, pmids[1..], v.failed, v.world, records, web);
        var r := Walk(storePath, pmids[1..], v.failed, v.world, records, web);
        assert r.failed[..|v.failed|][..|failed|] == r.failed[..|failed|];
        forall x | x in r.failed[|failed|..]
          ensures x in pmids
        {
          var k :| |failed| <= k < |r.failed| && r.failed[k] == x;
          if k >= |v.failed| {
            assert r.failed[k] in r.failed[|v.failed|..];
            assert x in pmids[1..];
          } else {
            assert r.failed[k] == v.failed[k];
          }
        }
      }
    }
  }

  /** A PMID listed twice whose PDF the first visit downloads is reported
      as failed: the second visit finds the file and appends the PMID to
      `failed_list`, so `run` leaves it out of its result. */
  lemma RepeatedPmidReportedFailed(storePath: string, pmid: string, failed: seq<string>, w: World,
                                   records: string -> Result<Option<Article>, PyError>, web: Web)
    requires '/' !in pmid && storePath != []
    requires Walk(storePath, [pmid], failed, w, records, web).Running?
    requires Walk(storePath, [pmid], failed, w, records, web).failed == failed
    ensures Walk(storePath, [pmid, pmid], failed, w, records, web).Running?
    ensures Walk(storePath, [pmid, pmid], failed, w, records, web).failed == failed + [pmid]
  {
    var parsed := records(pmid);
    var v := Visit(storePath, failed, w, pmid, parsed, web);
    assert [pmid][1..] == [] && [pmid, pmid][0] == pmid && [pmid, pmid][1..] == [pmid];
    assert Walk(storePath, [pmid], failed, w, records, web) == v;
    VisitCases(storePath, failed, w, pmid, parsed, web);
    SameFile(storePath, pmid);
    assert OnDisk(v.world, CheckPath(storePath, pmid)) by {
      assert DownloadPath(storePath, pmid) in v.world.files;
    }
    var v2 := Visit(storePath, v.failed, v.world, pmid, parsed, web);
    assert v2 == Running(failed + [pmid], v.world);
    assert Walk(storePath, [pmid, pmid], failed, w, records, web) == Walk(storePath, [pmid], v.failed, v.world, records, web);
  }

  /** `DownloadPdf` */
  class DownloadPdf {
    const storePath: string
    const pmidList: seq<string>
    var failedList: seq<string>
    var world: World

    constructor(storePath: string, pmidList: seq<string>, world: World)
      ensures this.storePath == storePath && this.pmidList == pmidList
      ensures failedList == [] && this.world == world
    {
      this.storePath := storePath;
      this.pmidList := pmidList;
      failedList := [];
      this.world := world;
    }

    /** `download(pmid, url)` */
    method Download(pmid: string, url: string, web: Web) returns (ok: bool)
      modifies this
      ensures ok == Fetch(old(world), DownloadPath(storePath, pmid), url, web).0
      ensures world == Fetch(old(world), DownloadPath(storePath, pmid), url, web).1
      ensures failedList == old(failedList)
    {
      world := world.(requests := world.requests + [url]);
      var response := web.get(url);
      if response.Unanswered? || response.status != 200 {
        return false;
      }
      var filename := storePath + "/" + BaseName(pmid) + ".pdf";
      ghost var before := world.files;
      world := world.(files := world.files + {filename});
      if response.check.OtherRaised? {
        world := world.(files := world.files - {filename});
        assert world.files == before - {filename};
        return false;
      }
      return true;
    }

    /** `check_downloaded(pmid)` */
    predicate CheckDownloaded(pmid: string)
      reads this
    {
      OnDisk(world, CheckPath(storePath, pmid))
    }

    /** The shared candidate loop of `search_by_pii` and `search_by_pmc`. */
    method TryUrls(pmid: string, urls: seq<string>, status0: bool, web: Web) returns (status: bool)
      modifies this
      ensures (status, world) == TryInOrder(urls, status0, old(world), DownloadPath(storePath, pmid), web)
      ensures failedList == old(failedList)
    {
      status := status0;
      ghost var path := DownloadPath(storePath, pmid);
      var i := 0;
      while i < |urls| && !status
        invariant i <= |urls| && failedList == old(failedList)
        invariant TryInOrder(urls[i..], status, world, path, web) == TryInOrder(urls, status0, old(world), path, web)
      {
        TryInOrderStep(urls, i, status, world, path, web);
        status := Download(pmid, urls[i], web);
        i := i + 1;
      }
    }

    /** `search_by_doi(pmid, doi)` */
    method SearchByDoi(pmid: string, doi: string, web: Web) returns (status: bool)
      modifies this
      ensures (status, world) == SearchDoi(old(world), DownloadPath(storePath, pmid), doi, web)
      ensures failedList == old(failedList)
    {
      status := false;
      var link := web.link(SCI_HUB + doi);
      if link.Some? {
        var url := link.value;
        if !Contains(url, "https:") {
          url := "https:" + url;
        }
        status := Download(pmid, url, web);
      }
      ghost var scraped := world;
      var urls := DoiUrls(doi);
      for i := 0 to |urls|
        invariant failedList == old(failedList)
        invariant Sweep(urls[i..], status, world, DownloadPath(storePath, pmid), web)
               == Sweep(urls, status, scraped, DownloadPath(storePath, pmid), web)
      {
        SweepStep(urls, i, status, world, DownloadPath(storePath, pmid), web);
        if !status {
          var _ := Download(pmid, Strip(urls[i]), web);
        } else {
          break;
        }
      }
    }

    /** `search_by_pii(pmid, pii)` */
    method SearchByPii(pmid: string, pii: string, web: Web) returns (status: bool)
      modifies this
      ensures (status, world) == SearchPii(old(world), DownloadPath(storePath, pmid), pii, web)
      ensures failedList == old(failedList)
    {
      status := TryUrls(pmid, PiiUrls(pii), false, web);
    }

    /** `search_by_pmc(pmid, pmc)` */
    method SearchByPmc(pmid: string, pmc: string, web: Web) returns (status: bool)
      modifies this
      ensures (status, world) == SearchPmc(old(world), DownloadPath(storePath, pmid), pmc, web)
      ensures failedList == old(failedList)
    {
      status := false;
      var link := web.link(PmcPage(pmc));
      if link.Some? {
        status := Download(pmid, PMC_HOST + link.value, web);
      }
      status := TryUrls(pmid, PmcUrls(pmc), status, web);
    }

    /** The loop body of `run` once `Article.parse_pmid(pmid)` has given
        `parsed`; `aborted` when the record is missing and reading its
        `ids` raises. */
    method SearchParsed(pmid: string, parsed: Result<Option<Article>, PyError>, web: Web) returns (aborted: bool)
      requires !CheckDownloaded(pmid)
      modifies this
      ensures var v := Visit(storePath, old(failedList), old(world), pmid, parsed, web);
        aborted == v.Aborted? && failedList == v.failed && world == v.world
    {
      if parsed.Err? {
        failedList := failedList + [pmid];
        return false;
      }
      if parsed.value.None? {
        return true;
      }
      var ids := BuildIdMap(parsed.value.value.ids);
      var found := SearchRoutes(pmid, ids, web);
      if !found {
        failedList := failedList + [pmid];
      }
      return false;
    }

    /** The DOI, PII and PMC routes of `run`, each taken only when its
        identifier is present and not empty and no earlier one succeeded. */
    method SearchRoutes(pmid: string, ids: map<Option<string>, Option<string>>, web: Web) returns (found: bool)
      modifies this
      ensures (found, world) == SearchIds(old(world), DownloadPath(storePath, pmid), ids, web)
      ensures failedList == old(failedList)
    {
      var doi := IdOf(ids, "doi");
      var pii := IdOf(ids, "pii");
      var pmc := IdOf(ids, "pmc");
      found := false;
      if Truthy(doi) {
        found := SearchByDoi(pmid, Strip(doi.value), web);
      }
      if !found && Truthy(pii) {
        found := SearchByPii(pmid, Strip(pii.value), web);
      }
      if !found && Truthy(pmc) {
        found := SearchByPmc(pmid, Strip(pmc.value), web);
      }
    }

    /** `run()`: the PMIDs of the batch that are not in `failed_list`, or
        the `AttributeError` of a missing record. */
    method Run(web: Web) returns (r: Result<set<string>, PyError>)
      modifies this
      ensures var p := Walk(storePath, pmidList, old(failedList), old(world), Records(web), web);
        && failedList == p.failed && world == p.world
        && (p.Running? ==> r == Ok(set x | x in pmidList && x !in failedList))
        && (p.Aborted? ==> r == Err(AttributeError))
    {
      for i := 0 to |pmidList|
        invariant Walk(storePath, pmidList[i..], failedList, world, Records(web), web)
               == Walk(storePath, pmidList, old(failedList), old(world), Records(web), web)
      {
        var pmid := pmidList[i];
        assert pmidList[i..][0] == pmid && pmidList[i..][1..] == pmidList[i + 1..];
        if CheckDownloaded(pmid) {
          failedList := failedList + [pmid];
          continue;
        }
        var parsed := ParsePmid(pmid, web.efetch);
        var aborted := SearchParsed(pmid, parsed, web);
        if aborted {
          return Err(AttributeError);
        }
      }
      r := Ok(set x | x in pmidList && x !in failedList);
    }
  }
}
