/** `ChunkSpider.spider_url`: the recursive crawl over a finite web. Every
    fetched body is parsed at most once; the crawl of a URL fetches it, stops
    at once on a body already seen, and otherwise parses it and visits every
    URL it yields that is not yet a found file. */
module Spider {
  import opened Common
  import opened Text
  import opened ChunkScan
  import opened ChunkUrls
  import opened HtmlRefs
  import opened Url
  import opened Resources

  /** What the spider has accumulated: the content hashes seen (bodies, see
      `Resource`), the found script URLs, the found paths, and the `src` list
      every HTML page appends to (`HtmlFile.jsfiles` is shared by the class,
      so it spans the whole crawl). */
  datatype Crawl = Crawl(hashes: seq<string>, files: seq<string>, paths: seq<string>, srcs: seq<string>)

  /** A fresh spider. */
  const Start := Crawl([], [], [], [])

  /** The exception that ends a crawl: a fetch that raises, or an HTML page
      with a script tag without `src`, whose `None` content cannot be
      joined. */
  datatype Failure = FetchFailed(url: string, reason: FetchError) | InlineScript(url: string)

  /** The HTML parser: the script tags of a document body, in order. */
  type Parser = string -> seq<ScriptTag>

  function Seen(hashes: seq<string>): set<string>
  {
    set h | h in hashes
  }

  /** Bodies of the web the crawl has not parsed yet: the termination
      measure. */
  function Unseen(web: Web, hashes: seq<string>): nat
  {
    |Bodies(web) - Seen(hashes)|
  }

  /** `b` extends `a`: hashes and `src` list only get appended to, files and
      paths are never lost. */
  predicate Grows(a: Crawl, b: Crawl)
  {
    && IsPrefix(a.hashes, b.hashes)
    && IsPrefix(a.srcs, b.srcs)
    && (forall f :: f in a.files ==> f in b.files)
    && (forall p :: p in a.paths ==> p in b.paths)
  }

  /** The invariant of a crawl state: each body hashed once and served by the
      web, every found file fetchable, every found path a path literal. */
  predicate Sound(web: Web, st: Crawl)
  {
    && NoDups(st.hashes)
    && (forall h :: h in st.hashes ==> h in Bodies(web))
    && (forall f :: f in st.files ==> Fetch(web, f).Ok?)
    && (forall p :: p in st.paths ==> IsPathLiteral(p))
  }

  /** What happens to a fresh resource before its children are visited
      (chunk-spider.py:146-150): its hash is recorded, it is parsed, the paths
      of a script are merged into the found paths (an HTML page contributes
      none: `res.paths` is the shared empty class list there), and its child
      URLs are computed. */
  function Expand(parse: Parser, res: Resource, st: Crawl): (r: Result<(Crawl, seq<string>), Failure>)
    ensures r.Ok? ==> r.value.0.hashes == st.hashes + [res.body] && r.value.0.files == st.files
    ensures r.Ok? ==> forall p :: p in r.value.0.paths <==> p in st.paths || (res.kind == Script && p in ScanPaths(res.body))
    ensures r.Ok? ==> IsPrefix(st.srcs, r.value.0.srcs)
    ensures r.Err? <==> res.kind == Markup && TagSources(parse(res.body)).None?
  {
    var hashes := st.hashes + [res.body];
    match res.kind
    case Script =>
      var found := Crawl(hashes, st.files, Dedup(st.paths + ScanPaths(res.body)), st.srcs);
      Ok((found, JsUrls(res.url, ScanChunks(res.body))))
    case Markup =>
      match TagSources(parse(res.body))
      case None => Err(InlineScript(res.url))
      case Some(tagSrcs) =>
        var srcs := st.srcs + tagSrcs;
        assert srcs[..|st.srcs|] == st.srcs;
        var found := Crawl(hashes, st.files, Dedup(st.paths), srcs);
        Ok((found, HtmlJsUrls(res.url, srcs)))
  }

  /** `spider_url(url)` (chunk-spider.py:141-159). The hashes only ever get
      appended to; that is what makes the recursion terminate. */
  function Visit(web: Web, parse: Parser, url: string, st: Crawl): (r: Result<Crawl, Failure>)
    ensures r.Ok? ==> IsPrefix(st.hashes, r.value.hashes)
    decreases Unseen(web, st.hashes), 0
  {
    match Fetch(web, url)
    case Err(e) => Err(FetchFailed(url, e))
    case Ok(res) =>
      if res.body in st.hashes then Ok(st)
      else
        match Expand(parse, res, st)
        case Err(f) => Err(f)
        case Ok((found, children)) =>
          UnseenShrinks(web, st.hashes, res.body);
          match VisitAll(web, parse, children, found)
          case Err(f) => Err(f)
          case Ok(done) =>
            PrefixTrans(st.hashes, found.hashes, done.hashes);
            Ok(done.(files := Dedup(done.files), paths := Dedup(done.paths)))
  }

  /** The child loop of `spider_url` (chunk-spider.py:150-157): a URL already
      found is skipped; any other is visited and recorded only once its visit
      has returned. */
  function VisitAll(web: Web, parse: Parser, urls: seq<string>, st: Crawl): (r: Result<Crawl, Failure>)
    ensures r.Ok? ==> IsPrefix(st.hashes, r.value.hashes)
    decreases Unseen(web, st.hashes), 1, |urls|
  {
    if urls == [] then Ok(st)
    else if urls[0] in st.files then VisitAll(web, parse, urls[1..], st)
    else
      match Visit(web, parse, urls[0], st)
      case Err(f) => Err(f)
      case Ok(visited) =>
        UnseenMono(web, st.hashes, visited.hashes);
        var recorded := visited.(files := visited.files + [urls[0]]);
        match VisitAll(web, parse, urls[1..], recorded)
        case Err(f) => Err(f)
        case Ok(done) =>
          PrefixTrans(st.hashes, visited.hashes, done.hashes);
          Ok(done)
  }

  /** `HtmlFile.jsfiles` is one list shared by every page: the children of
      an HTML page are the sources of its own script tags and every source
      collected from the pages parsed before it, all resolved against this
      page's URL. */
  lemma MarkupChildrenShareSources(parse: Parser, res: Resource, st: Crawl)
    ensures res.kind == Markup && Expand(parse, res, st).Ok? ==>
              forall src :: src in st.srcs || src in TagSources(parse(res.body)).value ==>
                ResolveSrc(UrlParse(res.url), src) in Expand(parse, res, st).value.1
  {
    if res.kind == Markup && Expand(parse, res, st).Ok? {
      var tagSrcs := TagSources(parse(res.body)).value;
      assert forall src :: src in st.srcs + tagSrcs <==> src in st.srcs || src in tagSrcs;
    }
  }

  /** A whole run: `spider_url(seed)` on a fresh spider. */
  function Spider(web: Web, parse: Parser, seed: string): (r: Result<Crawl, Failure>)
    ensures r.Ok? ==> Sound(web, r.value) && NoDups(r.value.files) && NoDups(r.value.paths)
    ensures r.Ok? ==> Fetch(web, seed).Ok? && r.value.hashes != [] && r.value.hashes[0] == Fetch(web, seed).value.body
    ensures Fetch(web, seed).Err? ==> r == Err(FetchFailed(seed, Fetch(web, seed).error))
  {
    FirstVisit(web, parse, seed);
    Visit(web, parse, seed, Start)
  }

  lemma FirstVisit(web: Web, parse: Parser, seed: string)
    ensures var r := Visit(web, parse, seed, Start);
            r.Ok? ==> Sound(web, r.value) && NoDups(r.value.files) && NoDups(r.value.paths)
    ensures var r := Visit(web, parse, seed, Start);
            r.Ok? ==> Fetch(web, seed).Ok? && r.value.hashes != [] && r.value.hashes[0] == Fetch(web, seed).value.body
    ensures Fetch(web, seed).Err? ==> Visit(web, parse, seed, Start) == Err(FetchFailed(seed, Fetch(web, seed).error))
  {
    StartIsSound(web);
    VisitSound(web, parse, seed, Start);
    VisitOutcome(web, parse, seed, Start);
    if Visit(web, parse, seed, Start).Ok? {
      HashRecordedNext(web, parse, seed, Start);
    }
  }

  lemma StartIsSound(web: Web)
    ensures Sound(web, Start)
  {
  }

  /** A visit that parses its body records the body's hash right after the
      hashes it started with. */
  lemma HashRecordedNext(web: Web, parse: Parser, url: string, st: Crawl)
    requires Visit(web, parse, url, st).Ok?
    requires Fetch(web, url).Ok? ==> Fetch(web, url).value.body !in st.hashes
    ensures var r := Visit(web, parse, url, st);
            Fetch(web, url).Ok? && |st.hashes| < |r.value.hashes| && r.value.hashes[|st.hashes|] == Fetch(web, url).value.body
  {
    var r := Visit(web, parse, url, st);
    VisitOutcome(web, parse, url, st);
    var body := Fetch(web, url).value.body;
    var p := st.hashes + [body];
    assert r.value.hashes[..|p|] == p;
    assert r.value.hashes[|st.hashes|] == r.value.hashes[..|p|][|st.hashes|];
  }

  // ------------------------------------------------------------ lemmas

  /** What a single visit does with its own URL: a failing fetch aborts with
      that failure, a body already hashed leaves the state as it is, and a
      successful visit has hashed the body; on a fresh body, every child URL
      ends up among the found files and files and paths are de-duplicated. */
  lemma VisitOutcome(web: Web, parse: Parser, url: string, st: Crawl)
    ensures Fetch(web, url).Err? ==> Visit(web, parse, url, st) == Err(FetchFailed(url, Fetch(web, url).error))
    ensures Fetch(web, url).Ok? && Fetch(web, url).value.body in st.hashes ==> Visit(web, parse, url, st) == Ok(st)
    ensures Visit(web, parse, url, st).Ok? ==> Fetch(web, url).Ok? && Fetch(web, url).value.body in Visit(web, parse, url, st).value.hashes
    ensures var r := Visit(web, parse, url, st);
            r.Ok? && Fetch(web, url).value.body !in st.hashes ==>
              && Expand(parse, Fetch(web, url).value, st).Ok?
              && (forall u :: u in Expand(parse, Fetch(web, url).value, st).value.1 ==> u in r.value.files)
              && NoDups(r.value.files) && NoDups(r.value.paths)
              && IsPrefix(st.hashes + [Fetch(web, url).value.body], r.value.hashes)
  {
    var r := Visit(web, parse, url, st);
    if r.Ok? {
      var res := Fetch(web, url).value;
      if res.body !in st.hashes {
        var (found, children) := Expand(parse, res, st).value;
        var done := VisitAll(web, parse, children, found).value;
        VisitAllRecords(web, parse, children, found);
        assert res.body in found.hashes;
        assert found.hashes == done.hashes[..|found.hashes|];
        assert res.body in done.hashes;
      }
    }
  }

  /** A visit only adds: hashes and `src` list are extended, files and paths
      kept. */
  lemma {:induction false} VisitGrows(web: Web, parse: Parser, url: string, st: Crawl)
    ensures Visit(web, parse, url, st).Ok? ==> Grows(st, Visit(web, parse, url, st).value)
    decreases Unseen(web, st.hashes), 0
  {
    var r := Visit(web, parse, url, st);
    if r.Ok? {
      var res := Fetch(web, url).value;
      if res.body !in st.hashes {
        var (found, children) := Expand(parse, res, st).value;
        UnseenShrinks(web, st.hashes, res.body);
        VisitAllGrows(web, parse, children, found);
        var done := VisitAll(web, parse, children, found).value;
        PrefixTrans(st.hashes, found.hashes, done.hashes);
        PrefixTrans(st.srcs, found.srcs, done.srcs);
      }
    }
  }

  lemma {:induction false} VisitAllGrows(web: Web, parse: Parser, urls: seq<string>, st: Crawl)
    ensures VisitAll(web, parse, urls, st).Ok? ==> Grows(st, VisitAll(web, parse, urls, st).value)
    decreases Unseen(web, st.hashes), 1, |urls|
  {
    var r := VisitAll(web, parse, urls, st);
    if urls != [] && r.Ok? {
      if urls[0] in st.files {
        VisitAllGrows(web, parse, urls[1..], st);
      } else {
        VisitGrows(web, parse, urls[0], st);
        var visited := Visit(web, parse, urls[0], st).value;
        UnseenMono(web, st.hashes, visited.hashes);
        var recorded := visited.(files := visited.files + [urls[0]]);
        VisitAllGrows(web, parse, urls[1..], recorded);
        PrefixTrans(st.hashes, visited.hashes, r.value.hashes);
        PrefixTrans(st.srcs, visited.srcs, r.value.srcs);
      }
    }
  }

  /** The child loop records every URL it is given: skipped ones were found
      already, the others are appended after their visit. */
  lemma {:induction false} VisitAllRecords(web: Web, parse: Parser, urls: seq<string>, st: Crawl)
    ensures VisitAll(web, parse, urls, st).Ok? ==> forall u :: u in urls ==> u in VisitAll(web, parse, urls, st).value.files
    decreases |urls|
  {
    var r := VisitAll(web, parse, urls, st);
    if urls != [] && r.Ok? {
      assert forall u :: u in urls <==> u == urls[0] || u in urls[1..];
      if urls[0] in st.files {
        VisitAllRecords(web, parse, urls[1..], st);
        VisitAllGrows(web, parse, urls[1..], st);
      } else {
        var visited := Visit(web, parse, urls[0], st).value;
        var recorded := visited.(files := visited.files + [urls[0]]);
        VisitAllRecords(web, parse, urls[1..], recorded);
        VisitAllGrows(web, parse, urls[1..], recorded);
      }
    }
  }

  /** A visit keeps the crawl sound: hashes stay distinct bodies of the web,
      found files stay fetchable, found paths stay path literals. */
  lemma {:induction false} VisitSound(web: Web, parse: Parser, url: string, st: Crawl)
    requires Sound(web, st)
    ensures Visit(web, parse, url, st).Ok? ==> Sound(web, Visit(web, parse, url, st).value)
    decreases Unseen(web, st.hashes), 0
  {
    var r := Visit(web, parse, url, st);
    if r.Ok? {
      var res := Fetch(web, url).value;
      if res.body !in st.hashes {
        var (found, children) := Expand(parse, res, st).value;
        UnseenShrinks(web, st.hashes, res.body);
        AppendFreshNoDups(st.hashes, res.body);
        assert Sound(web, found);
        VisitAllSound(web, parse, children, found);
      }
    }
  }

  lemma {:induction false} VisitAllSound(web: Web, parse: Parser, urls: seq<string>, st: Crawl)
    requires Sound(web, st)
    ensures VisitAll(web, parse, urls, st).Ok? ==> Sound(web, VisitAll(web, parse, urls, st).value)
    decreases Unseen(web, st.hashes), 1, |urls|
  {
    var r := VisitAll(web, parse, urls, st);
    if urls != [] && r.Ok? {
      if urls[0] in st.files {
        VisitAllSound(web, parse, urls[1..], st);
      } else {
        VisitSound(web, parse, urls[0], st);
        VisitOutcome(web, parse, urls[0], st);
        var visited := Visit(web, parse, urls[0], st).value;
        UnseenMono(web, st.hashes, visited.hashes);
        var recorded := visited.(files := visited.files + [urls[0]]);
        VisitAllSound(web, parse, urls[1..], recorded);
      }
    }
  }

  /** Each distinct body is parsed at most once, so a run parses no more
      resources than the web has distinct bodies. */
  lemma HashesBounded(web: Web, st: Crawl)
    requires Sound(web, st)
    ensures |st.hashes| <= |Bodies(web)|
  {
    SeenOfNoDups(st.hashes);
    CardMono(Seen(st.hashes), Bodies(web));
  }

  /** Visiting a URL a second time from the state its first visit left is a
      no-op: the body is already hashed. */
  lemma RevisitIsNoOp(web: Web, parse: Parser, url: string, st: Crawl)
    ensures var r := Visit(web, parse, url, st);
            r.Ok? ==> Visit(web, parse, url, r.value) == r
  {
    var r := Visit(web, parse, url, st);
    VisitOutcome(web, parse, url, st);
    if r.Ok? {
      VisitOutcome(web, parse, url, r.value);
    }
  }

  /** URLs that are all found files already are skipped without a fetch. */
  lemma {:induction false} KnownUrlsSkipped(web: Web, parse: Parser, urls: seq<string>, st: Crawl)
    requires forall u :: u in urls ==> u in st.files
    ensures VisitAll(web, parse, urls, st) == Ok(st)
    decreases |urls|
  {
    if urls != [] {
      assert urls[0] in urls;
      KnownUrlsSkipped(web, parse, urls[1..], st);
    }
  }

  /** A fetch failure of a child aborts the whole run: the error comes back
      unchanged from the child loop. */
  lemma ChildFailureAborts(web: Web, parse: Parser, urls: seq<string>, st: Crawl)
    requires urls != [] && urls[0] !in st.files
    requires Fetch(web, urls[0]).Err?
    ensures VisitAll(web, parse, urls, st) == Err(FetchFailed(urls[0], Fetch(web, urls[0]).error))
  {
    VisitOutcome(web, parse, urls[0], st);
  }

  /** Recording a fresh hash makes the measure drop. */
  lemma UnseenShrinks(web: Web, hashes: seq<string>, b: string)
    requires b in Bodies(web) && b !in hashes
    ensures Unseen(web, hashes + [b]) < Unseen(web, hashes)
  {
    var before := Bodies(web) - Seen(hashes);
    var after := Bodies(web) - Seen(hashes + [b]);
    assert Seen(hashes + [b]) == Seen(hashes) + {b};
    assert before == after + {b};
  }

  /** Seeing more hashes never makes the measure grow. */
  lemma UnseenMono(web: Web, h1: seq<string>, h2: seq<string>)
    requires IsPrefix(h1, h2)
    ensures Unseen(web, h2) <= Unseen(web, h1)
  {
    assert forall h :: h in h1 ==> h in h2 by {
      forall h | h in h1 ensures h in h2 {
        var i :| 0 <= i < |h1| && h1[i] == h;
        assert h2[..|h1|][i] == h;
      }
    }
    CardMono(Bodies(web) - Seen(h2), Bodies(web) - Seen(h1));
  }

  lemma PrefixTrans<T>(a: seq<T>, b: seq<T>, c: seq<T>)
    requires IsPrefix(a, b) && IsPrefix(b, c)
    ensures IsPrefix(a, c)
  {
    assert c[..|a|] == c[..|b|][..|a|];
  }

  lemma AppendFreshNoDups<T>(s: seq<T>, x: T)
    requires NoDups(s) && x !in s
    ensures NoDups(s + [x])
  {
    var t := s + [x];
    forall i, j | 0 <= i < j < |t| ensures t[i] != t[j] {
      if j == |s| {
        assert t[i] == s[i];
      }
    }
  }

  lemma {:induction false} CardMono<T>(a: set<T>, b: set<T>)
    requires a <= b
    ensures |a| <= |b|
    decreases |a|
  {
    if a != {} {
      var x :| x in a;
      CardMono(a - {x}, b - {x});
    }
  }

  lemma {:induction false} SeenOfNoDups(s: seq<string>)
    requires NoDups(s)
    ensures |Seen(s)| == |s|
  {
    if s != [] {
      var init := s[..|s| - 1];
      var x := s[|s| - 1];
      assert s == init + [x];
      SeenOfNoDups(init);
      assert Seen(s) == Seen(init) + {x};
      assert x !in Seen(init);
    }
  }
}
