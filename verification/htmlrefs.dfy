/** `HtmlFile.parse` and `HtmlFile.get_js_urls`: the `src` attributes of a
    document's script tags, and how each is made absolute against the
    document URL. */
module HtmlRefs {
  import opened Common
  import opened Text
  import opened PosixPath
  import opened Url

  /** A `<script>` tag as the HTML parser reports it: its `src` attribute, if
      any. */
  datatype ScriptTag = ScriptTag(src: Option<string>)

  /** A tag whose `src` is truthy: present and non-empty. */
  predicate HasSrc(t: ScriptTag) { t.src.Some? && t.src.value != [] }

  /** The `src` list `HtmlFile.parse` collects from one document
      (chunk-spider.py:54-62). A tag without a usable `src` puts its
      `content` attribute, which is `None`, on the inline list, and joining
      that list raises: the document cannot be parsed at all. */
  function TagSources(tags: seq<ScriptTag>): (r: Option<seq<string>>)
    ensures r.Some? <==> forall i :: 0 <= i < |tags| ==> HasSrc(tags[i])
    ensures r.Some? ==> |r.value| == |tags| && forall i :: 0 <= i < |tags| ==> tags[i].src == Some(r.value[i])
    ensures r.Some? ==> forall i :: 0 <= i < |r.value| ==> r.value[i] != []
  {
    if tags == [] then Some([])
    else
      match TagSources(tags[1..])
      case None => None
      case Some(rest) =>
        if HasSrc(tags[0]) then Some([tags[0].src.value] + rest) else None
  }

  /** One `src` made absolute (chunk-spider.py:72-82): protocol-relative,
      host-relative, or joined to the document's directory. An absolute
      `https://…` source takes the last branch like any relative one. */
  function ResolveSrc(doc: UrlParts, src: string): (r: string)
  {
    if StartsWith(src, "//") then
      doc.scheme + ":" + src
    else
      var tail := if StartsWith(src, "/") then src else Join(Dirname(doc.path), src);
      doc.scheme + "://" + doc.netloc + tail
  }

  /** Every resolved URL keeps the document's scheme and ends with the
      source as written. */
  lemma ResolveKeepsSchemeAndSource(doc: UrlParts, src: string)
    ensures StartsWith(ResolveSrc(doc, src), doc.scheme + ":")
    ensures EndsWith(ResolveSrc(doc, src), src)
  {
    if StartsWith(src, "//") {
      ProtocolRelativeAffixes(doc.scheme, src);
    } else {
      var tail := if StartsWith(src, "/") then src else Join(Dirname(doc.path), src);
      HostRelativeAffixes(doc.scheme, doc.netloc, tail, src);
    }
  }

  lemma ProtocolRelativeAffixes(scheme: string, src: string)
    ensures StartsWith(scheme + ":" + src, scheme + ":")
    ensures EndsWith(scheme + ":" + src, src)
  {
    var s := scheme + ":" + src;
    assert s[..|scheme| + 1] == scheme + ":";
    assert s[|s| - |src|..] == src;
  }

  lemma HostRelativeAffixes(scheme: string, netloc: string, tail: string, src: string)
    requires EndsWith(tail, src)
    ensures StartsWith(scheme + "://" + netloc + tail, scheme + ":")
    ensures EndsWith(scheme + "://" + netloc + tail, src)
  {
    var s := scheme + "://" + netloc + tail;
    assert forall k :: 0 <= k < |scheme| ==> s[k] == scheme[k];
    assert s[|scheme|] == ':';
    assert s[..|scheme| + 1] == scheme + ":";
    assert s[|s| - |src|..] == tail[|tail| - |src|..];
  }

  /** The URL list of `HtmlFile.get_js_urls` (chunk-spider.py:64-90) for a
      document at `docUrl`, given every `src` collected so far, duplicates
      removed. */
  function HtmlJsUrls(docUrl: string, srcs: seq<string>): (r: seq<string>)
    ensures NoDups(r)
    ensures forall u :: u in r <==> exists s :: s in srcs && u == ResolveSrc(UrlParse(docUrl), s)
  {
    var doc := UrlParse(docUrl);
    var resolve := src => ResolveSrc(doc, src);
    MapSeqMembers(srcs, resolve);
    Dedup(MapSeq(srcs, resolve))
  }

  /** A protocol-relative `//host/path` keeps the document's scheme and takes
      its host and path from the source. */
  lemma ProtocolRelativeParses(doc: UrlParts, host: string, path: string)
    requires IsScheme(doc.scheme)
    requires forall k :: 0 <= k < |host| ==> NotNetlocDelim(host[k])
    requires IsPlainPath(path)
    ensures UrlParse(ResolveSrc(doc, "//" + host + path)) == UrlParts(doc.scheme, host, path)
  {
    var src := "//" + host + path;
    assert StartsWith(src, "//") by { assert src[..2] == "//"; }
    assert ResolveSrc(doc, src) == Compose(UrlParts(doc.scheme, host, path));
    ParseCompose(UrlParts(doc.scheme, host, path));
  }

  /** A host-relative `/path` keeps the document's scheme and host. */
  lemma RootRelativeParses(doc: UrlParts, path: string)
    requires IsScheme(doc.scheme)
    requires forall k :: 0 <= k < |doc.netloc| ==> NotNetlocDelim(doc.netloc[k])
    requires IsPlainPath(path) && path != [] && !StartsWith(path, "//")
    ensures UrlParse(ResolveSrc(doc, path)) == UrlParts(doc.scheme, doc.netloc, path)
  {
    assert StartsWith(path, "/") by { assert path[..1] == [path[0]]; }
    assert ResolveSrc(doc, path) == Compose(UrlParts(doc.scheme, doc.netloc, path));
    ParseCompose(UrlParts(doc.scheme, doc.netloc, path));
  }

  /** A source that does not start with a slash is joined to the document's
      directory. */
  lemma ResolveRelative(doc: UrlParts, src: string)
    requires src != [] && src[0] != '/'
    ensures ResolveSrc(doc, src) == doc.scheme + "://" + doc.netloc + Join(Dirname(doc.path), src)
  {
    FirstCharBlocksPrefix(src, "/");
    FirstCharBlocksPrefix(src, "//");
  }

  /** A plain file name resolves into the document's own directory on the
      document's host. */
  lemma RelativeStaysInDirectory(doc: UrlParts, name: string)
    requires name != [] && '/' !in name
    ensures var path := Join(Dirname(doc.path), name);
            && ResolveSrc(doc, name) == doc.scheme + "://" + doc.netloc + path
            && Dirname(path) == Dirname(doc.path)
            && Basename(path) == name
  {
    ResolveRelative(doc, name);
    DirnameOfJoin(Dirname(doc.path), name);
  }

  /** A source that does not start with a slash, in a document inside a
      directory `dir`, lands in that directory: `a.js` in
      `https://example.com/app/index.html` is `https://example.com/app/a.js`.
      There is no absolute-URL branch, so `https://cdn.example.net/lib.js` in
      the same document becomes
      `https://example.com/app/https://cdn.example.net/lib.js`. */
  lemma RelativeInSubdirectory(doc: UrlParts, dir: string, file: string, src: string)
    requires doc.path == dir + "/" + file
    requires dir != [] && dir[|dir| - 1] != '/'
    requires file != [] && '/' !in file
    requires src != [] && src[0] != '/'
    ensures ResolveSrc(doc, src) == doc.scheme + "://" + doc.netloc + (dir + "/" + src)
  {
    JoinRelative(dir, file);
    DirnameOfJoin(dir, file);
    ResolveRelative(doc, src);
    JoinRelative(dir, src);
  }

  /** Joining to a directory that does not end in a slash inserts one. */
  lemma JoinRelative(a: string, b: string)
    requires a != [] && a[|a| - 1] != '/'
    requires b != [] && b[0] != '/'
    ensures Join(a, b) == a + "/" + b
  {
    assert !StartsWith(b, "/");
    assert a[|a| - 1..] != "/";
  }

  /** A document URL with an empty path (`https://example.com`) has directory
      `""`, so a relative source is glued to the host name with no slash:
      `a.js` becomes `https://example.coma.js`. */
  lemma EmptyPathGluesHost(doc: UrlParts, src: string)
    requires doc.path == []
    requires src != [] && src[0] != '/'
    ensures ResolveSrc(doc, src) == doc.scheme + "://" + doc.netloc + src
  {
    ResolveRelative(doc, src);
    assert Dirname(doc.path) == [];
    JoinEmpty(src);
  }

  lemma JoinEmpty(b: string)
    requires b != [] && b[0] != '/'
    ensures Join([], b) == b
  {
    assert !StartsWith(b, "/");
    assert [] + b == b;
  }
}
