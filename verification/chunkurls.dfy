/** `JsFile.get_js_urls`: resolve chunk aliases through one lookup hop and
    turn every (name, hash) pair into a chunk file URL next to the script. */
module ChunkUrls {
  import opened Common
  import opened Text
  import opened PosixPath
  import opened Url
  import opened ChunkScan

  /** 20 characters of `[a-f0-9]` start at `i`. */
  predicate HashRunAt(v: string, i: nat)
  {
    i + 20 <= |v| && AllChars(v[i..i + 20], IsHexLower)
  }

  /** `re.search(r'[a-f0-9]{20}', v)`: the value contains a hash-like run
      somewhere, not necessarily as the whole value. */
  predicate HasHashRun(v: string)
  {
    exists i | 0 <= i <= |v| :: HashRunAt(v, i)
  }

  /** Entry `i` is the last hash-valued entry for `id`. */
  predicate LastHashEntry(cs: seq<Chunk>, id: string, i: int)
  {
    && 0 <= i < |cs| && cs[i].id == id && HasHashRun(cs[i].value)
    && forall j :: i < j < |cs| && cs[j].id == id ==> !HasHashRun(cs[j].value)
  }

  /** The `lookup` dict of chunk-spider.py:115-118, built left to right so
      that a later assignment overwrites an earlier one. */
  function Lookup(cs: seq<Chunk>): (m: map<string, string>)
    ensures forall id :: id in m ==> HasHashRun(m[id])
  {
    if cs == [] then map[]
    else
      var m := Lookup(cs[..|cs| - 1]);
      var c := cs[|cs| - 1];
      if HasHashRun(c.value) then m[c.id := c.value] else m
  }

  /** The lookup holds exactly the ids that have a hash-valued entry, each
      mapped to the value of its last such entry. */
  lemma {:induction false} LookupHoldsLastHash(cs: seq<Chunk>)
    ensures forall id :: id in Lookup(cs) <==> exists i :: 0 <= i < |cs| && cs[i].id == id && HasHashRun(cs[i].value)
    ensures forall id :: id in Lookup(cs) ==> exists i :: LastHashEntry(cs, id, i) && Lookup(cs)[id] == cs[i].value
  {
    if cs != [] {
      var init := cs[..|cs| - 1];
      var c := cs[|cs| - 1];
      var m := Lookup(init);
      LookupHoldsLastHash(init);
      assert forall i :: 0 <= i < |init| ==> init[i] == cs[i];
      forall id | id in m && (id != c.id || !HasHashRun(c.value))
        ensures exists i :: LastHashEntry(cs, id, i) && m[id] == cs[i].value
      {
        var i :| LastHashEntry(init, id, i) && m[id] == init[i].value;
        assert LastHashEntry(cs, id, i);
      }
      if HasHashRun(c.value) {
        assert LastHashEntry(cs, c.id, |cs| - 1);
      }
    }
  }

  /** Whether entry `c` is an alias the lookup resolves: its value has no
      hash-like run and its id has a hash-valued entry. */
  predicate Resolvable(c: Chunk, lookup: map<string, string>)
  {
    !HasHashRun(c.value) && c.id in lookup
  }

  /** The pairs the alias loop appends, in order: `(alias, lookup[id])` for
      every resolvable entry. */
  function Aliases(cs: seq<Chunk>, lookup: map<string, string>): (r: seq<Chunk>)
    ensures forall a :: a in r <==> exists c :: c in cs && Resolvable(c, lookup) && a == Chunk(c.value, lookup[c.id])
    ensures |r| <= |cs|
  {
    if cs == [] then []
    else
      var rest := Aliases(cs[1..], lookup);
      assert forall c :: c in cs <==> c == cs[0] || c in cs[1..];
      if Resolvable(cs[0], lookup) then [Chunk(cs[0].value, lookup[cs[0].id])] + rest else rest
  }

  /** The chunk list after the alias loop: the scanned pairs followed by the
      pairs the single hop adds. */
  function Resolved(cs: seq<Chunk>): seq<Chunk>
  {
    cs + Aliases(cs, Lookup(cs))
  }

  /** Every pair the hop appends is hash-valued, so appended pairs are never
      resolvable themselves: there is exactly one hop. */
  lemma AliasHopIsSingle(cs: seq<Chunk>)
    ensures forall a :: a in Aliases(cs, Lookup(cs)) ==> HasHashRun(a.value)
    ensures Aliases(Aliases(cs, Lookup(cs)), Lookup(cs)) == []
  {
    NoAliasesAmongHashes(Aliases(cs, Lookup(cs)), Lookup(cs));
  }

  /** Hash-valued pairs are never resolved again. */
  lemma {:induction false} NoAliasesAmongHashes(xs: seq<Chunk>, lookup: map<string, string>)
    requires forall a :: a in xs ==> HasHashRun(a.value)
    ensures Aliases(xs, lookup) == []
  {
    if xs != [] {
      assert xs[0] in xs;
      NoAliasesAmongHashes(xs[1..], lookup);
    }
  }

  /** The loop of chunk-spider.py:122-124, which appends to the list it is
      iterating over: it visits the appended pairs too, finds them
      hash-valued, and stops. */
  method AliasHop(chunks: seq<Chunk>) returns (out: seq<Chunk>)
    ensures out == Resolved(chunks)
  {
    var lookup := Lookup(chunks);
    out := chunks;
    var i := 0;
    while i < |out|
      invariant i <= |out|
      invariant i <= |chunks| ==> out == chunks + Aliases(chunks[..i], lookup)
      invariant i > |chunks| ==> out == Resolved(chunks)
      invariant |out| <= |chunks| + (if i < |chunks| then i else |chunks|)
      invariant forall j :: |chunks| <= j < |out| ==> HasHashRun(out[j].value)
      decreases 2 * |chunks| - i
    {
      var c := out[i];
      if !HasHashRun(c.value) && c.id in lookup {
        out := out + [Chunk(c.value, lookup[c.id])];
      }
      if i < |chunks| {
        assert c == chunks[i];
        AliasesAppend(chunks, i, lookup);
        AliasesOfOne(c, lookup);
      }
      i := i + 1;
    }
    if i <= |chunks| {
      assert chunks[..|chunks|] == chunks;
    }
  }

  lemma AliasesOfOne(c: Chunk, lookup: map<string, string>)
    ensures Aliases([c], lookup) == if Resolvable(c, lookup) then [Chunk(c.value, lookup[c.id])] else []
  {
    assert [c][1..] == [];
  }

  lemma {:induction false} AliasesAppend(cs: seq<Chunk>, i: nat, lookup: map<string, string>)
    requires i < |cs|
    ensures Aliases(cs[..i + 1], lookup) == Aliases(cs[..i], lookup) + Aliases([cs[i]], lookup)
    decreases i
  {
    if i > 0 {
      assert cs[..i + 1][1..] == cs[1..][..i];
      assert cs[..i][1..] == cs[1..][..i - 1];
      AliasesAppend(cs[1..], i - 1, lookup);
    } else {
      assert cs[..1] == [cs[0]];
    }
  }

  /** Ids and values made of `[a-zA-Z0-9]` only: what the scanner and the
      alias hop ever put into a pair. */
  predicate IsToken(c: Chunk)
  {
    c.id != [] && c.value != [] && AllChars(c.id, IsAlnum) && AllChars(c.value, IsAlnum)
  }

  /** The file name of a chunk: `name.hash.js`. */
  function ChunkFile(c: Chunk): string
  {
    c.id + "." + c.value + ".js"
  }

  /** chunk-spider.py:127-128 for one pair. */
  function ChunkUrl(script: UrlParts, c: Chunk): string
  {
    script.scheme + "://" + script.netloc + Dirname(script.path) + "/" + ChunkFile(c)
  }

  /** The URLs `JsFile.get_js_urls` returns for a script at `scriptUrl` whose
      scan found `chunks`: one per pair of the resolved list, unresolved
      `(id, alias)` pairs included, without duplicates. */
  function JsUrls(scriptUrl: string, chunks: seq<Chunk>): (r: seq<string>)
    ensures NoDups(r)
    ensures forall u :: u in r <==> exists c :: c in Resolved(chunks) && u == ChunkUrl(UrlParse(scriptUrl), c)
  {
    var script := UrlParse(scriptUrl);
    var toUrl := c => ChunkUrl(script, c);
    MapSeqMembers(Resolved(chunks), toUrl);
    Dedup(MapSeq(Resolved(chunks), toUrl))
  }

  /** Every pair of the resolved list of a scanned script is a token pair. */
  lemma ResolvedAreTokens(cs: seq<Chunk>)
    requires forall i :: 0 <= i < |cs| ==> IsWellFormed(cs[i])
    ensures forall c :: c in Resolved(cs) ==> IsToken(c)
  {
    forall c | c in cs ensures IsToken(c) {
      var v := c.value;
      assert IsAlias(v) ==> forall k :: 1 <= k < |v| ==> v[1..][k - 1] == v[k];
    }
    var lookup := Lookup(cs);
    LookupHoldsLastHash(cs);
    forall a | a in Aliases(cs, lookup) ensures IsToken(a) {
      var c :| c in cs && Resolvable(c, lookup) && a == Chunk(c.value, lookup[c.id]);
      var i :| LastHashEntry(cs, c.id, i) && lookup[c.id] == cs[i].value;
      assert cs[i] in cs;
    }
  }

  /** A chunk URL parses back to the script's own scheme and host, with the
      chunk file under the script's directory: the synthesized URLs never
      leave the script's origin. */
  lemma ChunkUrlParses(script: UrlParts, c: Chunk)
    requires IsScheme(script.scheme)
    requires forall k :: 0 <= k < |script.netloc| ==> NotNetlocDelim(script.netloc[k])
    requires script.path == [] || script.path[0] == '/'
    requires '?' !in script.path && '#' !in script.path
    requires IsToken(c)
    ensures UrlParse(ChunkUrl(script, c)) == UrlParts(script.scheme, script.netloc, Dirname(script.path) + "/" + ChunkFile(c))
  {
    var dir := Dirname(script.path);
    var path := dir + "/" + ChunkFile(c);
    var parts := UrlParts(script.scheme, script.netloc, path);
    DirnameOfRooted(script.path);
    ChunkFileChars(c);
    ChunkPathIsPlain(dir, ChunkFile(c));
    ParseCompose(parts);
    ChunkUrlIsCompose(script, c);
  }

  lemma ChunkUrlIsCompose(script: UrlParts, c: Chunk)
    ensures ChunkUrl(script, c) == Compose(UrlParts(script.scheme, script.netloc, Dirname(script.path) + "/" + ChunkFile(c)))
  {
  }

  /** The directory of a rooted path without query or fragment markers is
      rooted and free of them too. */
  lemma DirnameOfRooted(path: string)
    requires path == [] || path[0] == '/'
    requires '?' !in path && '#' !in path
    ensures var dir := Dirname(path); (dir == [] || dir[0] == '/') && '?' !in dir && '#' !in dir
  {
    var dir := Dirname(path);
    assert forall k :: 0 <= k < |dir| ==> dir[k] == path[k];
  }

  predicate IsFileChar(ch: char) { IsAlnum(ch) || ch == '.' }

  lemma ChunkFileChars(c: Chunk)
    requires IsToken(c)
    ensures AllChars(ChunkFile(c), IsFileChar)
  {
    var file := ChunkFile(c);
    forall k | 0 <= k < |file| ensures IsFileChar(file[k]) {
      if k < |c.id| {
        assert file[k] == c.id[k];
      } else if |c.id| < k < |c.id| + 1 + |c.value| {
        assert file[k] == c.value[k - |c.id| - 1];
      }
    }
  }

  lemma ChunkPathIsPlain(dir: string, file: string)
    requires dir == [] || dir[0] == '/'
    requires '?' !in dir && '#' !in dir
    requires AllChars(file, IsFileChar)
    ensures IsPlainPath(dir + "/" + file)
  {
    var path := dir + "/" + file;
    assert path[|dir|] == '/';
    assert forall k :: |dir| + 1 <= k < |path| ==> path[k] == file[k - |dir| - 1];
    assert AfterLast(path, '/') == |dir| + 1;
  }

  /** A script at the site root (`/main.js`) has directory `/`, so the chunk
      URLs get a doubled slash after the host. */
  lemma RootScriptDoubleSlash(script: UrlParts, name: string, c: Chunk)
    requires script.path == "/" + name && '/' !in name
    ensures ChunkUrl(script, c) == script.scheme + "://" + script.netloc + "//" + ChunkFile(c)
  {
    var p := script.path;
    AfterLastOfConcat("/", name);
    assert p[..1] == "/";
    assert Dirname(p) == "/";
  }

  /** A script inside a directory `dir` (rooted, not ending in a slash) gets
      its chunks from that same directory. */
  lemma SubdirScriptChunks(script: UrlParts, dir: string, name: string, c: Chunk)
    requires dir != [] && dir[|dir| - 1] != '/'
    requires name != [] && '/' !in name
    requires script.path == dir + "/" + name
    ensures ChunkUrl(script, c) == script.scheme + "://" + script.netloc + dir + "/" + ChunkFile(c)
  {
    assert !StartsWith(name, "/") by { assert name[0] != '/'; }
    assert !EndsWith(dir, "/") by { assert dir[|dir| - 1..] != "/"; }
    assert Join(dir, name) == script.path;
    DirnameOfJoin(dir, name);
  }

  /** The alias hop on a pair of entries for the same id, the first one
      hash-valued and the second one an alias: `[(5, h), (5, "vendor")]`
      gains `("vendor", h)`. */
  lemma AliasOfHashedId(id: string, h: string, alias: string)
    requires HasHashRun(h) && !HasHashRun(alias)
    ensures Resolved([Chunk(id, h), Chunk(id, alias)]) == [Chunk(id, h), Chunk(id, alias), Chunk(alias, h)]
  {
    var cs := [Chunk(id, h), Chunk(id, alias)];
    assert cs[..1] == [Chunk(id, h)];
    assert cs[..1][..0] == [];
    assert Lookup(cs[..1]) == map[id := h];
    assert Lookup(cs) == map[id := h];
    AliasesOfOne(Chunk(id, h), map[id := h]);
    AliasesOfOne(Chunk(id, alias), map[id := h]);
    assert cs[1..] == [Chunk(id, alias)];
  }
}
