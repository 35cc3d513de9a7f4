/** The two scans `JsFile.parse` runs over a script body, written as
    hand-rolled matchers that behave like `re.findall`: try every start
    position from the left, take the first match, resume after it.

    Chunk-map pattern:  ((\d+) *: *"([a-f0-9]{20}|[a-z][a-zA-Z0-9]+)")+,?
    Path pattern:       "(/[:_/a-zA-Z0-9.?=&-]+)"

    Every repetition in these patterns is greedy and is followed by a
    character its class excludes, so backtracking can never make a shorter
    run succeed; each matcher therefore takes the longest run and checks the
    character after it. */
module ChunkScan {
  import opened Common
  import opened Text

  /** One `id: "value"` pair of a bundler chunk map. */
  datatype Chunk = Chunk(id: string, value: string)

  /** An entry found at some position: its two groups and where it ends. */
  datatype Entry = Entry(id: string, value: string, end: nat)

  /** A content hash: exactly 20 characters of `[a-f0-9]`. */
  predicate IsHash(v: string) { |v| == 20 && AllChars(v, IsHexLower) }

  /** An alias token: `[a-z][a-zA-Z0-9]+`. */
  predicate IsAlias(v: string) { |v| >= 2 && IsLowerAlpha(v[0]) && AllChars(v[1..], IsAlnum) }

  predicate IsChunkId(id: string) { id != [] && AllChars(id, IsDigit) }

  predicate IsChunkValue(v: string) { IsHash(v) || IsAlias(v) }

  predicate IsWellFormed(c: Chunk) { IsChunkId(c.id) && IsChunkValue(c.value) }

  // ---------------------------------------------------------------- chunks

  /** `c` is the id and value of an entry that starts at position `k`. */
  predicate EntryOccurs(s: string, k: nat, c: Chunk)
  {
    k < |s| && EntryAt(s[k..], 0).Some? && EntryAt(s[k..], 0).value.id == c.id
    && EntryAt(s[k..], 0).value.value == c.value
  }

  /** `c` is written somewhere in `s` as an entry of a chunk map. */
  ghost predicate Occurs(s: string, c: Chunk)
  {
    exists k: nat :: EntryOccurs(s, k, c)
  }

  /** The alternation `([a-f0-9]{20}|[a-z][a-zA-Z0-9]+)"` starting at `v`:
      the position of the closing quote, trying the hash branch first. */
  function ValueEnd(s: string, v: nat): (r: Option<nat>)
    requires v <= |s|
    ensures r.Some? ==> v < r.value < |s|
  {
    if v + 20 < |s| && AllChars(s[v..v + 20], IsHexLower) && s[v + 20] == '"' then
      Some(v + 20)
    else if v < |s| && IsLowerAlpha(s[v]) then
      var u := SpanWhile(s, v + 1, IsAlnum);
      if u > v + 1 && u < |s| && s[u] == '"' then Some(u) else None
    else None
  }

  /** What the value alternative matched is a hash or an alias, closed by a
      quote. */
  lemma ValueEndSound(s: string, v: nat)
    requires v <= |s| && ValueEnd(s, v).Some?
    ensures var u := ValueEnd(s, v).value;
            s[u] == '"' && IsChunkValue(s[v..u])
  {
    var u := ValueEnd(s, v).value;
    if !(v + 20 < |s| && AllChars(s[v..v + 20], IsHexLower) && s[v + 20] == '"') {
      assert forall k :: 1 <= k < u - v ==> s[v..u][k] == s[v + k];
    }
  }

  /** One repetition `(\d+) *: *"(value)"` starting exactly at `p`. */
  function EntryAt(s: string, p: nat): (r: Option<Entry>)
    requires p <= |s|
    ensures r.Some? ==> p < r.value.end <= |s|
  {
    var q := SpanWhile(s, p, IsDigit);
    var colon := SpanWhile(s, q, IsSpace);
    if q == p || colon == |s| || s[colon] != ':' then None
    else
      var quote := SpanWhile(s, colon + 1, IsSpace);
      if quote == |s| || s[quote] != '"' then None
      else match ValueEnd(s, quote + 1)
        case None => None
        case Some(u) => Some(Entry(s[p..q], s[quote + 1..u], u + 1))
  }

  /** An entry's groups are a chunk id and a chunk value. */
  lemma EntryAtSound(s: string, p: nat)
    requires p <= |s| && EntryAt(s, p).Some?
    ensures IsChunkId(EntryAt(s, p).value.id) && IsChunkValue(EntryAt(s, p).value.value)
  {
    var q := SpanWhile(s, p, IsDigit);
    var colon := SpanWhile(s, q, IsSpace);
    var quote := SpanWhile(s, colon + 1, IsSpace);
    assert forall k :: 0 <= k < q - p ==> s[p..q][k] == s[p + k];
    ValueEndSound(s, quote + 1);
  }

  /** The outer `(...)+`: further repetitions are taken as long as one starts
      right where the previous ended, and the groups report the last one.
      `e` is the repetition taken so far, with `end` counted from the start of
      the match, and `t` is the text after it. */
  function LastAdjacent(t: string, e: Entry): (r: Entry)
    ensures e.end <= r.end <= e.end + |t|
    decreases |t|
  {
    match EntryAt(t, 0)
    case None => e
    case Some(next) => LastAdjacent(t[next.end..], Entry(next.id, next.value, e.end + next.end))
  }

  /** The entry the repetition stops at is the one it started with or one
      written in the text after it, at position `k`. */
  lemma {:induction false} LastAdjacentIsEntry(t: string, e: Entry) returns (k: nat)
    ensures var r := LastAdjacent(t, e);
            r == e || EntryOccurs(t, k, Chunk(r.id, r.value))
    decreases |t|
  {
    k := 0;
    match EntryAt(t, 0)
    case None =>
    case Some(next) =>
      var moved := Entry(next.id, next.value, e.end + next.end);
      LastAdjacentStep(t, e, next);
      var j := LastAdjacentIsEntry(t[next.end..], moved);
      var r := LastAdjacent(t[next.end..], moved);
      if r == moved {
        FirstEntryOccurs(t, next);
      } else {
        k := EntryOccursInRest(t, next.end, j, Chunk(r.id, r.value));
      }
  }

  lemma LastAdjacentStep(t: string, e: Entry, next: Entry)
    requires EntryAt(t, 0) == Some(next)
    ensures LastAdjacent(t, e) == LastAdjacent(t[next.end..], Entry(next.id, next.value, e.end + next.end))
  {
  }

  /** The entry at the start of a text occurs in it, at position 0. */
  lemma FirstEntryOccurs(t: string, x: Entry)
    requires EntryAt(t, 0) == Some(x)
    ensures EntryOccurs(t, 0, Chunk(x.id, x.value))
  {
    assert t[0..] == t;
  }

  /** An entry at position `j` of the rest of a text from `d` on is at
      position `d + j` of the text. */
  lemma EntryOccursInRest(t: string, d: nat, j: nat, c: Chunk) returns (k: nat)
    requires d <= |t| && EntryOccurs(t[d..], j, c)
    ensures k == d + j && EntryOccurs(t, k, c)
  {
    k := d + j;
    assert t[d..][j..] == t[k..];
  }

  /** The whole chunk-map pattern at the start of `t`, including the
      optional comma; `end` is the length of the match. */
  function ChunkMatch(t: string): (r: Option<Entry>)
    ensures r.Some? <==> EntryAt(t, 0).Some?
    ensures r.Some? ==> 0 < r.value.end <= |t|
  {
    match EntryAt(t, 0)
    case None => None
    case Some(first) =>
      var last := LastAdjacent(t[first.end..], first);
      if last.end < |t| && t[last.end] == ',' then Some(last.(end := last.end + 1))
      else Some(last)
  }

  /** The groups a match reports are those of an entry written in the text,
      so they are a chunk id and a chunk value. */
  lemma ChunkMatchOccurs(t: string)
    requires ChunkMatch(t).Some?
    ensures var m := ChunkMatch(t).value;
            Occurs(t, Chunk(m.id, m.value)) && IsWellFormed(Chunk(m.id, m.value))
  {
    var first := EntryAt(t, 0).value;
    var last := LastAdjacent(t[first.end..], first);
    var j := LastAdjacentIsEntry(t[first.end..], first);
    var k: nat := 0;
    if last == first {
      FirstEntryOccurs(t, first);
    } else {
      k := EntryOccursInRest(t, first.end, j, Chunk(last.id, last.value));
    }
    EntryAtSound(t[k..], 0);
  }

  /** `re.findall` of the chunk-map pattern over `t`, keeping the id and value
      groups of each match. The pattern never looks behind the position it
      starts at, so scanning from a position of a text is scanning the rest of
      the text from there. */
  function FindChunks(t: string): (r: seq<Chunk>)
    decreases |t|
  {
    if t == [] then []
    else match ChunkMatch(t)
      case None => FindChunks(t[1..])
      case Some(m) => [Chunk(m.id, m.value)] + FindChunks(t[m.end..])
  }

  /** What occurs in the rest of a text occurs in the text. */
  lemma OccursInRest(t: string, d: nat, c: Chunk)
    requires d <= |t| && Occurs(t[d..], c)
    ensures Occurs(t, c)
  {
    var j: nat :| EntryOccurs(t[d..], j, c);
    var k := EntryOccursInRest(t, d, j, c);
  }

  /** Every chunk the scan reports is well formed and written in the text. */
  lemma {:induction false} FindChunksSound(t: string)
    ensures forall c :: c in FindChunks(t) ==> IsWellFormed(c) && Occurs(t, c)
    decreases |t|
  {
    if t != [] {
      match ChunkMatch(t)
      case None =>
        FindChunksSound(t[1..]);
        forall c | c in FindChunks(t[1..]) ensures Occurs(t, c) {
          OccursInRest(t, 1, c);
        }
      case Some(m) =>
        FindChunksSound(t[m.end..]);
        ChunkMatchOccurs(t);
        forall c | c in FindChunks(t[m.end..]) ensures Occurs(t, c) {
          OccursInRest(t, m.end, c);
        }
    }
  }

  /** The chunk list `JsFile.parse` stores: every id and value it reports is
      well formed and is an entry that occurs in the text. */
  function ScanChunks(s: string): (r: seq<Chunk>)
    ensures forall i :: 0 <= i < |r| ==> IsWellFormed(r[i])
    ensures forall i :: 0 <= i < |r| ==> Occurs(s, r[i])
  {
    FindChunksSound(s);
    FindChunks(s)
  }

  /** The scan comes back empty exactly when no `id: "value"` entry starts
      at any position: content without a chunk map is "nothing found", never
      an error. */
  lemma {:induction false} ScanChunksEmptyIff(t: string)
    ensures FindChunks(t) == [] <==> forall k :: 0 <= k < |t| ==> EntryAt(t[k..], 0).None?
    decreases |t|
  {
    if t != [] {
      ScanChunksEmptyIff(t[1..]);
      assert t[0..] == t;
      assert forall k :: 0 <= k < |t| - 1 ==> t[1..][k..] == t[k + 1..];
      if FindChunks(t) == [] {
        forall k | 0 <= k < |t| ensures EntryAt(t[k..], 0).None? {
          if k > 0 {
            assert t[1..][k - 1..] == t[k..];
          }
        }
      }
    }
  }

  /** The outer `(...)+` quirk: two entries written back to back with no
      separator form one match, and only the second is reported. */
  lemma AdjacentEntriesCollapse(c1: Chunk, c2: Chunk)
    requires IsWellFormed(c1) && IsWellFormed(c2)
    ensures ScanChunks(EntryText(c1) + EntryText(c2)) == [c2]
  {
    var e1, e2 := EntryText(c1), EntryText(c2);
    var s := e1 + e2;
    var first := Entry(c1.id, c1.value, |e1|);
    var second := Entry(c2.id, c2.value, |s|);
    assert EntryAt(s, 0) == Some(first) by {
      assert s[0..|e1|] == e1;
      EntryAtEntryText(s, 0, c1, |e1|);
    }
    assert EntryAt(s[|e1|..], 0) == Some(Entry(c2.id, c2.value, |e2|)) by {
      assert s[|e1|..][0..|e2|] == e2;
      EntryAtEntryText(s[|e1|..], 0, c2, |e2|);
    }
    assert s[|e1|..][|e2|..] == [];
    NoEntryAt([], 0);
    assert LastAdjacent(s[|e1|..], first) == second;
    FindChunksStep(s, second);
    assert s[|s|..] == [];
  }

  /** No entry starts at the end of the text or at a non-digit. */
  lemma NoEntryAt(s: string, p: nat)
    requires p <= |s|
    requires p == |s| || !IsDigit(s[p])
    ensures EntryAt(s, p).None?
  {
    SpanWhileStops(s, p, p, IsDigit);
  }

  lemma FindChunksStep(t: string, m: Entry)
    requires ChunkMatch(t) == Some(m)
    ensures FindChunks(t) == [Chunk(m.id, m.value)] + FindChunks(t[m.end..])
  {
  }

  /** A text that starts with a closing brace and nothing else has no
      chunks. */
  lemma FindClosingBrace()
    ensures FindChunks("}") == []
  {
    NoEntryAt("}", 0);
    assert "}"[1..] == [];
  }

  /** An entry followed by a comma or a closing brace is one whole match: the
      scan reports it and resumes after the comma, or at the brace. */
  lemma EntryThenSeparator(c: Chunk, rest: string)
    requires IsWellFormed(c)
    requires rest != [] && (rest[0] == ',' || rest[0] == '}')
    ensures rest[0] == ',' ==> FindChunks(EntryText(c) + rest) == [c] + FindChunks(rest[1..])
    ensures rest[0] == '}' ==> FindChunks(EntryText(c) + rest) == [c] + FindChunks(rest)
  {
    var m := SeparatedEntryMatch(c, rest);
    FindChunksStep(EntryText(c) + rest, m);
  }

  /** The match such an entry makes: its id and value, and the comma when
      there is one. */
  lemma SeparatedEntryMatch(c: Chunk, rest: string) returns (m: Entry)
    requires IsWellFormed(c)
    requires rest != [] && (rest[0] == ',' || rest[0] == '}')
    ensures ChunkMatch(EntryText(c) + rest) == Some(m)
    ensures m.id == c.id && m.value == c.value && m.end <= |EntryText(c) + rest|
    ensures rest[0] == ',' ==> (EntryText(c) + rest)[m.end..] == rest[1..]
    ensures rest[0] == '}' ==> (EntryText(c) + rest)[m.end..] == rest
  {
    var t := EntryText(c) + rest;
    var first := EntryTextAtStart(c, rest);
    assert t[first.end..] == rest;
    NoEntryAt(rest, 0);
    assert LastAdjacent(rest, first) == first;
    if rest[0] == ',' {
      m := first.(end := first.end + 1);
      assert t[m.end..] == rest[1..];
    } else {
      m := first;
    }
  }

  /** An entry written at the start of a text is read whole. */
  lemma EntryTextAtStart(c: Chunk, rest: string) returns (x: Entry)
    requires IsWellFormed(c)
    ensures x == Entry(c.id, c.value, |EntryText(c)|)
    ensures EntryAt(EntryText(c) + rest, 0) == Some(x)
  {
    var t := EntryText(c) + rest;
    x := Entry(c.id, c.value, |EntryText(c)|);
    assert t[0..|EntryText(c)|] == EntryText(c);
    EntryAtEntryText(t, 0, c, |EntryText(c)|);
  }

  /** The text of one entry as a bundler writes it: `id:"value"`. */
  function EntryText(c: Chunk): string
  {
    c.id + ":\"" + c.value + "\""
  }

  /** The entries from some point of a chunk map to its closing brace,
      comma-separated: `1:"a",2:"b"}`. */
  function RenderTail(cs: seq<Chunk>): string
  {
    if cs == [] then "}"
    else if |cs| == 1 then EntryText(cs[0]) + "}"
    else EntryText(cs[0]) + ("," + RenderTail(cs[1..]))
  }

  /** A chunk map literal as in the comment of chunk-spider.py:101:
      `{9:"26454eb9ee6ea13543d9",93:"45fc526fb568708f9e75"}`. */
  function RenderMap(cs: seq<Chunk>): string
  {
    "{" + RenderTail(cs)
  }

  /** Every chunk of `cs` is well formed, stated one chunk at a time. */
  predicate AllWellFormed(cs: seq<Chunk>)
    decreases |cs|
  {
    cs == [] || (IsWellFormed(cs[0]) && AllWellFormed(cs[1..]))
  }

  lemma {:induction false} EachWellFormed(cs: seq<Chunk>)
    requires forall i :: 0 <= i < |cs| ==> IsWellFormed(cs[i])
    ensures AllWellFormed(cs)
    decreases |cs|
  {
    if cs != [] {
      assert forall i :: 0 <= i < |cs[1..]| ==> cs[1..][i] == cs[i + 1];
      EachWellFormed(cs[1..]);
    }
  }

  /** Scanning a rendered chunk map gives back exactly its entries, in order
      and with repetitions. */
  lemma ScanRenderedMap(cs: seq<Chunk>)
    requires forall i :: 0 <= i < |cs| ==> IsWellFormed(cs[i])
    ensures ScanChunks(RenderMap(cs)) == cs
  {
    var s := RenderMap(cs);
    NoEntryAt(s, 0);
    assert s[1..] == RenderTail(cs);
    EachWellFormed(cs);
    FindRenderedTail(cs);
  }

  lemma {:induction false} FindRenderedTail(cs: seq<Chunk>)
    requires AllWellFormed(cs)
    ensures FindChunks(RenderTail(cs)) == cs
    decreases |cs|
  {
    if cs == [] {
      FindClosingBrace();
    } else if |cs| == 1 {
      FindRenderedLast(cs);
    } else {
      FindRenderedTail(cs[1..]);
      FindRenderedCons(cs);
    }
  }

  /** The last entry, followed by the closing brace. */
  lemma FindRenderedLast(cs: seq<Chunk>)
    requires |cs| == 1 && IsWellFormed(cs[0])
    ensures FindChunks(RenderTail(cs)) == cs
  {
    EntryThenSeparator(cs[0], "}");
    FindClosingBrace();
    assert cs == [cs[0]] + [];
  }

  /** An entry followed by a comma and the rest of the map. */
  lemma FindRenderedCons(cs: seq<Chunk>)
    requires |cs| > 1 && IsWellFormed(cs[0])
    requires FindChunks(RenderTail(cs[1..])) == cs[1..]
    ensures FindChunks(RenderTail(cs)) == cs
  {
    var rest := "," + RenderTail(cs[1..]);
    assert RenderTail(cs) == EntryText(cs[0]) + rest;
    EntryThenSeparator(cs[0], rest);
    assert rest[1..] == RenderTail(cs[1..]);
    assert cs == [cs[0]] + cs[1..];
  }

  /** An entry written as `id:"value"` is matched with exactly its id and
      value, whatever follows it. */
  lemma EntryAtEntryText(s: string, p: nat, c: Chunk, end: nat)
    requires IsWellFormed(c)
    requires end == p + |EntryText(c)|
    requires end <= |s| && s[p..end] == EntryText(c)
    ensures EntryAt(s, p) == Some(Entry(c.id, c.value, end))
  {
    EntryTextLayout(s, p, c, end);
    EntryAtLayout(s, p, c);
  }

  /** The same, from the character-by-character layout of the entry. */
  lemma EntryAtLayout(s: string, p: nat, c: Chunk)
    requires IsWellFormed(c)
    requires p + |c.id| + |c.value| + 2 < |s|
    requires forall k :: p <= k < p + |c.id| ==> s[k] == c.id[k - p]
    requires s[p + |c.id|] == ':' && s[p + |c.id| + 1] == '"'
    requires forall k :: p + |c.id| + 2 <= k < p + |c.id| + 2 + |c.value| ==> s[k] == c.value[k - p - |c.id| - 2]
    requires s[p + |c.id| + 2 + |c.value|] == '"'
    ensures EntryAt(s, p) == Some(Entry(c.id, c.value, p + |c.id| + |c.value| + 3))
  {
    var q := p + |c.id|;
    var u := q + 2 + |c.value|;
    IdPart(s, p, c.id);
    ValuePart(s, q + 2, c.value);
    EntryAtFromParts(s, p, q, u);
  }

  /** The digits of an id followed by `:"` are read as the id group, with no
      spaces around the colon. */
  lemma IdPart(s: string, p: nat, id: string)
    requires IsChunkId(id)
    requires p + |id| + 1 < |s|
    requires forall k :: p <= k < p + |id| ==> s[k] == id[k - p]
    requires s[p + |id|] == ':' && s[p + |id| + 1] == '"'
    ensures var q := p + |id|;
            && SpanWhile(s, p, IsDigit) == q && s[p..q] == id
            && SpanWhile(s, q, IsSpace) == q && SpanWhile(s, q + 1, IsSpace) == q + 1
  {
    var q := p + |id|;
    SliceOfRun(s, p, id);
    SpanWhileStops(s, p, q, IsDigit);
    SpanWhileStops(s, q, q, IsSpace);
    SpanWhileStops(s, q + 1, q + 1, IsSpace);
  }

  /** A chunk value followed by `"` is read as the value group. */
  lemma ValuePart(s: string, v: nat, value: string)
    requires IsChunkValue(value)
    requires v + |value| < |s|
    requires forall k :: v <= k < v + |value| ==> s[k] == value[k - v]
    requires s[v + |value|] == '"'
    ensures ValueEnd(s, v) == Some(v + |value|) && s[v..v + |value|] == value
  {
    SliceOfRun(s, v, value);
    ValueEndOfValue(s, v, value);
  }

  /** A run of `s` that agrees with `t` character by character is `t`. */
  lemma SliceOfRun(s: string, p: nat, t: string)
    requires p + |t| <= |s|
    requires forall k :: p <= k < p + |t| ==> s[k] == t[k - p]
    ensures s[p..p + |t|] == t
  {
  }

  /** `EntryAt` read off from where its digit run, colon, quote and value
      end. */
  lemma EntryAtFromParts(s: string, p: nat, q: nat, u: nat)
    requires p < q < |s| - 1
    requires SpanWhile(s, p, IsDigit) == q && SpanWhile(s, q, IsSpace) == q && s[q] == ':'
    requires SpanWhile(s, q + 1, IsSpace) == q + 1 && s[q + 1] == '"'
    requires ValueEnd(s, q + 2) == Some(u)
    ensures EntryAt(s, p) == Some(Entry(s[p..q], s[q + 2..u], u + 1))
  {
  }

  /** Where the parts of `id:"value"` sit when the text starts at `p`. */
  lemma EntryTextLayout(s: string, p: nat, c: Chunk, end: nat)
    requires end == p + |EntryText(c)|
    requires end <= |s| && s[p..end] == EntryText(c)
    ensures end == p + |c.id| + |c.value| + 3
    ensures forall k :: p <= k < p + |c.id| ==> s[k] == c.id[k - p]
    ensures s[p + |c.id|] == ':' && s[p + |c.id| + 1] == '"'
    ensures forall k :: p + |c.id| + 2 <= k < p + |c.id| + 2 + |c.value| ==> s[k] == c.value[k - p - |c.id| - 2]
    ensures s[p + |c.id| + 2 + |c.value|] == '"'
  {
    var e := EntryText(c);
    var written := s[p..end];
    assert forall k :: 0 <= k < |e| ==> s[p + k] == written[k];
    assert forall k :: 0 <= k < |c.id| ==> e[k] == c.id[k];
    assert e[|c.id|] == ':' && e[|c.id| + 1] == '"';
    assert forall k :: 0 <= k < |c.value| ==> e[|c.id| + 2 + k] == c.value[k];
    assert e[|c.id| + 2 + |c.value|] == '"';
  }

  lemma ValueEndOfValue(s: string, v: nat, value: string)
    requires IsChunkValue(value)
    requires v + |value| < |s|
    requires forall k :: v <= k < v + |value| ==> s[k] == value[k - v]
    requires s[v + |value|] == '"'
    ensures ValueEnd(s, v) == Some(v + |value|)
  {
    var w := v + |value|;
    assert IsAlias(value) && |value| > 20 ==> IsAlnum(value[1..][19]);
    assert IsHash(value) ==> v + 20 < |s| && s[v..v + 20] == value;
    if v + 20 < |s| && AllChars(s[v..v + 20], IsHexLower) && s[v + 20] == '"' {
      forall k | v <= k < v + 20
        ensures IsHexLower(s[k])
      {
        assert s[v..v + 20][k - v] == s[k];
      }
      assert !IsHexLower(s[w]);
      assert w == v + 20;
    } else {
      assert IsAlias(value);
      assert IsLowerAlpha(s[v]);
      forall k | v + 1 <= k < w
        ensures IsAlnum(s[k])
      {
        assert value[1..][k - v - 1] == value[k - v];
      }
      SpanWhileStops(s, v + 1, w, IsAlnum);
    }
  }

  // ----------------------------------------------------------------- paths

  /** The class `[:_/a-zA-Z0-9.?=&-]`. */
  predicate IsPathChar(c: char)
  {
    IsAlnum(c) || c == ':' || c == '_' || c == '/' || c == '.' || c == '?' || c == '='
    || c == '&' || c == '-'
  }

  /** What the path pattern captures: a slash and at least one more path
      character. */
  predicate IsPathLiteral(path: string)
  {
    |path| >= 2 && path[0] == '/' && AllChars(path, IsPathChar)
  }

  /** The path pattern at `p`: the captured text and the position after the
      closing quote. */
  function PathAt(s: string, p: nat): (r: Option<(string, nat)>)
    requires p <= |s|
    ensures r.Some? ==> p < r.value.1 <= |s| && IsPathLiteral(r.value.0)
  {
    if p + 1 < |s| && s[p] == '"' && s[p + 1] == '/' then
      var q := SpanWhile(s, p + 2, IsPathChar);
      if q > p + 2 && q < |s| && s[q] == '"' then
        var literal := s[p + 1..q];
        assert forall k :: 0 <= k < |literal| ==> literal[k] == s[p + 1 + k];
        Some((literal, q + 1))
      else None
    else None
  }

  /** `re.findall` of the path pattern over `t`. */
  function FindPaths(t: string): (r: seq<string>)
    ensures forall i :: 0 <= i < |r| ==> IsPathLiteral(r[i])
    decreases |t|
  {
    if t == [] then []
    else match PathAt(t, 0)
      case None => FindPaths(t[1..])
      case Some(m) => [m.0] + FindPaths(t[m.1..])
  }

  /** The literal a path match captures is written, quoted, at the start of
      the text. */
  lemma PathAtOccurs(t: string)
    requires PathAt(t, 0).Some?
    ensures OccursAt(t, Quoted(PathAt(t, 0).value.0), 0)
  {
    var (path, close) := PathAt(t, 0).value;
    assert t[0..close] == Quoted(path) by {
      assert t[0..close] == [t[0]] + t[1..close - 1] + [t[close - 1]];
    }
  }

  /** A quoted literal at position `j` of the rest of a text from `d` on is at
      position `d + j` of the text. */
  lemma QuotedOccursInRest(t: string, d: nat, j: nat, path: string) returns (k: nat)
    requires d <= |t| && OccursAt(t[d..], Quoted(path), j)
    ensures k == d + j && OccursAt(t, Quoted(path), k)
  {
    k := d + j;
    assert t[d..][j..j + |Quoted(path)|] == t[k..k + |Quoted(path)|];
  }

  /** What is quoted in the rest of a text is quoted in the text. */
  lemma ContainsInRest(t: string, d: nat, path: string)
    requires d <= |t| && Contains(t[d..], Quoted(path))
    ensures Contains(t, Quoted(path))
  {
    var j :| 0 <= j <= |t[d..]| && OccursAt(t[d..], Quoted(path), j);
    var k := QuotedOccursInRest(t, d, j, path);
  }

  /** Every path the scan reports is written in the text between quotes. */
  lemma {:induction false} FindPathsOccur(t: string)
    ensures forall path :: path in FindPaths(t) ==> Contains(t, Quoted(path))
    decreases |t|
  {
    if t != [] {
      match PathAt(t, 0)
      case None =>
        FindPathsOccur(t[1..]);
        forall path | path in FindPaths(t[1..]) ensures Contains(t, Quoted(path)) {
          ContainsInRest(t, 1, path);
        }
      case Some(m) =>
        FindPathsOccur(t[m.1..]);
        PathAtOccurs(t);
        forall path | path in FindPaths(t[m.1..]) ensures Contains(t, Quoted(path)) {
          ContainsInRest(t, m.1, path);
        }
    }
  }

  /** The path list `JsFile.parse` stores: every entry starts with `/`, has
      at least two characters and only path characters, and is written in
      the body between double quotes. */
  function ScanPaths(s: string): (r: seq<string>)
    ensures forall i :: 0 <= i < |r| ==> IsPathLiteral(r[i])
    ensures forall i :: 0 <= i < |r| ==> Contains(s, Quoted(r[i]))
  {
    FindPathsOccur(s);
    FindPaths(s)
  }

  /** The path scan comes back empty exactly when no quoted path literal
      starts at any position. */
  lemma {:induction false} ScanPathsEmptyIff(t: string)
    ensures FindPaths(t) == [] <==> forall k :: 0 <= k < |t| ==> PathAt(t[k..], 0).None?
    decreases |t|
  {
    if t != [] {
      ScanPathsEmptyIff(t[1..]);
      assert t[0..] == t;
      assert forall k :: 0 <= k < |t| - 1 ==> t[1..][k..] == t[k + 1..];
      if FindPaths(t) == [] {
        forall k | 0 <= k < |t| ensures PathAt(t[k..], 0).None? {
          if k > 0 {
            assert t[1..][k - 1..] == t[k..];
          }
        }
      }
    }
  }

  function Quoted(path: string): string
  {
    "\"" + path + "\""
  }

  /** Quoted path literals from some point of an array literal to its
      closing bracket: `"/a","/b"]`. */
  function RenderPathsTail(ps: seq<string>): string
  {
    if ps == [] then "]"
    else if |ps| == 1 then Quoted(ps[0]) + "]"
    else Quoted(ps[0]) + ("," + RenderPathsTail(ps[1..]))
  }

  /** An array of path literals: `["/api/user","/login"]`. */
  function RenderPaths(ps: seq<string>): string
  {
    "[" + RenderPathsTail(ps)
  }

  /** A quoted path literal is one whole match, whatever follows it: the
      scan reports the path and resumes after the closing quote. */
  lemma QuotedThen(path: string, rest: string)
    requires IsPathLiteral(path)
    ensures FindPaths(Quoted(path) + rest) == [path] + FindPaths(rest)
  {
    var t := Quoted(path) + rest;
    assert t[0..|Quoted(path)|] == Quoted(path);
    PathAtQuoted(t, 0, path);
    assert t[|Quoted(path)|..] == rest;
  }

  /** A text whose first character starts no path literal is scanned from its
      second character. */
  lemma SkipNonQuote(t: string)
    requires t != [] && t[0] != '"'
    ensures FindPaths(t) == FindPaths(t[1..])
  {
  }

  /** Scanning an array of quoted path literals gives back every literal, in
      order of occurrence and with duplicates kept. */
  lemma ScanRenderedPaths(ps: seq<string>)
    requires forall i :: 0 <= i < |ps| ==> IsPathLiteral(ps[i])
    ensures ScanPaths(RenderPaths(ps)) == ps
  {
    var s := RenderPaths(ps);
    SkipNonQuote(s);
    assert s[1..] == RenderPathsTail(ps);
    FindRenderedPathsTail(ps);
  }

  lemma {:induction false} FindRenderedPathsTail(ps: seq<string>)
    requires forall i :: 0 <= i < |ps| ==> IsPathLiteral(ps[i])
    ensures FindPaths(RenderPathsTail(ps)) == ps
    decreases |ps|
  {
    SkipNonQuote("]");
    assert "]"[1..] == [];
    if ps != [] {
      if |ps| == 1 {
        QuotedThen(ps[0], "]");
        assert ps == [ps[0]] + [];
      } else {
        var tail := RenderPathsTail(ps[1..]);
        QuotedThen(ps[0], "," + tail);
        SkipNonQuote("," + tail);
        assert ("," + tail)[1..] == tail;
        FindRenderedPathsTail(ps[1..]);
        assert ps == [ps[0]] + ps[1..];
      }
    }
  }

  lemma PathAtQuoted(s: string, p: nat, path: string)
    requires IsPathLiteral(path)
    requires p + |Quoted(path)| <= |s| && s[p..p + |Quoted(path)|] == Quoted(path)
    ensures PathAt(s, p) == Some((path, p + |Quoted(path)|))
  {
    var close := p + 1 + |path|;
    assert forall k :: 0 <= k < |Quoted(path)| ==> s[p + k] == Quoted(path)[k];
    assert s[p] == '"' && s[p + 1] == '/';
    assert forall k :: p + 2 <= k < close ==> s[k] == path[k - p - 1];
    assert s[close] == '"';
    SpanWhileStops(s, p + 2, close, IsPathChar);
    assert s[p + 1..close] == path;
  }
}
