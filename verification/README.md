# chunk-spider, modelled in Dafny

`chunk-spider.py` crawls a web application's JavaScript bundles. It starts from one URL and fetches it. An HTML page yields the `src` of its script tags. A script bundle yields the chunk files its bundler chunk map names, and it also yields every quoted string that looks like a server path. Each new script URL is crawled recursively. A body that has been seen before, by content hash, is never parsed again.

This project models that engine as pure functions over an abstract, finite web. The web is a map from URL to reply, and it proves what each step promises:

- `Resources` models `Resource.fetch`. It covers the failure rules in the order the code applies them, and the choice between a script and an HTML page.
- `HtmlRefs` models how the `src` list is collected, how each `src` is made absolute against the page URL, and the de-duplicated URL list of a page.
- `ChunkScan` models the two regular-expression scans of a script body as explicit matchers with `re.findall` semantics:
  - the chunk map `((\d+) *: *"([a-f0-9]{20}|[a-z][a-zA-Z0-9]+)")+,?`
  - path literals `"(/[:_/a-zA-Z0-9.?=&-]+)"`
- `ChunkUrls` models three steps: the lookup table of hash-valued entries, the single alias hop over the growing chunk list, and chunk URL synthesis next to the script.
- `Spider` models `spider_url`, the recursive crawl. Termination is shown by the number of distinct bodies not yet hashed; the interpreter's recursion limit is not modelled (see below).
- Supporting modules:
  - `Common` provides Option, Result, and first-occurrence de-duplication standing in for `list(set(…))`.
  - `Text` provides character classes and string search.
  - `PosixPath` provides `dirname`, `basename` and `join`.
  - `Url` covers the scheme/netloc/path part of `urlparse`.

The model follows the code as written, including where it departs from the crawler the code evidently aims at:

- An `http://…` `src` is not taken as-is. It goes through the relative branch, like any other `src`.
- A failed fetch is not caught. It ends the whole run.
- There is no same-host filter and no path prober.
- A URL is recorded as found only after its recursive visit returns.
- Inline script bodies are not scanned. `script.content` is `None`, so a script tag without `src` makes the join at line 59 raise.

## Model

| member | source | states |
|---|---|---|
| Resources.Fetch | chunk-spider.py:25-40 | A fetch succeeds exactly when the URL is reachable, the status is not 400–599, the body is non-empty, the status text starts with `2`, and a content type is present. The resource keeps the URL and body. It is a script exactly when the content type contains `javascript`. An unreachable URL raises. |
| Resources.StatusAcceptedIff | chunk-spider.py:28 | For a three-digit status, the prefix test `str(status).startswith('2')` accepts exactly 200–299. |
| Resources.FetchOkIsSuccess | chunk-spider.py:27-30 | A successful fetch of a three-digit status was a 2xx reply with a body and a content type. |
| Resources.FetchErrorKinds | chunk-spider.py:27-28 | With a body present, a 3xx reply fails on its status code. A 4xx or 5xx reply fails as "no content", because the falsy-response test comes first. |
| Resources.OddStatusesAccepted | chunk-spider.py:28 | The prefix test is textual, so statuses 20 and 2000 pass it. |
| Resources.ClassificationIsCaseSensitive | chunk-spider.py:36-39 | A `text/JavaScript` reply is classified as HTML, because the substring test is case-sensitive. |
| HtmlRefs.TagSources | chunk-spider.py:54-62 | The `src` list of a page exists exactly when every script tag has a non-empty `src`. It then holds those sources, in tag order, one per tag. |
| HtmlRefs.ResolveKeepsSchemeAndSource | chunk-spider.py:72-82 | Every resolved URL starts with the page's scheme and `:`, and ends with the `src` as written. |
| HtmlRefs.ProtocolRelativeParses | chunk-spider.py:72-74 | `//host/path` parses back to the page's scheme with the source's host and path. |
| HtmlRefs.RootRelativeParses | chunk-spider.py:77-79 | `/path` parses back to the page's scheme and host with that path. |
| HtmlRefs.ResolveRelative | chunk-spider.py:72-82 | A source not starting with `/` is joined to the directory of the page's path, on the page's scheme and host. |
| HtmlRefs.RelativeStaysInDirectory | chunk-spider.py:82 | A plain file name resolves to a path whose directory is the page's directory and whose final component is that name. |
| HtmlRefs.RelativeInSubdirectory | chunk-spider.py:82 | On a page at `dir/file`, a relative source becomes `dir/src`. An absolute `https://…` source is glued on the same way. |
| HtmlRefs.EmptyPathGluesHost | chunk-spider.py:82 | On a page URL with an empty path, a relative source is appended to the host with no slash. |
| HtmlRefs.HtmlJsUrls | chunk-spider.py:64-90 | A page's URL list has no duplicates. A URL is in it exactly when it resolves some collected `src`. |
| ChunkScan.ScanChunks | chunk-spider.py:102-103 | Every reported pair has a digit-run id and a value that is either a 20-character lower-hex hash or an alias token. Every reported pair is an `id: "value"` entry that occurs in the body. |
| ChunkScan.FindChunksSound | chunk-spider.py:102-103 | The same two facts for the scan from any position of a body. |
| ChunkScan.ScanChunksEmptyIff | chunk-spider.py:102-103 | The scan finds nothing exactly when no entry starts at any position. |
| ChunkScan.ScanRenderedMap | chunk-spider.py:101-103 | Scanning a chunk-map literal `{id:"v",…}` of well-formed entries gives back exactly its entries, in order, repetitions included. |
| ChunkScan.EntryThenSeparator | chunk-spider.py:102 | An entry followed by `,` is one match that also consumes the comma. An entry followed by `}` is one match that stops before the brace. |
| ChunkScan.AdjacentEntriesCollapse | chunk-spider.py:102-103 | Two entries written back to back form one match of the outer `(…)+`, and only the second is reported. |
| ChunkScan.ScanPaths | chunk-spider.py:106-107 | Every reported path starts with `/`, has at least two characters, contains only path characters, and is written in the body between double quotes. |
| ChunkScan.FindPathsOccur | chunk-spider.py:106-107 | Every path the scan reports from any position of a body is written, quoted, in that body. |
| ChunkScan.ScanPathsEmptyIff | chunk-spider.py:106-107 | The path scan finds nothing exactly when no quoted path literal starts at any position. |
| ChunkScan.QuotedThen | chunk-spider.py:106-107 | A quoted path literal is one whole match, whatever follows it. The scan reports the path and resumes after the closing quote. |
| ChunkScan.SkipNonQuote | chunk-spider.py:106-107 | A body whose first character is not a quote is scanned from its second character. |
| ChunkScan.ScanRenderedPaths | chunk-spider.py:106-107 | Scanning an array of quoted path literals gives back every literal, in order, duplicates included. |
| ChunkUrls.Lookup | chunk-spider.py:115-118 | Every value in the lookup table contains a 20-character lower-hex run. |
| ChunkUrls.LookupHoldsLastHash | chunk-spider.py:115-118 | The table's keys are exactly the ids that have a hash-valued entry. Each id maps to the value of its last such entry. |
| ChunkUrls.Aliases | chunk-spider.py:122-124 | A pair is appended exactly when it is `(alias, lookup[id])` for some entry whose value has no hash run and whose id is in the table. No more pairs are appended than there are entries. |
| ChunkUrls.AliasesAppend | chunk-spider.py:122-124 | The pairs appended for the first `i + 1` entries are those for the first `i` followed by those for entry `i`: each entry contributes on its own, in order. |
| ChunkUrls.AliasesOfOne | chunk-spider.py:123-124 | One entry contributes exactly one pair `(value, lookup[id])` when it is resolvable and none otherwise, so each entry appends at most one pair. |
| ChunkUrls.AliasHop | chunk-spider.py:122-124 | The loop that appends to the list it iterates over stops. It yields the scanned pairs followed by the aliases, in order. |
| ChunkUrls.AliasHopIsSingle | chunk-spider.py:122-124 | Every appended pair is hash-valued, so resolving the appended pairs again adds nothing. Exactly one hop is taken. |
| ChunkUrls.AliasOfHashedId | chunk-spider.py:122-124 | For `[(id, h), (id, alias)]` with `h` hash-like, the resolved list gains `(alias, h)`. |
| ChunkUrls.ResolvedAreTokens | chunk-spider.py:102-124 | Every pair in the resolved list of a scanned body has non-empty alphanumeric id and value. |
| ChunkUrls.JsUrls | chunk-spider.py:111-129 | A script's URL list has no duplicates. A URL is in it exactly when it is the chunk URL of some resolved pair, unresolved alias pairs included. |
| ChunkUrls.ChunkUrlParses | chunk-spider.py:126-128 | A chunk URL parses back to the script's scheme and host, with path `dirname(script path)/id.value.js`. |
| ChunkUrls.RootScriptDoubleSlash | chunk-spider.py:127-128 | For a script at the site root, the chunk URL has `//` after the host. |
| ChunkUrls.SubdirScriptChunks | chunk-spider.py:127-128 | For a script at `dir/name`, the chunk files are looked up in `dir`. |
| Spider.Expand | chunk-spider.py:146-150 | Parsing a fresh resource appends its hash and keeps the found files. It adds exactly the script's scanned paths to the found paths, and only extends the `src` list. It fails exactly for an HTML page with a script tag lacking `src`. |
| Spider.MarkupChildrenShareSources | chunk-spider.py:43-82 | An HTML page's children include every `src` of its own script tags and every `src` collected from pages parsed before it, each resolved against this page's URL, because `HtmlFile.jsfiles` is one class-level list. |
| Spider.VisitOutcome | chunk-spider.py:141-159 | A failed fetch aborts with that failure. A body already hashed leaves the state unchanged. A successful visit has hashed the body. On a fresh body, every child URL ends among the found files, files and paths are duplicate-free, and the hashes extend the old ones by this body. |
| Spider.VisitGrows | chunk-spider.py:141-159 | A visit only appends to hashes and to the `src` list, and never loses a found file or path. |
| Spider.VisitAllRecords | chunk-spider.py:150-157 | The child loop leaves every URL it was given among the found files. |
| Spider.VisitSound | chunk-spider.py:141-159 | A visit keeps hashes distinct and served by the web, found files fetchable, and found paths path literals. |
| Spider.KnownUrlsSkipped | chunk-spider.py:152-154 | URLs that are all found files already are skipped without a fetch. |
| Spider.ChildFailureAborts | chunk-spider.py:150-157 | A failing fetch of a new child URL aborts the child loop with that failure. |
| Spider.RevisitIsNoOp | chunk-spider.py:145 | Visiting a URL again from the state its first visit left changes nothing. |
| Spider.Spider | chunk-spider.py:141-159 | A successful run ends in a sound state with duplicate-free files and paths, and the seed's body is the first hash. A failing seed fetch is the run's failure. |
| Spider.HashesBounded | chunk-spider.py:145-146 | No more resources are parsed than the web has distinct bodies. |
| Common.Dedup | chunk-spider.py:88 | `list(set(xs))` has no duplicates and the same elements as `xs`. |
| Common.DedupIdempotent | chunk-spider.py:159 | De-duplicating the found paths again at line 159, after line 148 already did, changes nothing. Line 158 is not such a no-op: a URL can be appended to the found files twice, by a nested child loop and again by an outer one, and line 158 removes the duplicate. |
| PosixPath.Dirname | chunk-spider.py:82 | `dirname` is a prefix of the path ending before the final component. It is empty exactly when the path has no slash, and does not end in a slash unless it is all slashes. |
| PosixPath.JoinDirnameBasename | chunk-spider.py:82 | Joining `dirname` and `basename` of a path without `//` gives the path back. |
| PosixPath.DirnameOfJoin | chunk-spider.py:82 | Joining a file name to a directory-shaped path and taking `dirname` and `basename` gives both back. |
| Url.UrlParse | chunk-spider.py:66 | The parsed scheme is empty or a lower-case scheme. The netloc has no `/`, `?` or `#`. The path has no `?` or `#`. |
| Url.ParseCompose | chunk-spider.py:78 | `urlparse(scheme + "://" + netloc + path)` gives back the three parts, for a scheme, a delimiter-free netloc, and a plain rooted path. |

## Left out

- HTTP transport is left out. `requests.get`, proxies, TLS verification and redirects are replaced by a finite map from URL to final reply. A URL outside the map stands for any transport exception.
- SHA-256 is left out. The body itself serves as the content hash, so two bodies are treated as the same exactly when they are equal, which assumes the digest has no collisions.
- `response.content.decode()` is left out. Bodies are already character strings, so a UTF-8 decoding error is not modelled.
- The HTML parser (BeautifulSoup) is a function parameter from body to script tags. Its tokenisation is not modelled.
- Inline scripts are modelled only as the failure they cause. Any script tag without a truthy `src` makes the run fail. Line 86, which refers to an undefined `js`, is unreachable for that reason.
- `argparse`, `main`, every `print` and the `time`/`signal` imports are left out. They are output and wiring only.
- `urlparse` is left out in part. It is modelled for scheme, netloc and path only. Leading-whitespace stripping, tab and newline removal, and IPv6 bracket checks are left out.
- `\d` is modelled as ASCII digits only. For Python `str` patterns it also matches other Unicode decimal digits.
- Common.Dedup fixes one order, first occurrence. `list(set(xs))` at chunk-spider.py:88 and 129 has an unspecified order that can change from run to run. That order decides which of several URLs serving the same body is parsed: only the first one visited is (line 145), and its chunk URLs are built from its own URL (lines 127-128). So the found files and paths, and whether the run succeeds at all, depend on that order. The Spider lemmas hold for every order of a child list, but the Spider functions compute the state of the first-occurrence order only.
- Spider.Spider does not state that the seed URL is never among the found files unless a page links to it. That holds in the code but is not proved.
- Spider.Visit does not bound the recursion depth. `spider_url` recurses once for each nested fresh child (line 156), and CPython aborts with `RecursionError` past its recursion limit (1000 frames by default). Nothing catches that error, so a real run over a chain of about a thousand nested distinct bodies fails, where the model returns `Ok` for every finite web.
- HtmlRefs.ResolveSrc has no contract of its own. Its behaviour is stated by ResolveKeepsSchemeAndSource, ProtocolRelativeParses, RootRelativeParses, ResolveRelative, RelativeInSubdirectory and EmptyPathGluesHost.
- Spider.Visit and Spider.VisitAll state in their own contracts only that hashes are extended. Everything else about a visit is in the Spider lemmas above.
- Both scanners are stated over the remaining text rather than a position in the whole body. Neither pattern looks behind its start, so scanning from a position is the same as scanning the rest of the body from there.
- Class-level mutable lists are modelled as state threaded through the crawl. `HtmlFile.jsfiles` is shared by every page, which is the `srcs` field of the crawl state. `ChunkSpider.foundfiles` is appended to after each child visit.
