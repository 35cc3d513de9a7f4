/** `Resource.fetch`: one HTTP GET against an abstract, finite web, the
    failure rules applied to the response, and the choice between a script
    and an HTML document. */
module Resources {
  import opened Common
  import opened Text

  /** What the server answers for a URL after redirects: the status code, the
      `content-type` header if present, and the body. */
  datatype Reply = Reply(status: nat, contentType: Option<string>, body: string)

  /** The web the spider crawls. A URL outside the map is one the transport
      cannot reach (connection error, TLS failure, too many redirects). */
  type Web = map<string, Reply>

  /** The class a fetched resource becomes: `JsFile` or `HtmlFile`. */
  datatype Kind = Script | Markup

  /** A successfully fetched resource. The body doubles as its content hash:
      SHA-256 is treated as injective. */
  datatype Resource = Resource(url: string, kind: Kind, body: string)

  /** Why a fetch raises. */
  datatype FetchError =
    | Unreachable          // `requests.get` itself raises
    | NoContent            // a falsy response (status 400-599) or an empty body
    | BadStatus(status: nat) // the status code does not start with `2`
    | NoContentType        // no `content-type` header: `'javascript' in None` raises

  /** `requests`' `Response.ok` is false exactly for a client or server error
      status; such a response is falsy. */
  predicate IsErrorStatus(status: nat) { 400 <= status < 600 }

  /** `str(status).startswith('2')`. */
  predicate StatusAccepted(status: nat) { Decimal(status)[0] == '2' }

  /** Every body the web can serve. */
  function Bodies(web: Web): set<string>
  {
    set u | u in web :: web[u].body
  }

  /** `Resource.fetch` (chunk-spider.py:25-40): the checks run in the order of
      the source, so a 404 with a body is reported as missing content, not as
      a bad status. */
  function Fetch(web: Web, url: string): (r: Result<Resource, FetchError>)
    ensures r.Ok? <==> && url in web && !IsErrorStatus(web[url].status) && web[url].body != []
                       && StatusAccepted(web[url].status) && web[url].contentType.Some?
    ensures r.Ok? ==> r.value.url == url && r.value.body == web[url].body && r.value.body in Bodies(web)
    ensures r.Ok? ==> (r.value.kind == Script <==> Contains(web[url].contentType.value, "javascript"))
    ensures url !in web ==> r == Err(Unreachable)
  {
    if url !in web then Err(Unreachable)
    else
      var reply := web[url];
      if IsErrorStatus(reply.status) || reply.body == [] then Err(NoContent)
      else if !StatusAccepted(reply.status) then Err(BadStatus(reply.status))
      else if reply.contentType.None? then Err(NoContentType)
      else
        var kind := if Contains(reply.contentType.value, "javascript") then Script else Markup;
        Ok(Resource(url, kind, reply.body))
  }

  /** The leading digit of a three-digit number is its hundreds digit. */
  lemma {:induction false} DecimalOfThreeDigits(n: nat)
    requires 100 <= n < 1000
    ensures Decimal(n)[0] == DigitChar(n / 100)
  {
    var tens := n / 10;
    assert Decimal(n) == Decimal(tens) + [DigitChar(n % 10)];
    assert Decimal(tens) == Decimal(tens / 10) + [DigitChar(tens % 10)];
    assert tens / 10 == n / 100;
    assert Decimal(n / 100) == [DigitChar(n / 100)];
  }

  /** For an ordinary three-digit status, the prefix test accepts exactly the
      2xx range. */
  lemma StatusAcceptedIff(status: nat)
    requires 100 <= status < 1000
    ensures StatusAccepted(status) <==> 200 <= status < 300
  {
    DecimalOfThreeDigits(status);
  }

  /** A successful fetch of a three-digit status was a 2xx answer with a body
      and a content type. */
  lemma FetchOkIsSuccess(web: Web, url: string)
    requires Fetch(web, url).Ok?
    requires 100 <= web[url].status < 1000
    ensures 200 <= web[url].status < 300
    ensures web[url].body != [] && web[url].contentType.Some?
  {
    StatusAcceptedIff(web[url].status);
  }

  /** A 3xx answer with a body fails on its status code; a 4xx or 5xx answer
      fails as missing content even when it has a body. */
  lemma FetchErrorKinds(web: Web, url: string)
    requires url in web && web[url].body != []
    ensures 300 <= web[url].status < 400 ==> Fetch(web, url) == Err(BadStatus(web[url].status))
    ensures 400 <= web[url].status < 600 ==> Fetch(web, url) == Err(NoContent)
  {
    var status := web[url].status;
    if 300 <= status < 400 {
      StatusAcceptedIff(status);
    }
  }

  /** The prefix test looks at the text only: a status of `2000` or `20`
      passes it. */
  lemma OddStatusesAccepted()
    ensures StatusAccepted(20) && StatusAccepted(2000)
  {
    assert Decimal(2) == ['2'];
    assert Decimal(20) == Decimal(2) + ['0'];
    assert Decimal(200) == Decimal(20) + ['0'];
    assert Decimal(2000) == Decimal(200) + ['0'];
  }

  /** The script test is case-sensitive: `text/JavaScript` is served to the
      HTML parser. */
  lemma ClassificationIsCaseSensitive(web: Web, url: string)
    requires url in web && web[url] == Reply(200, Some("text/JavaScript"), "x")
    ensures Fetch(web, url).Ok? && Fetch(web, url).value.kind == Markup
  {
    StatusAcceptedIff(200);
    var ct := "text/JavaScript";
    forall i | 0 <= i <= |ct| ensures !OccursAt(ct, "javascript", i) {
      if i + 10 <= |ct| {
        assert ct[i..i + 10][0] == ct[i];
      }
    }
  }
}
