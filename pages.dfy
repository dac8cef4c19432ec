// Fetching a ranking page: the HTTP status check and the login-wall test that the
// ingesters apply to every page before parsing it.
module Pages {
  import opened Wrappers
  import opened Text

  /** What requesting a page produced: a response, or no response at all. */
  datatype Response = Response(status: int, body: string) | NoResponse

  /** `fetchHtml`: every status is accepted by the client, and one of 400 or more is turned
      into an error here; so is a request that got no response. */
  function FetchHtml(r: Response): (html: Result<string, string>)
    ensures html.Ok? <==> r.Response? && r.status < 400
    ensures html.Ok? ==> html.value == r.body
  {
    match r
    case NoResponse => Err("request failed")
    case Response(status, body) => if status >= 400 then Err("HTTP error status") else Ok(body)
  }

  /** `/Please Log In|Not a Member|You need to be logged in/i.test(html)`. */
  predicate LoginWall(html: string)
  {
    ContainsCI(html, "Please Log In") || ContainsCI(html, "Not a Member")
      || ContainsCI(html, "You need to be logged in")
  }

  /** Lower-casing is idempotent. */
  lemma LowerCharIdempotent(c: char)
    ensures LowerChar(LowerChar(c)) == LowerChar(c)
  {
  }

  /** Case-insensitive matching does not see the case of the text. */
  lemma MatchesAtCILower(s: string, i: nat, pat: string)
    ensures MatchesAtCI(Lower(s), i, pat) <==> MatchesAtCI(s, i, pat)
  {
    if i + |pat| <= |s| {
      forall j | i <= j < i + |pat| ensures LowerChar(Lower(s)[j]) == LowerChar(s[j]) {
        LowerCharIdempotent(s[j]);
      }
    }
  }

  lemma ContainsCILower(s: string, pat: string)
    ensures ContainsCI(Lower(s), pat) <==> ContainsCI(s, pat)
  {
    if ContainsCI(s, pat) {
      var i :| 0 <= i <= |s| && MatchesAtCI(s, i, pat);
      MatchesAtCILower(s, i, pat);
    }
    if ContainsCI(Lower(s), pat) {
      var i :| 0 <= i <= |Lower(s)| && MatchesAtCI(Lower(s), i, pat);
      MatchesAtCILower(s, i, pat);
    }
  }

  /** The login wall is recognised whatever the case of the page: a page is walled exactly
      when its lower-cased text is. */
  lemma LoginWallIgnoresCase(html: string)
    ensures LoginWall(Lower(html)) <==> LoginWall(html)
  {
    ContainsCILower(html, "Please Log In");
    ContainsCILower(html, "Not a Member");
    ContainsCILower(html, "You need to be logged in");
  }

  /** Any of the three phrases anywhere in the page, in any case, walls it. */
  lemma LoginWallAt(html: string, i: nat, phrase: string)
    requires phrase in {"Please Log In", "Not a Member", "You need to be logged in"}
    requires MatchesAtCI(html, i, phrase)
    ensures LoginWall(html)
  {
  }

  // ------------------------------------------------------------------ the page loop

  /** A configured ranking page: its URL, its season key, what fetching it produced, and the
      rows of the ranking table in its body. */
  datatype Page<R> = Page(url: string, key: string, response: Response, rows: seq<R>)

  /** A parsed row, with the URL and season key of its page. */
  datatype Tagged<T> = Tagged(url: string, key: string, row: T)

  function TagAll<T>(url: string, key: string, items: seq<T>): (cs: seq<Tagged<T>>)
    ensures |cs| == |items|
    ensures forall i :: 0 <= i < |items| ==> cs[i] == Tagged(url, key, items[i])
  {
    seq(|items|, i requires 0 <= i < |items| => Tagged(url, key, items[i]))
  }

  predicate Failed<R>(p: Page<R>)
  {
    FetchHtml(p.response).Err?
  }

  function FailedAt<R>(pages: seq<Page<R>>): nat -> bool
  {
    (i: nat) => i < |pages| && Failed(pages[i])
  }

  /** The page whose fetch throws first, if any: the loop stops there, since nothing in it
      catches the error. */
  function FirstFailure<R>(pages: seq<Page<R>>): (r: Option<nat>)
    ensures r.Some? ==> r.value < |pages| && Failed(pages[r.value])
    ensures r.Some? ==> forall k :: 0 <= k < r.value ==> !Failed(pages[k])
    ensures r.None? <==> forall k :: 0 <= k < |pages| ==> !Failed(pages[k])
  {
    var r := FirstWhere(FailedAt(pages), 0, |pages|);
    assert forall k: nat :: k < |pages| ==> (FailedAt(pages)(k) <==> Failed(pages[k]));
    assert !FailedAt(pages)(|pages|);
    r
  }

  /** FirstFailure stops at the first page that fails. */
  lemma FirstFailureAt<R>(pages: seq<Page<R>>, i: nat)
    requires i < |pages| && Failed(pages[i]) && forall k :: 0 <= k < i ==> !Failed(pages[k])
    ensures FirstFailure(pages) == Some(i)
  {
  }

  /** The rows a page yields: none when it could not be fetched or sits behind the login
      wall, and otherwise the parsed rows of its table, tagged with the page. */
  function PageRows<R, T>(p: Page<R>, parse: seq<R> -> seq<T>): seq<Tagged<T>>
  {
    match FetchHtml(p.response)
    case Err(_) => []
    case Ok(html) => if LoginWall(html) then [] else TagAll(p.url, p.key, parse(p.rows))
  }

  /** The rows of the first n pages, in page order. */
  function Flat<R, T>(pages: seq<Page<R>>, parse: seq<R> -> seq<T>, n: nat): seq<Tagged<T>>
    requires n <= |pages|
  {
    if n == 0 then [] else Flat(pages, parse, n - 1) + PageRows(pages[n - 1], parse)
  }

  /** Every row comes from a page that was read and not walled, as parsed from its table. */
  lemma {:induction false} FlatFromPages<R, T>(pages: seq<Page<R>>, parse: seq<R> -> seq<T>, n: nat, i: nat)
    returns (p: nat, j: nat)
    requires n <= |pages| && i < |Flat(pages, parse, n)|
    ensures p < n && FetchHtml(pages[p].response).Ok? && !LoginWall(FetchHtml(pages[p].response).value)
    ensures j < |parse(pages[p].rows)|
    ensures Flat(pages, parse, n)[i] == Tagged(pages[p].url, pages[p].key, parse(pages[p].rows)[j])
    decreases n
  {
    var before := Flat(pages, parse, n - 1);
    if i < |before| {
      p, j := FlatFromPages(pages, parse, n - 1, i);
      assert Flat(pages, parse, n)[i] == before[i];
    } else {
      p, j := n - 1, i - |before|;
      assert Flat(pages, parse, n)[i] == PageRows(pages[p], parse)[j];
    }
  }

  /** And every parsed row of every page read and not walled is there. */
  lemma {:induction false} FlatHasPages<R, T>(pages: seq<Page<R>>, parse: seq<R> -> seq<T>, n: nat, p: nat, j: nat)
    returns (i: nat)
    requires n <= |pages| && p < n
    requires FetchHtml(pages[p].response).Ok? && !LoginWall(FetchHtml(pages[p].response).value)
    requires j < |parse(pages[p].rows)|
    ensures i < |Flat(pages, parse, n)|
    ensures Flat(pages, parse, n)[i] == Tagged(pages[p].url, pages[p].key, parse(pages[p].rows)[j])
    decreases n
  {
    var before := Flat(pages, parse, n - 1);
    if p < n - 1 {
      i := FlatHasPages(pages, parse, n - 1, p, j);
      assert Flat(pages, parse, n)[i] == before[i];
    } else {
      i := |before| + j;
      assert Flat(pages, parse, n)[i] == PageRows(pages[p], parse)[j];
    }
  }
}
