/** Following `next` links from page to page.  A URL is its part before the query and its decoded query
    pairs, in order; equal URLs are equal texts. */
module Pagination {
  import opened Wrappers
  import opened Texts

  datatype Url = Url(base: string, query: seq<(string, string)>)

  /** What counts as the same page: pairs sorted by name, values of one name in their order. */
  datatype VisitedKey = VisitedKey(base: string, values: map<string, seq<string>>)

  // An item is a JSON value the follower hands on unread.
  type Item = int

  datatype Fault = RequestFailed(status: int) | NotJson | NotAList | Unreachable

  datatype Response = Page(items: seq<Item>, next: Option<Url>) | Failed(fault: Fault)

  /** Why the iteration is over: no next link, a page already fetched, or an exception. */
  datatype Outcome =
    | NoNextLink
    | AlreadyVisited
    | TooManyPages
    | Raised(fault: Fault)
    | BadPageSize

  /** The address relative links belong to, and what the server answers to the k-th request. */
  datatype Site = Site(clientBase: string, answer: (Url, nat) -> Response)

  const MAX_PAGES := 1000

  // ---- URLs ----

  function ValuesOf(query: seq<(string, string)>): map<string, seq<string>> {
    if query == [] then map[]
    else
      var rest, last := ValuesOf(query[..|query| - 1]), query[|query| - 1];
      rest[last.0 := (if last.0 in rest then rest[last.0] else []) + [last.1]]
  }

  /** Only the first page number is left out. */
  function KeyOf(url: Url): VisitedKey {
    var values := ValuesOf(url.query);
    VisitedKey(url.base, if "page" in values && values["page"] == ["1"] then values - {"page"} else values)
  }

  predicate IsAbsolute(base: string) {
    "http://" <= base || "https://" <= base
  }

  function Resolve(site: Site, url: Url): Url {
    if IsAbsolute(url.base) then url
    else Url(site.clientBase + (if "/" <= url.base then "" else "/") + url.base, url.query)
  }

  predicate Names(params: seq<(string, string)>, name: string) {
    params != [] && (params[|params| - 1].0 == name || Names(params[..|params| - 1], name))
  }

  /** `per_page` and the caller's parameters; the page size wins over a parameter of its name. */
  function Merged(perPage: nat, params: seq<(string, string)>): seq<(string, string)> {
    if params == [] then [("per_page", DigitsOf(perPage))]
    else
      var rest, last := Merged(perPage, params[..|params| - 1]), params[|params| - 1];
      if Names(rest, last.0) then rest else rest + [last]
  }

  /** The first request: the path, without a query of its own, and the merged parameters. */
  function FirstUrl(site: Site, path: string, perPage: nat, params: seq<(string, string)>): Url {
    Url(Resolve(site, Url(path, [])).base, Merged(perPage, params))
  }

  // ---- What the first request asks for ----

  /** The first pair of its name, and not the page size. */
  predicate IsCallers(params: seq<(string, string)>, i: nat) {
    i < |params| && params[i].0 != "per_page" && forall j :: 0 <= j < i ==> params[j].0 != params[i].0
  }

  /** After the page size come the caller's parameters at the places `at`, and no others: each name once,
      with its first value, in the caller's order. */
  ghost predicate IsQueryAt(perPage: nat, params: seq<(string, string)>, query: seq<(string, string)>, at: seq<nat>) {
    && |query| == |at| + 1 && query[0].0 == "per_page" && IsNumeral(query[0].1, perPage)
    && (forall i :: 0 <= i < |at| ==> IsCallers(params, at[i]) && query[i + 1] == params[at[i]])
    && (forall i, j :: 0 <= i < j < |at| ==> at[i] < at[j])
    && (forall i: nat :: IsCallers(params, i) ==> i in at)
  }

  /** The address of the path, against the client's if it is relative, with that query. */
  ghost predicate AsksFor(site: Site, path: string, perPage: nat, params: seq<(string, string)>, url: Url) {
    && url.base == (if "http://" <= path || "https://" <= path then path
                    else if "/" <= path then site.clientBase + path
                    else site.clientBase + "/" + path)
    && exists at :: IsQueryAt(perPage, params, url.query, at)
  }

  lemma {:induction false} NamesAre(params: seq<(string, string)>, name: string)
    ensures Names(params, name) <==> exists i :: 0 <= i < |params| && params[i].0 == name
  {
    if params != [] {
      var n := |params| - 1;
      NamesAre(params[..n], name);
      assert forall i :: 0 <= i < n ==> params[..n][i] == params[i];
    }
  }

  lemma {:induction false} MergedIsQuery(perPage: nat, params: seq<(string, string)>) returns (at: seq<nat>)
    ensures IsQueryAt(perPage, params, Merged(perPage, params), at)
  {
    if params == [] {
      at := [];
      DigitsOfIsNumeral(perPage);
    } else {
      var n := |params| - 1;
      at := MergedIsQuery(perPage, params[..n]);
      var rest := Merged(perPage, params[..n]);
      NamesAre(rest, params[n].0);
      hide IsQueryAt, IsCallers, Names;
      LastIsCallers(params, perPage, rest, at);
      QueryGrows(perPage, params, rest, at);
      if IsCallers(params, n) { at := at + [n]; }
    }
  }

  lemma QueryGrows(perPage: nat, params: seq<(string, string)>, rest: seq<(string, string)>, at: seq<nat>)
    requires params != [] && IsQueryAt(perPage, params[..|params| - 1], rest, at)
    ensures var n := |params| - 1;
      if IsCallers(params, n) then IsQueryAt(perPage, params, rest + [params[n]], at + [n])
      else IsQueryAt(perPage, params, rest, at)
  {
    var n := |params| - 1;
    forall i: nat | i < n ensures IsCallers(params[..n], i) <==> IsCallers(params, i) {}
    hide IsNumeral;
    forall i: nat | IsCallers(params, i) ensures i < n ==> i in at { assert i < n ==> IsCallers(params[..n], i); }
  }

  /** The last parameter is new exactly if nothing so far has its name. */
  lemma LastIsCallers(params: seq<(string, string)>, perPage: nat, rest: seq<(string, string)>, at: seq<nat>)
    requires params != [] && IsQueryAt(perPage, params[..|params| - 1], rest, at)
    ensures var n := |params| - 1;
      IsCallers(params, n) <==> !exists i :: 0 <= i < |rest| && rest[i].0 == params[n].0
  {
    var n := |params| - 1;
    if i :| 0 <= i < |rest| && rest[i].0 == params[n].0 {
      if i > 0 { assert params[at[i - 1]].0 == params[n].0; }
    }
    if !IsCallers(params, n) && params[n].0 != "per_page" {
      var j := FirstOfName(params, n);
      assert params[..n][j] == params[j] && IsCallers(params[..n], j);
      var i :| 0 <= i < |at| && at[i] == j;
      assert rest[i + 1].0 == params[n].0;
    }
  }

  lemma FirstOfName(params: seq<(string, string)>, n: nat) returns (j: nat)
    requires n < |params| && params[n].0 != "per_page" && !IsCallers(params, n)
    ensures j < n && IsCallers(params, j) && params[j].0 == params[n].0
  {
    j := 0;
    while params[j].0 != params[n].0
      invariant j < n && forall i :: 0 <= i < j ==> params[i].0 != params[n].0
      decreases n - j
    {
      j := j + 1;
    }
  }

  lemma FirstUrlAsks(site: Site, path: string, perPage: nat, params: seq<(string, string)>)
    ensures AsksFor(site, path, perPage, params, FirstUrl(site, path, perPage, params))
  {
    var at := MergedIsQuery(perPage, params);
    hide Merged, IsQueryAt;
  }

  // ---- When two addresses are the same page ----

  /** The values of a name, in order. */
  function ValuesNamed(query: seq<(string, string)>, name: string): seq<string> {
    if query == [] then []
    else ValuesNamed(query[..|query| - 1], name) + if query[|query| - 1].0 == name then [query[|query| - 1].1] else []
  }

  /** What an address says of a name; the first page says nothing of its number. */
  function Says(url: Url, name: string): seq<string> {
    if name == "page" && ValuesNamed(url.query, name) == ["1"] then [] else ValuesNamed(url.query, name)
  }

  lemma {:induction false} ValuesOfAre(query: seq<(string, string)>, name: string)
    ensures name in ValuesOf(query) <==> ValuesNamed(query, name) != []
    ensures name in ValuesOf(query) ==> ValuesOf(query)[name] == ValuesNamed(query, name)
  {
    if query != [] { ValuesOfAre(query[..|query| - 1], name); }
  }

  lemma KeyHolds(u: Url, name: string)
    ensures name in KeyOf(u).values <==> Says(u, name) != []
    ensures name in KeyOf(u).values ==> KeyOf(u).values[name] == Says(u, name)
  {
    ValuesOfAre(u.query, name);
    hide ValuesOf, ValuesNamed;
  }

  /** Two addresses count as the same page exactly if they have the same address before the query and say
      the same of every name. */
  lemma SamePageExactly(u: Url, v: Url)
    ensures KeyOf(u) == KeyOf(v) <==> u.base == v.base && forall name :: Says(u, name) == Says(v, name)
  {
    forall name
      ensures name in KeyOf(u).values <==> Says(u, name) != []
      ensures name in KeyOf(u).values ==> KeyOf(u).values[name] == Says(u, name)
      ensures name in KeyOf(v).values <==> Says(v, name) != []
      ensures name in KeyOf(v).values ==> KeyOf(v).values[name] == Says(v, name)
    {
      KeyHolds(u, name);
      KeyHolds(v, name);
    }
    assert KeyOf(u).base == u.base && KeyOf(v).base == v.base;
    hide KeyOf, Says;
    if u.base == v.base && forall name :: Says(u, name) == Says(v, name) {
      assert KeyOf(u).values == KeyOf(v).values;
    }
  }

  /** A next link is fetched where it says, against the client's address if it is relative, with its own
      query. */
  lemma NextIsResolved(site: Site, link: Url)
    ensures var url := Resolve(site, link);
      && url.query == link.query
      && url.base == (if "http://" <= link.base || "https://" <= link.base then link.base
                      else if "/" <= link.base then site.clientBase + link.base
                      else site.clientBase + "/" + link.base)
  {}

  // ---- The chain of next links ----

  /** The URL of the k-th page of the chain, as long as no page failed and every page named the next. */
  function UrlAt(site: Site, first: Url, k: nat): Option<Url>
    decreases k, 0
  {
    if k == 0 then Some(first)
    else
      var link := LinkAt(site, first, k - 1);
      if link.Some? then Some(Resolve(site, link.value)) else None
  }

  /** The next link of the k-th page. */
  function LinkAt(site: Site, first: Url, k: nat): Option<Url>
    decreases k, 1
  {
    var u := UrlAt(site, first, k);
    if u.Some? && site.answer(u.value, k).Page? then site.answer(u.value, k).next else None
  }

  /** The items of the first n pages of the chain, in order. */
  function ItemsBefore(site: Site, first: Url, n: nat): seq<Item> {
    if n == 0 then [] else ItemsBefore(site, first, n - 1) + ItemsAt(site, first, n - 1)
  }

  function ItemsAt(site: Site, first: Url, k: nat): seq<Item> {
    var u := UrlAt(site, first, k);
    if u.Some? && site.answer(u.value, k).Page? then site.answer(u.value, k).items else []
  }

  ghost predicate Distinct(urls: seq<Url>) {
    forall i, j :: 0 <= i < j < |urls| ==> KeyOf(urls[i]) != KeyOf(urls[j])
  }

  function KeysOf(urls: seq<Url>): set<VisitedKey> {
    if urls == [] then {} else KeysOf(urls[..|urls| - 1]) + {KeyOf(urls[|urls| - 1])}
  }

  ghost predicate Visited(urls: seq<Url>, url: Url) {
    exists i :: 0 <= i < |urls| && KeyOf(urls[i]) == KeyOf(url)
  }

  lemma {:induction false} KeysAreVisited(urls: seq<Url>, url: Url)
    ensures KeyOf(url) in KeysOf(urls) <==> Visited(urls, url)
  {
    if urls != [] {
      var n := |urls| - 1;
      KeysAreVisited(urls[..n], url);
      if Visited(urls[..n], url) {
        var i :| 0 <= i < n && KeyOf(urls[..n][i]) == KeyOf(url);
        assert KeyOf(urls[i]) == KeyOf(url);
      }
      if i :| 0 <= i < |urls| && KeyOf(urls[i]) == KeyOf(url) {
        if i < n { assert KeyOf(urls[..n][i]) == KeyOf(url); }
      }
    }
  }

  ghost predicate IsChain(site: Site, first: Url, urls: seq<Url>) {
    forall k :: 0 <= k < |urls| ==> UrlAt(site, first, k) == Some(urls[k])
  }

  /** A link that repeats the address just fetched, to the letter. */
  predicate Echoes(site: Site, first: Url, k: nat) {
    UrlAt(site, first, k).Some? && LinkAt(site, first, k) == UrlAt(site, first, k)
  }

  /** The first pages of the chain were fetched, no page twice, and their items were yielded in order. */
  ghost predicate Fetched(site: Site, first: Url, requested: seq<Url>, items: seq<Item>) {
    && IsChain(site, first, requested) && Distinct(requested)
    && (forall k :: 0 <= k < |requested| - 1 ==> !Echoes(site, first, k))
    && items == ItemsBefore(site, first, |requested|)
  }

  /** The iteration ended where it had to. */
  ghost predicate EndsRight(site: Site, first: Url, requested: seq<Url>, outcome: Outcome) {
    var n := |requested|;
    match outcome
    case NoNextLink => n > 0 && site.answer(requested[n - 1], n - 1).Page? && UrlAt(site, first, n).None?
    case AlreadyVisited =>
      n > 0 && UrlAt(site, first, n).Some?
      && (Echoes(site, first, n - 1) || (n < MAX_PAGES && Visited(requested, UrlAt(site, first, n).value)))
    case TooManyPages => n == MAX_PAGES && UrlAt(site, first, n).Some? && !Echoes(site, first, n - 1)
    case Raised(fault) => n > 0 && site.answer(requested[n - 1], n - 1) == Failed(fault)
    case BadPageSize => false
  }

  ghost predicate Followed(site: Site, first: Url, requested: seq<Url>, items: seq<Item>, outcome: Outcome) {
    |requested| <= MAX_PAGES && Fetched(site, first, requested, items) && EndsRight(site, first, requested, outcome)
  }

  /** What one answer says of the chain. */
  lemma AnswerExtendsChain(site: Site, first: Url, k: nat, u: Url)
    requires UrlAt(site, first, k) == Some(u)
    ensures var response := site.answer(u, k);
      && ItemsAt(site, first, k) == (if response.Page? then response.items else [])
      && UrlAt(site, first, k + 1)
         == (if response.Page? && response.next.Some? then Some(Resolve(site, response.next.value)) else None)
      && (Echoes(site, first, k) <==> response.Page? && response.next == Some(u))
  {}

  lemma FetchOne(site: Site, first: Url, requested: seq<Url>, items: seq<Item>, u: Url)
    requires Fetched(site, first, requested, items) && UrlAt(site, first, |requested|) == Some(u)
    requires !Visited(requested, u) && (requested != [] ==> !Echoes(site, first, |requested| - 1))
    ensures Fetched(site, first, requested + [u], items + ItemsAt(site, first, |requested|))
  {
    hide UrlAt, KeyOf, Echoes, ItemsAt;
  }

  /** Where the loop stands before it looks at the address of the next page. */
  ghost predicate AtPage(site: Site, first: Url, requested: seq<Url>, items: seq<Item>, u: Url) {
    && |requested| <= MAX_PAGES && Fetched(site, first, requested, items)
    && UrlAt(site, first, |requested|) == Some(u)
    && (requested != [] ==> !Echoes(site, first, |requested| - 1))
  }

  lemma StartsAtPage(site: Site, first: Url)
    ensures AtPage(site, first, [], [], first)
  {}

  lemma StopsAtPage(site: Site, first: Url, requested: seq<Url>, items: seq<Item>, u: Url)
    requires AtPage(site, first, requested, items, u)
    ensures |requested| == MAX_PAGES ==> Followed(site, first, requested, items, TooManyPages)
    ensures |requested| < MAX_PAGES && Visited(requested, u) ==> Followed(site, first, requested, items, AlreadyVisited)
  {
    hide Fetched, UrlAt, Echoes, KeyOf;
  }

  lemma FetchesPage(site: Site, first: Url, requested: seq<Url>, items: seq<Item>, u: Url)
    requires AtPage(site, first, requested, items, u) && |requested| < MAX_PAGES && !Visited(requested, u)
    ensures match site.answer(u, |requested|)
      case Failed(fault) => Followed(site, first, requested + [u], items, Raised(fault))
      case Page(more, None) => Followed(site, first, requested + [u], items + more, NoNextLink)
      case Page(more, Some(link)) =>
        if link == u then Followed(site, first, requested + [u], items + more, AlreadyVisited)
        else AtPage(site, first, requested + [u], items + more, Resolve(site, link))
  {
    AnswerExtendsChain(site, first, |requested|, u);
    FetchOne(site, first, requested, items, u);
    assert items + [] == items;
    hide Fetched, UrlAt, Echoes, KeyOf, ItemsAt, Resolve, Visited;
  }

  lemma FollowedAsksFirst(site: Site, path: string, perPage: nat, params: seq<(string, string)>)
    ensures forall requested, items, outcome :: Followed(site, FirstUrl(site, path, perPage, params), requested, items, outcome) ==>
      requested != [] && AsksFor(site, path, perPage, params, requested[0])
  {
    var first := FirstUrl(site, path, perPage, params);
    FirstUrlAsks(site, path, perPage, params);
    hide FirstUrl, AsksFor, KeyOf, Echoes, ItemsBefore;
    forall requested, items, outcome | Followed(site, first, requested, items, outcome)
      ensures requested != [] && requested[0] == first
    {
      assert UrlAt(site, first, 0) == Some(first);
    }
  }

  method Paginate(site: Site, path: string, params: seq<(string, string)>, perPage: int)
    returns (requested: seq<Url>, items: seq<Item>, outcome: Outcome)
    ensures perPage <= 0 ==> outcome == BadPageSize && requested == [] && items == []
    ensures perPage > 0 ==> Followed(site, FirstUrl(site, path, perPage, params), requested, items, outcome)
    ensures |requested| <= 1000 && (outcome == TooManyPages ==> |requested| == 1000)
    ensures perPage > 0 ==> requested != [] && AsksFor(site, path, perPage, params, requested[0])
  {
    requested, items := [], [];
    if perPage <= 0 {
      return requested, items, BadPageSize;
    }
    var merged := Merged(perPage, params);
    var nextUrl, isPath := Url(path, []), true;
    var visited: set<VisitedKey> := {};
    var iterations := 0;
    ghost var first := FirstUrl(site, path, perPage, params);
    assert first == Url(Resolve(site, nextUrl).base, merged);
    StartsAtPage(site, first);
    FollowedAsksFirst(site, path, perPage, params);
    hide Merged, FirstUrl, Resolve, KeyOf, AtPage, Followed, Visited, UrlAt, AsksFor;
    while true
      invariant iterations == |requested| <= MAX_PAGES && (isPath <==> iterations == 0)
      invariant isPath ==> nextUrl == Url(path, [])
      invariant AtPage(site, first, requested, items, if isPath then first else Resolve(site, nextUrl))
      invariant visited == KeysOf(requested)
      decreases MAX_PAGES - iterations
    {
      iterations := iterations + 1;
      if iterations > MAX_PAGES {
        StopsAtPage(site, first, requested, items, if isPath then first else Resolve(site, nextUrl));
        return requested, items, TooManyPages;
      }
      var candidate := if isPath then Url(Resolve(site, nextUrl).base, merged) else Resolve(site, nextUrl);
      KeysAreVisited(requested, candidate);
      if KeyOf(candidate) in visited {
        StopsAtPage(site, first, requested, items, candidate);
        return requested, items, AlreadyVisited;
      }
      FetchesPage(site, first, requested, items, candidate);
      assert (requested + [candidate])[..|requested|] == requested;
      var response := site.answer(candidate, iterations - 1);
      visited := visited + {KeyOf(candidate)};
      requested := requested + [candidate];
      if response.Failed? {
        return requested, items, Raised(response.fault);
      }
      items := items + response.items;
      if response.next.None? {
        return requested, items, NoNextLink;
      }
      nextUrl, isPath := response.next.value, false;
      if nextUrl == candidate {
        return requested, items, AlreadyVisited;
      }
    }
  }

  // ---- What that gives ----

  lemma SameLength(site: Site, first: Url, r: seq<Url>, i: seq<Item>, o: Outcome,
                   r': seq<Url>, i': seq<Item>, o': Outcome)
    requires Followed(site, first, r, i, o) && Followed(site, first, r', i', o')
    ensures |r| >= |r'|
  {
    var n := |r|;
    if n < |r'| {
      NotVisitedInside(site, first, r, r');
      assert false;
    }
  }

  lemma NotVisitedInside(site: Site, first: Url, r: seq<Url>, r': seq<Url>)
    requires IsChain(site, first, r) && IsChain(site, first, r') && Distinct(r') && |r| < |r'|
    ensures UrlAt(site, first, |r|) == Some(r'[|r|]) && !Visited(r, r'[|r|])
  {
    hide UrlAt, KeyOf;
    forall k | 0 <= k < |r| ensures KeyOf(r[k]) != KeyOf(r'[|r|]) {
      assert UrlAt(site, first, k) == Some(r[k]);
    }
  }

  /** The result is determined: no page of the answers can be left out or fetched twice. */
  lemma FollowedIsUnique(site: Site, first: Url, r: seq<Url>, i: seq<Item>, o: Outcome,
                         r': seq<Url>, i': seq<Item>, o': Outcome)
    requires Followed(site, first, r, i, o) && Followed(site, first, r', i', o')
    ensures r == r' && i == i' && o == o'
  {
    SameLength(site, first, r, i, o, r', i', o');
    SameLength(site, first, r', i', o', r, i, o);
    var n := |r|;
    AnswerExtendsChain(site, first, n - 1, r[n - 1]);
    hide UrlAt, KeyOf, ItemsBefore, ItemsAt, Echoes;
    assert r == r' by {
      forall k | 0 <= k < n ensures r[k] == r'[k] {
        assert UrlAt(site, first, k) == Some(r[k]);
      }
    }
  }

  lemma {:induction false} ChainIsAbsolute(site: Site, first: Url, k: nat)
    requires IsAbsolute(site.clientBase) && IsAbsolute(first.base)
    ensures UrlAt(site, first, k).Some? ==> IsAbsolute(UrlAt(site, first, k).value.base)
  {
    if k > 0 {
      ChainIsAbsolute(site, first, k - 1);
    }
  }

  /** In an acyclic chain of addresses no link repeats the address just fetched. */
  lemma DistinctChainHasNoEcho(site: Site, first: Url, chain: seq<Url>, k: nat)
    requires IsAbsolute(site.clientBase) && IsAbsolute(first.base)
    requires IsChain(site, first, chain) && Distinct(chain) && k < |chain| - 1
    ensures !Echoes(site, first, k)
  {
    hide KeyOf;
    ChainIsAbsolute(site, first, k);
    assert UrlAt(site, first, k) == Some(chain[k]);
    assert UrlAt(site, first, k + 1) == Some(chain[k + 1]);
    assert KeyOf(chain[k]) != KeyOf(chain[k + 1]);
  }

  /** A relative path is resolved against the client's address before the first request. */
  lemma FirstUrlIsAbsolute(site: Site, path: string, perPage: nat, params: seq<(string, string)>)
    requires IsAbsolute(site.clientBase)
    ensures IsAbsolute(FirstUrl(site, path, perPage, params).base)
  {}

  /** A chain of at most a thousand pages without a repetition is yielded as a whole, in order. */
  lemma AcyclicChainIsYielded(site: Site, path: string, perPage: nat, params: seq<(string, string)>, first: Url,
                              chain: seq<Url>, r: seq<Url>, i: seq<Item>, o: Outcome)
    requires IsAbsolute(site.clientBase) && first == FirstUrl(site, path, perPage, params)
    requires Followed(site, first, r, i, o)
    requires 0 < |chain| <= 1000 && IsChain(site, first, chain) && Distinct(chain)
    requires site.answer(chain[|chain| - 1], |chain| - 1).Page? && UrlAt(site, first, |chain|).None?
    ensures r == chain && o == NoNextLink && i == ItemsBefore(site, first, |chain|)
  {
    FirstUrlIsAbsolute(site, path, perPage, params);
    hide IsChain, Distinct, UrlAt, Echoes, KeyOf, FirstUrl, IsAbsolute;
    forall k | 0 <= k < |chain| - 1 ensures !Echoes(site, first, k) {
      DistinctChainHasNoEcho(site, first, chain, k);
    }
    FollowedIsUnique(site, first, r, i, o, chain, ItemsBefore(site, first, |chain|), NoNextLink);
  }

  /** A chain that comes back to a page after at most 999 distinct ones is yielded once around. */
  lemma CyclicChainIsYieldedOnce(site: Site, path: string, perPage: nat, params: seq<(string, string)>, first: Url,
                                 chain: seq<Url>, back: Url, r: seq<Url>, i: seq<Item>, o: Outcome)
    requires IsAbsolute(site.clientBase) && first == FirstUrl(site, path, perPage, params)
    requires Followed(site, first, r, i, o)
    requires 0 < |chain| < 1000 && IsChain(site, first, chain) && Distinct(chain)
    requires UrlAt(site, first, |chain|) == Some(back) && Visited(chain, back)
    ensures r == chain && o == AlreadyVisited && i == ItemsBefore(site, first, |chain|)
  {
    FirstUrlIsAbsolute(site, path, perPage, params);
    hide IsChain, Distinct, UrlAt, Echoes, KeyOf, Visited, FirstUrl, IsAbsolute;
    forall k | 0 <= k < |chain| - 1 ensures !Echoes(site, first, k) {
      DistinctChainHasNoEcho(site, first, chain, k);
    }
    FollowedIsUnique(site, first, r, i, o, chain, ItemsBefore(site, first, |chain|), AlreadyVisited);
  }
}
