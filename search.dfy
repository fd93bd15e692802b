/** The search helpers of comcrawl: building the request target for one
    Common Crawl index, turning the index server's reply into a list of
    decoded records, and searching several indexes one after another (or
    handing them to a thread pool).

    The HTTP transport, the JSON decoder and the thread pool are not modelled;
    they are parameters: `fetch` answers a GET for a URL, `decode` stands for
    `json.loads` on one line, and `pool` stands for the multithreaded search
    built by `make_multithreaded`. */
module Search {
  import opened Lines
  import opened Formatting

  datatype Option<T> = None | Some(value: T)

  const HTTP_OK: int := 200

  /** The names of the replacement fields the templates use. */
  datatype Name = IndexName | UrlName | PageName

  /** `URL_TEMPLATE`: host and path of the index server with three named fields. */
  const URL_TEMPLATE: seq<Piece<Name>> := [
    Literal("https://index.commoncrawl.org/CC-MAIN-"), Field(IndexName),
    Literal("-index?url="), Field(UrlName),
    Literal("&output=json"), Field(PageName)
  ]

  /** The template of the page parameter. */
  const PAGE_TEMPLATE: seq<Piece<Name>> := [Literal("&page="), Field(PageName)]

  /** The page parameter of the request: nothing for a negative page, and
      otherwise `&page=` followed by the page number in decimal. */
  function PageSuffix(page: int): (suffix: string)
    ensures suffix == "" <==> page < 0
    ensures page >= 0 ==> suffix == "&page=" + Decimal(page)
    ensures page >= 0 ==> AllDigits(suffix[6..]) && DecimalValue(suffix[6..]) == page
  {
    if page < 0 then ""
    else
      var digits := Decimal(page);
      var values := (name: Name) => if name == PageName then digits else "";
      DecimalRoundTrip(page);
      assert Format(PAGE_TEMPLATE[1..], values) == digits;
      var suffix := Format(PAGE_TEMPLATE, values);
      assert suffix == "&page=" + digits;
      assert suffix[6..] == digits;
      suffix
  }

  /** The URL of the request for one index, URL pattern and page:
      `URL_TEMPLATE` filled in with them and the page parameter. It is the
      server's address followed by the index, the URL pattern inserted exactly
      as given (nothing is escaped or encoded), the JSON output option and the
      page parameter. */
  function RequestUrl(index: string, url: string, page: int): (r: string)
    ensures r == "https://index.commoncrawl.org/CC-MAIN-" + index + "-index?url=" + url + "&output=json" + PageSuffix(page)
  {
    UrlTemplateFormat(UrlFields(index, url, page));
    Format(URL_TEMPLATE, UrlFields(index, url, page))
  }

  /** The keyword arguments `URL_TEMPLATE.format` is called with. */
  function UrlFields(index: string, url: string, page: int): Name -> string
  {
    (name: Name) =>
      match name
      case IndexName => index
      case UrlName => url
      case PageName => PageSuffix(page)
  }

  /** `URL_TEMPLATE.format(...)` spelled out: the literals of the template
      with the three values between them. */
  lemma UrlTemplateFormat(values: Name -> string)
    ensures Format(URL_TEMPLATE, values)
            == "https://index.commoncrawl.org/CC-MAIN-" + values(IndexName) + "-index?url=" + values(UrlName)
               + "&output=json" + values(PageName)
  {
    var host, index, mid, url, output, page :=
      "https://index.commoncrawl.org/CC-MAIN-", values(IndexName), "-index?url=", values(UrlName),
      "&output=json", values(PageName);
    UrlTemplateNested(values);
    Regroup(host, index, mid, url, output, page);
  }

  /** Proof helper, not modelled behaviour: re-associates a concatenation. */
  lemma Regroup(a: string, b: string, c: string, d: string, e: string, f: string)
    ensures a + (b + (c + (d + (e + f)))) == a + b + c + d + e + f
  {
  }

  lemma UrlTemplateNested(values: Name -> string)
    ensures Format(URL_TEMPLATE, values)
            == "https://index.commoncrawl.org/CC-MAIN-" + (values(IndexName) + ("-index?url=" + (values(UrlName)
               + ("&output=json" + values(PageName)))))
  {
    var t5: seq<Piece<Name>> := [Field(PageName)];
    var t4 := [Literal("&output=json")] + t5;
    var t3 := [Field(UrlName)] + t4;
    var t2 := [Literal("-index?url=")] + t3;
    var t1 := [Field(IndexName)] + t2;
    assert [Literal("https://index.commoncrawl.org/CC-MAIN-")] + t1 == URL_TEMPLATE;
    FormatCons(Field(PageName), [], values);
    FormatCons(Literal("&output=json"), t5, values);
    FormatCons(Field(UrlName), t4, values);
    FormatCons(Literal("-index?url="), t3, values);
    FormatCons(Field(IndexName), t2, values);
    FormatCons(Literal("https://index.commoncrawl.org/CC-MAIN-"), t1, values);
  }

  /** Requests for the same index and pattern differ exactly when they ask
      for different pages; all negative pages ask for the default page. */
  lemma RequestUrlPages(index: string, url: string, p1: int, p2: int)
    ensures RequestUrl(index, url, p1) == RequestUrl(index, url, p2) <==> p1 == p2 || (p1 < 0 && p2 < 0)
  {
    var prefix := "https://index.commoncrawl.org/CC-MAIN-" + index + "-index?url=" + url + "&output=json";
    var s1, s2 := PageSuffix(p1), PageSuffix(p2);
    assert RequestUrl(index, url, p1) == prefix + s1;
    assert RequestUrl(index, url, p2) == prefix + s2;
    if prefix + s1 == prefix + s2 {
      assert s1 == (prefix + s1)[|prefix|..];
      assert s2 == (prefix + s2)[|prefix|..];
    }
  }

  /** The reply of the index server: its status code and its raw body. */
  datatype Response = Response(status: int, content: seq<byte>)

  /** `search_single_index`: one GET; on status 200 every line of the body
      is decoded into one result, in body order; on any other status the
      result list is empty. */
  function SearchSingleIndex<R>(index: string, url: string, page: int,
                                fetch: string -> Response, decode: seq<byte> -> R): (results: seq<R>)
    ensures fetch(RequestUrl(index, url, page)).status != HTTP_OK ==> results == []
    ensures fetch(RequestUrl(index, url, page)).content == [] ==> results == []
    ensures |results| <= |fetch(RequestUrl(index, url, page)).content|
  {
    var response := fetch(RequestUrl(index, url, page));
    if response.status == HTTP_OK then
      var lines := SplitLines(response.content);
      seq(|lines|, k requires 0 <= k < |lines| => decode(lines[k]))
    else
      []
  }

  /** On status 200, a body made of terminated lines, each ended by any of
      the three terminators, and an optional unterminated last line gives
      exactly one result per line, each the decoding of that line, in order. */
  lemma SingleIndexDecodesEachLine<R>(index: string, url: string, page: int,
                                      fetch: string -> Response, decode: seq<byte> -> R,
                                      lines: seq<seq<byte>>, ts: seq<Newline>, last: seq<byte>)
    requires Separable(lines, ts) && NoBreaks(last)
    requires fetch(RequestUrl(index, url, page)) == Response(HTTP_OK, JoinLines(lines, ts) + last)
    ensures var results := SearchSingleIndex(index, url, page, fetch, decode);
            && |results| == |lines| + (if last == [] then 0 else 1)
            && (forall k :: 0 <= k < |lines| ==> results[k] == decode(lines[k]))
            && (last != [] ==> results[|lines|] == decode(last))
  {
    SplitJoinLast(lines, ts, last);
  }

  /** The three ways `search_multiple_indexes` can run. */
  datatype Strategy = Concurrent(workers: int) | SingleIndex | Sequential

  /** Python truthiness of the optional thread count. */
  predicate Truthy(threads: Option<int>) {
    threads.Some? && threads.value != 0
  }

  /** The branch `search_multiple_indexes` takes: the thread pool whenever a
      thread count other than 0 is given (negative counts included), else the
      single-index search for exactly one index, else the sequential loop. */
  function ChooseStrategy(count: nat, threads: Option<int>): (s: Strategy)
    ensures s.Concurrent? <==> (threads.Some? && threads.value != 0)
    ensures s.Concurrent? ==> s.workers == threads.value
    ensures s.SingleIndex? <==> (threads.None? || threads.value == 0) && count == 1
    ensures s.Sequential? <==> (threads.None? || threads.value == 0) && count != 1
  {
    if Truthy(threads) then Concurrent(threads.value)
    else if count == 1 then SingleIndex
    else Sequential
  }

  /** The results of the sequential loop: the results of `query` for each
      index, always for the default page, concatenated in index order. */
  function SequentialResults<R>(indexes: seq<string>, url: string, query: (string, string, int) -> seq<R>): (results: seq<R>)
    ensures indexes == [] ==> results == []
    ensures |indexes| == 1 ==> results == query(indexes[0], url, -1)
    ensures (forall k :: 0 <= k < |indexes| ==> query(indexes[k], url, -1) == []) ==> results == []
    decreases |indexes|
  {
    if indexes == [] then []
    else SequentialResults(indexes[..|indexes| - 1], url, query) + query(indexes[|indexes| - 1], url, -1)
  }

  /** A query issued by a search: one direct call of the per-index search,
      or one hand-over of all indexes to the thread pool. */
  datatype Call =
    | Query(index: string, url: string, page: int)
    | PooledQuery(workers: int, indexes: seq<string>, url: string, page: int)

  /** The queries the sequential loop issues: one per index, in order. */
  ghost function SequentialCalls(indexes: seq<string>, url: string): seq<Call>
  {
    seq(|indexes|, k requires 0 <= k < |indexes| => Query(indexes[k], url, -1))
  }

  /** `search_multiple_indexes`. `query` is the per-index search
      (`search_single_index`, that is SearchSingleIndex with the transport
      and the decoder fixed), `pool` the thread-pool search. Besides the
      results the method returns, as a ghost trace, the queries it issued. */
  method SearchMultipleIndexes<R>(url: string, indexes: seq<string>, page: int, threads: Option<int>,
                                  query: (string, string, int) -> seq<R>,
                                  pool: (int, seq<string>, string, int) -> seq<R>)
    returns (results: seq<R>, ghost calls: seq<Call>)
    ensures match ChooseStrategy(|indexes|, threads)
      case Concurrent(workers) => results == pool(workers, indexes, url, -1)
      case SingleIndex => results == query(indexes[0], url, page)
      case Sequential => results == SequentialResults(indexes, url, query)
    ensures match ChooseStrategy(|indexes|, threads)
      case Concurrent(workers) => calls == [PooledQuery(workers, indexes, url, -1)]
      case SingleIndex => calls == [Query(indexes[0], url, page)]
      case Sequential => calls == SequentialCalls(indexes, url)
    ensures !Truthy(threads) && indexes == [] ==> results == []
    ensures !Truthy(threads) && indexes == [] ==> calls == []
  {
    results := [];
    match ChooseStrategy(|indexes|, threads) {
      case Concurrent(workers) =>
        results := pool(workers, indexes, url, -1);
        calls := [PooledQuery(workers, indexes, url, -1)];
      case SingleIndex =>
        var indexResults := query(indexes[0], url, page);
        results := results + indexResults;
        calls := [Query(indexes[0], url, page)];
      case Sequential =>
        calls := [];
        for k := 0 to |indexes|
          invariant results == SequentialResults(indexes[..k], url, query)
          invariant calls == SequentialCalls(indexes[..k], url)
        {
          var indexResults := query(indexes[k], url, -1);
          results := results + indexResults;
          calls := calls + [Query(indexes[k], url, -1)];
          assert indexes[..k + 1] == indexes[..k] + [indexes[k]];
          SequentialSnoc(indexes[..k], indexes[k], url, query);
        }
        assert indexes[..|indexes|] == indexes;
    }
  }

  /** Appending one index to the sequential search appends its results. */
  lemma SequentialSnoc<R>(indexes: seq<string>, index: string, url: string, query: (string, string, int) -> seq<R>)
    ensures SequentialResults(indexes + [index], url, query)
            == SequentialResults(indexes, url, query) + query(index, url, -1)
  {
    assert (indexes + [index])[..|indexes|] == indexes;
  }

  /** Searching a list of indexes sequentially is searching its two halves
      and concatenating. */
  lemma {:induction false} SequentialAppend<R>(a: seq<string>, b: seq<string>, url: string,
                                               query: (string, string, int) -> seq<R>)
    ensures SequentialResults(a + b, url, query) == SequentialResults(a, url, query) + SequentialResults(b, url, query)
    decreases |b|
  {
    if b == [] {
      assert a + b == a;
    } else {
      var b', last := b[..|b| - 1], b[|b| - 1];
      assert (a + b)[..|a + b| - 1] == a + b' && (a + b)[|a + b| - 1] == last;
      SequentialAppend(a, b', url, query);
      AppendLast(SequentialResults(a + b, url, query), SequentialResults(a + b', url, query),
                 SequentialResults(a, url, query), SequentialResults(b', url, query),
                 SequentialResults(b, url, query), query(last, url, -1));
    }
  }

  /** Proof helper, not modelled behaviour: from `x == y + q`, `y == p + z`
      and `w == z + q`, `x == p + w`, taken without unfolding what the
      arguments stand for. */
  lemma AppendLast<R>(x: seq<R>, y: seq<R>, p: seq<R>, z: seq<R>, w: seq<R>, q: seq<R>)
    requires x == y + q && y == p + z && w == z + q
    ensures x == p + w
  {
  }

  /** Every result of the sequential search comes from exactly one index:
      the results of index j form one contiguous block, placed after the
      results of the indexes before it. */
  lemma SequentialBlock<R>(indexes: seq<string>, j: nat, url: string, query: (string, string, int) -> seq<R>)
    requires j < |indexes|
    ensures var before := |SequentialResults(indexes[..j], url, query)|;
            var mine := query(indexes[j], url, -1);
            var all := SequentialResults(indexes, url, query);
            before + |mine| <= |all| && all[before..before + |mine|] == mine
  {
    assert indexes == indexes[..j + 1] + indexes[j + 1..];
    assert indexes[..j + 1] == indexes[..j] + [indexes[j]];
    SequentialSnoc(indexes[..j], indexes[j], url, query);
    SequentialAppend(indexes[..j + 1], indexes[j + 1..], url, query);
  }

  /** An index for which the query finds nothing (with SearchSingleIndex:
      one the server answers with a status other than 200) adds nothing to
      the sequential search. */
  lemma SequentialSkipsMiss<R>(a: seq<string>, index: string, b: seq<string>, url: string,
                               query: (string, string, int) -> seq<R>)
    requires query(index, url, -1) == []
    ensures SequentialResults(a + [index] + b, url, query) == SequentialResults(a + b, url, query)
  {
    calc {
      SequentialResults(a + [index] + b, url, query);
    == { SequentialAppend(a + [index], b, url, query); }
      SequentialResults(a + [index], url, query) + SequentialResults(b, url, query);
    == { SequentialSnoc(a, index, url, query); }
      SequentialResults(a, url, query) + SequentialResults(b, url, query);
    == { SequentialAppend(a, b, url, query); }
      SequentialResults(a + b, url, query);
    }
  }

  /** The same with `search_single_index` as the per-index search: an index
      whose server answers with a status other than 200 contributes nothing. */
  lemma SequentialSkipsFailedIndex<R>(a: seq<string>, index: string, b: seq<string>, url: string,
                                      fetch: string -> Response, decode: seq<byte> -> R)
    requires fetch(RequestUrl(index, url, -1)).status != HTTP_OK
    ensures var query := (i: string, u: string, p: int) => SearchSingleIndex(i, u, p, fetch, decode);
            SequentialResults(a + [index] + b, url, query) == SequentialResults(a + b, url, query)
  {
    var query := (i: string, u: string, p: int) => SearchSingleIndex(i, u, p, fetch, decode);
    SequentialSkipsMiss(a, index, b, url, query);
  }

  /** All negative pages make the same request, so searching one index
      with the caller's negative page is the sequential loop's query for it. */
  lemma NegativePagesAgree<R>(index: string, url: string, page: int,
                              fetch: string -> Response, decode: seq<byte> -> R)
    requires page < 0
    ensures SearchSingleIndex(index, url, page, fetch, decode) == SearchSingleIndex(index, url, -1, fetch, decode)
  {
    RequestUrlPages(index, url, page, -1);
  }

  /** A request for page 2 ends with the page parameter `&page=2`. */
  lemma PageTwoRequest(index: string, url: string)
    ensures PageSuffix(2) == "&page=2"
    ensures RequestUrl(index, url, 2)
            == "https://index.commoncrawl.org/CC-MAIN-" + index + "-index?url=" + url + "&output=json&page=2"
  {
    assert Decimal(2) == "2";
  }
}
