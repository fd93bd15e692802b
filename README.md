# comcrawl search helpers in Dafny

comcrawl queries the Common Crawl index server for the captures of a URL
pattern. Its search helpers (`comcrawl/utils/search.py`) do three things,
and this project models each of them and proves what they promise:

- **Request URL.** `URL_TEMPLATE` is filled in with an index name, a URL
  pattern and a page parameter. The page parameter is empty for a negative
  page and `&page=<n>` otherwise. Index and pattern are inserted into the URL
  string exactly as given. Python's `str.format` is modelled on templates made
  of literals and named fields (module `Formatting`), and `str(n)` as the
  decimal rendering of a natural number.
- **One index.** `search_single_index` issues one GET. On status 200 it decodes
  every line of the body, in order. On any other status it returns an empty
  list. Line splitting follows `bytes.splitlines`: a line ends at LF, CR or
  CR LF, and a final terminator does not open an empty last line (module
  `Lines`).
- **Several indexes.** `search_multiple_indexes` chooses one of three
  strategies:
  - The thread pool, when `threads` is truthy.
  - A single query with the caller's page, when there is exactly one index.
  - Otherwise a loop that queries every index, in order, for the default page
    and concatenates the results.

  The loop is a method whose invariant says that the results so far are the
  concatenation of the per-index results of the indexes already visited.

Code outside this file is a parameter of the model:

- the HTTP GET (`fetch`);
- `json.loads` on one line (`decode`);
- the search built by `make_multithreaded` (`pool`).

Inside `search_multiple_indexes`, the calls of `search_single_index` are
abstracted as the parameter `query`; Search.SequentialSkipsFailedIndex
instantiates it with Search.SearchSingleIndex.

The method also returns a ghost trace of the queries it issued. That trace
states which queries are made and how many.

Two behaviours of the code are easy to miss; the model keeps both:

- **No URL encoding.** The code does no URL encoding: index and pattern go
  into the URL string handed to `requests.get` exactly as given, and the model
  does the same.
- **Thread count.** `if threads:` (comcrawl/utils/search.py:63) is a
  truthiness test, so any count other than 0 selects the pool, negative
  counts included; the model does the same.

## Model

| member | source | states |
|---|---|---|
| Formatting.Decimal | comcrawl/utils/search.py:30 | `str(page)` for a page >= 0 is a non-empty string of decimal digits with no leading zero except for 0 itself |
| Formatting.DecimalRoundTrip | comcrawl/utils/search.py:30 | reading the rendered digits back gives the page number |
| Formatting.DecimalInjective | comcrawl/utils/search.py:30 | different page numbers are rendered as different strings |
| Formatting.Format | comcrawl/utils/search.py:32 | `str.format`: an empty template gives the empty string, and a one-piece template gives that piece's text, a literal as written and a field as its value, unescaped; with FormatAppend this fixes the result of every template |
| Formatting.FormatAppend | comcrawl/utils/search.py:32 | filling in a template made of two parts gives the two filled-in parts one after the other |
| Search.PageSuffix | comcrawl/utils/search.py:30 | the page parameter is empty exactly when the page is negative; otherwise it is `&page=` followed by the decimal digits of the page, which read back as the page |
| Search.UrlTemplateFormat | comcrawl/utils/search.py:13-14 | filling in `URL_TEMPLATE` gives the server address and `CC-MAIN-`, the index, `-index?url=`, the URL pattern, `&output=json` and the page value, in that order, all values verbatim |
| Search.RequestUrl | comcrawl/utils/search.py:32 | the request URL is the server address and `CC-MAIN-` followed by the raw index, `-index?url=`, the raw URL pattern, `&output=json` and the page parameter; nothing is encoded |
| Search.RequestUrlPages | comcrawl/utils/search.py:30-32 | for the same index and pattern, two pages give the same request URL if and only if they are equal or both negative |
| Search.PageTwoRequest | comcrawl/utils/search.py:30-32 | the request for page 2 ends with `&output=json&page=2` |
| Search.SearchSingleIndex | comcrawl/utils/search.py:28-40 | any status other than 200 gives no results; an empty body gives no results; there are never more results than body bytes |
| Search.SingleIndexDecodesEachLine | comcrawl/utils/search.py:35-38 | on status 200, with a body made of lines without CR or LF, each ended by its own terminator (LF, CR or CR LF), plus an optional unterminated last line, and a lone CR never followed by an empty line ended by LF, there is exactly one result per line, and result i is the decoding of line i |
| Search.NegativePagesAgree | comcrawl/utils/search.py:30-33 | searching one index with any negative page gives the same results as with page -1 |
| Search.ChooseStrategy | comcrawl/utils/search.py:63-74 | the pool is chosen exactly when `threads` is present and not 0, with that many workers; otherwise a single query exactly when there is one index; otherwise the sequential loop |
| Search.SearchMultipleIndexes | comcrawl/utils/search.py:60-79 | pool branch: one hand-over of all indexes with page -1, and its results are returned; one index: one query with the caller's page, and its results are returned unchanged; otherwise one query per index in index order with page -1, and the results are concatenated; no threads and no indexes give no results and no query |
| Search.SequentialResults | comcrawl/utils/search.py:75-77 | the value the loop leaves in `results`: the page -1 results of each index, concatenated in index order; no indexes give no results, one index gives exactly its results, and if no index finds anything the total is empty |
| Search.SequentialSnoc | comcrawl/utils/search.py:75-77 | one more loop iteration appends the results of the next index |
| Search.SequentialAppend | comcrawl/utils/search.py:75-77 | searching a list of indexes that is split in two gives the results of the first part followed by those of the second |
| Search.SequentialBlock | comcrawl/utils/search.py:75-77 | the results of index j form one contiguous block of the total, placed right after the results of the indexes before it |
| Search.SequentialSkipsMiss | comcrawl/utils/search.py:75-77 | an index whose query finds nothing can be removed from the list without changing the results |
| Search.SequentialSkipsFailedIndex | comcrawl/utils/search.py:35-40 | with the single-index search as the query, an index whose server answers with a status other than 200 adds nothing to the sequential results |
| Lines.FirstBreak | comcrawl/utils/search.py:37 | the position of the first line terminator: no terminator comes before it, and a terminator is at it unless it is the end |
| Lines.SplitLines | comcrawl/utils/search.py:37 | `bytes.splitlines`: no line holds a terminator; there are no more lines than bytes; there are no lines exactly when the body is empty |
| Lines.SplitFirstLine | comcrawl/utils/search.py:37 | a line without CR or LF followed by its terminator is split off as the first line, and splitting goes on after the terminator, unless the terminator is a lone CR and what follows starts with LF |
| Lines.SplitOneLine | comcrawl/utils/search.py:37 | a body without terminators is one line, or no line when empty |
| Lines.SplitJoin | comcrawl/utils/search.py:37 | splitting lines that were joined, each with its own terminator, gives those lines back, followed by the remainder as one more line when it is not empty; neither the lines nor the remainder hold CR or LF, and a lone CR is not followed by an empty line ended by LF, which would read as one CR LF |
| Lines.SplitJoinLast | comcrawl/utils/search.py:37 | lines without CR or LF, each ended by its own terminator, plus an unterminated last line split into exactly those lines, the last one included when it is not empty, provided a lone CR is not followed by an empty line ended by LF |
| Lines.MixedTerminators | comcrawl/utils/search.py:37 | the body `a LF b CR LF c` splits into the three lines `a`, `b`, `c` |
| Lines.JoinSplit | comcrawl/utils/search.py:37 | for a body without carriage returns, joining its lines with line feeds gives the body back, with a final line feed added if it was missing |

## Left out

- HTTP transport: `requests.get` (comcrawl/utils/search.py:33) is the parameter `fetch`, a function of the URL: the server is assumed to answer the same URL the same way each time (Search.NegativePagesAgree relies on this; Search.RequestUrlPages shows that the request itself is the same). `requests.get` re-quotes the URL before sending it (a space becomes `%20`, `{` becomes `%7B`, non-ASCII characters are percent-encoded); that happens inside `fetch`, so for such patterns the request the server receives differs from Search.RequestUrl. Network errors and the exceptions they raise are not modelled; the code does not catch them either.
- JSON decoding: `json.loads` (comcrawl/utils/search.py:37) is the parameter `decode`, a total function. Parse errors and the exception they raise are not modelled.
- Thread pool: `make_multithreaded` (comcrawl/utils/search.py:11, 64-66) is not part of this model. Its search is the parameter `pool`. Only the branch choice, the worker count and the page -1 it receives are modelled. The order and concurrency of its queries are not.
- Search.SearchMultipleIndexes: the per-index search is the parameter `query` rather than a call of Search.SearchSingleIndex. Search.SequentialSkipsFailedIndex instantiates it with Search.SearchSingleIndex.
- Search.ChooseStrategy: `threads` is an optional integer. Other truthy Python values (booleans, floats) are not modelled.
- Search.SearchSingleIndex: the `page` argument is an unbounded integer; Python's type hints are not enforced by the code and non-integer pages are not modelled.
- Search.PageSuffix: CPython refuses to render an integer of more than 4300 decimal digits as text (the default limit of `sys.set_int_max_str_digits`), so for `page >= 10**4300` the formatting at comcrawl/utils/search.py:30 raises ValueError and no request is made; the model renders every page and does not model this error.
