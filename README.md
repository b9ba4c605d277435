# dougerino, modelled in Dafny

dougerino is a personal Python utility library (`dougerino.py`), with a small
GitHub REST API helper (`githuberino.py`). This project models its parts
that compute or keep state, and proves what they promise:

- **Link headers.** `github_pagination` parses a GitHub `Link` header into
  the dictionary of `first`/`prev`/`next`/`last` pages and URLs (module
  `LinkHeader`).
- **GitHub calls.** `github_rest_api` and `github_allpages` make one call
  and follow the `next` links to gather every page (module `GitHubApi`).
  - The network and the `.ini` settings are parameters (functions from a
    request to a response, and from topic/section/key to a value).
  - The Requests session and the caller's state object are classes whose
    fields the calls update.
- **CSV to JSON and back.** `csv2json` and `json2csv` convert CSV text to a
  list of dictionaries and a parsed JSON document back to CSV text (module
  `CsvJson`).
- **Column helpers.** `csv_count`, `csv2dict`, `csv2list` and
  `list_projection` work on the columns of CSV lines (modules `CsvCount`
  and `CsvColumns`).
  - File reading is replaced by the lines `readlines()` returns.
  - For `csv_count`, the input is the first line and the rows the CSV
    reader yields.
- **Progress bar.** `progressbar` builds the bar text and remembers the last
  display in a function attribute, modelled as a class field (module
  `Progress`).
- **Year difference.** `yeardiff` counts whole years between two dates
  (module `Dates`).

The Python behaviour these rest on is modelled in shared modules:

- `Values`: Python exceptions as `Result` values, and `Collect`, a loop that
  stops at the first exception.
- `Strings`: `str.split`, `str.join`, `strip`, `lower`, `[1:-1]`, `n * s`,
  `str(n)` and negative indexing.
- `Sorting`: `sorted` on strings, and order-keeping de-duplication.
- `Dicts`: dictionaries that keep their keys in insertion order.

Each method with a loop over its input is proved equal to a specification
function (`...Of`, `Parsed`, `PagesFrom`), and lemmas state what those
functions mean. The methods that only update fields (`SelectSession`,
`RecordRateLimits`, `RestApi`, `ProgressBar.Show`) state the new value of
every field they may change, and which objects stay as they were.

Some behaviour follows the code where a reader might expect otherwise:

- `github_allpages` adds a page's records only when the response is `ok`.
  It still follows the page's `next` link when the response is not `ok`.
- Without a state or session object, every call makes a new session and
  drops it afterwards.
- `csv2json` takes its field names from the first line of the text, even
  when that line is blank. The header it skips is the first non-blank
  line.

## Model

| member | source | states |
|---|---|---|
| LinkHeader.Pagination | dougerino.py:252-287 | the loop's dictionary is exactly `Parsed(source)`: the eight defaults, unchanged when a response has no Link header, then every entry recorded in order |
| LinkHeader.KeysDistinct | dougerino.py:284-285 | a `<rel>page` key never equals a `<rel>URL` key, and each determines its relation |
| LinkHeader.RecordedKeys | dougerino.py:278-285 | after the loop the keys are the starting keys plus the page and URL key of every entry |
| LinkHeader.UnnamedRelationUnchanged | dougerino.py:278-285 | a relation no entry names keeps its starting page and URL, present or absent |
| LinkHeader.LastRecordWins | dougerino.py:278-285 | the last entry naming a relation decides its page and URL |
| LinkHeader.RecordedValueKinds | dougerino.py:265-285 | page keys hold 0 or a string, URL keys hold None or a string |
| LinkHeader.DefaultsOfRelation | dougerino.py:265-266 | each of first/prev/next/last starts with page 0 and URL None |
| LinkHeader.EntriesKeepDefaults | dougerino.py:265-285 | a known relation that no entry text names keeps page 0 and URL None |
| LinkHeader.AbsentRelationKeepsDefaults | dougerino.py:268-285 | without a Link header, or when the header does not name a known relation, it keeps page 0 and URL None |
| LinkHeader.EntriesLastWins | dougerino.py:277-285 | for entry texts, the last one naming a relation decides its URL and page |
| LinkHeader.LastEntryWins | dougerino.py:268-285 | the same for the header of a string or response argument |
| LinkHeader.ParsedKeys | dougerino.py:264-287 | the result's keys are the eight defaults plus one page and one URL key per relation named, unknown relations included |
| LinkHeader.DefaultKeysKept | githuberino.py:46-47 | the eight default keys are always present, so reading `nextURL` never raises KeyError |
| LinkHeader.LastNextUrlOfEntries | githuberino.py:77-85 | the last `next` URL is the same whether read from the entry texts or from the parsed entries |
| LinkHeader.RecordedNextUrl | githuberino.py:65-85 | `nextURL` holds the URL of the last `next` entry, or stays None when there is none |
| LinkHeader.ParsedNextUrl | githuberino.py:53-87 | the same for the whole function's result |
| LinkHeader.ParsedValueKinds | githuberino.py:65-85 | in the result, page keys hold 0 or a string and URL keys hold None or a string |
| LinkHeader.EntryFields | dougerino.py:280-282 | an entry's URL is the text before the first `;`, stripped and without its first and last characters; its relation is the text after the last `=` of the text after the last `;`, likewise stripped and without its ends; its page is the stripped text after the last `=` of the URL's text after its last `?` |
| GitHubApi.Session.constructor | githuberino.py:143 | a new session carries no credentials |
| GitHubApi.FullEndpoint | githuberino.py:146-147 | an endpoint starting with `/` is appended to `https://api.github.com`, any other is sent as given; the URL never starts with `/` and ends with the endpoint |
| GitHubApi.MergeHeaders | githuberino.py:127-128 | the caller's headers are all sent unchanged, plus `Accept: application/vnd.github.v3+json` unless the caller gave an `Accept` |
| GitHubApi.ResolveAuth | githuberino.py:118-124 | given credentials are used; otherwise those of the default account from the settings; otherwise none |
| GitHubApi.RateLimitsOf | githuberino.py:153-165 | both rate-limit values from the headers when both are present, 999999 for both otherwise |
| GitHubApi.SelectSession | githuberino.py:131-143 | the passed session wins, then the state's cached session, then a new one, cached on the state when there is one |
| GitHubApi.RecordRateLimits | githuberino.py:153-165 | the state's rate-limit fields become `RateLimitsOf(response)`, and nothing else changes |
| GitHubApi.RestApi | githuberino.py:114-165 | no request, no session used and no change to the state, the passed session or the cached session for a missing or empty endpoint; otherwise exactly one request with the resolved URL, merged headers and session credentials, the network's response returned, and the session and rate limits updated as above; a cached session other than the one used keeps its credentials |
| GitHubApi.NextOf | githuberino.py:46-49 | the next endpoint is the last `next` URL of the response's Link header, none when that is missing or empty |
| GitHubApi.NextOfParsed | githuberino.py:46-49 | `NextOf` is what the loop reads from `github_pagination`'s `nextURL` |
| GitHubApi.Contribution | githuberino.py:35-44 | an `ok` page adds its records, any other page adds nothing |
| GitHubApi.EndpointsFrom | githuberino.py:28-49 | the requested endpoints start with the first endpoint and are at most `bound` |
| GitHubApi.ChainStep | githuberino.py:28-49 | one request: a response with no next link ends the chain; otherwise the payload is this page's contribution followed by the rest |
| GitHubApi.EndpointChain | githuberino.py:46-49 | each request after the first goes to the `next` URL of the previous response, and the last response has none |
| GitHubApi.PagesAreOkContributions | githuberino.py:25-51 | the payload is the concatenation of the ok pages' records in request order |
| GitHubApi.BoundIrrelevant | githuberino.py:28-49 | the payload, the endpoints and the last response do not depend on the bound chosen |
| GitHubApi.GatheredSnoc | githuberino.py:35-44 | one more page adds its contribution after the records gathered so far |
| GitHubApi.GatheredChain | githuberino.py:28-49 | the payload of a chain is the pages of its endpoints, gathered in request order |
| GitHubApi.ChainRequest | githuberino.py:28-49 | request `k` of a chain extends the records gathered so far by its page; a response with no next link is the last one and completes the payload, and one with a next link points to endpoint `k + 1` |
| GitHubApi.ChainAdvance | githuberino.py:28-49 | one request of the call: with a next link the loop moves to the next endpoint of the chain with this page's records and request added; without one the records are the whole payload, the requests are all those of the chain and the response is the last one |
| GitHubApi.NextEndpoint | githuberino.py:46-48 | `pagelinks['nextURL']` is a non-empty string exactly when `NextOf` names a next page, and then it is that page |
| GitHubApi.RequestPage | githuberino.py:29-49 | one pass of the loop: one request for the page, its records added when it is ok, and the next URL read; the pass moves the loop along the chain or ends it with the whole payload, every request sent and the last response's rate limits recorded; the session used carries the resolved credentials and is chosen as in `RestApi` |
| GitHubApi.FollowPages | githuberino.py:25-51 | the loop sends exactly the requests of the chain of `next` links, in order, returns `PagesFrom` the first endpoint and leaves the last response's rate limits on the state; sessions as in `AllPages` |
| GitHubApi.AllPages | githuberino.py:12-51 | a missing endpoint is an AttributeError, sends no request and changes no state or session; otherwise the requests sent are exactly `RequestFor` each endpoint of the chain of `next` links, in order, the payload is `PagesFrom` the first endpoint and the state's rate limits are those of the last response; `verbose` is kept; the state's cached session stays, or, when neither it nor a passed session exists, becomes one new session carrying the resolved credentials; the session used carries them, and a cached session not used keeps its own |
| CsvJson.FieldNames | dougerino.py:156-162 | one name per cell of the first line: the cells themselves with a header |
| CsvJson.GeneratedNamesDistinct | dougerino.py:162 | without a header the names are `field0`, `field1`, ... and all differ |
| CsvJson.NonBlank | dougerino.py:166-168 | no kept line is blank, and there are no more kept lines than lines |
| CsvJson.NonBlankAppend | dougerino.py:166-168 | the non-blank lines of a text cut in two are those of the first part followed by those of the second |
| CsvJson.NonBlankKeepsAll | dougerino.py:166-168 | lines none of which is blank are all kept, in order |
| CsvJson.DataRowsStep | dougerino.py:166-171 | a blank line or the header adds no data line; any other line is the next data line |
| CsvJson.Csv2JsonOf | dougerino.py:153-154 | empty text, and only empty text, gives `''` |
| CsvJson.MakeRowDict | dougerino.py:172-176 | the inner loop gives `RowDict`: the cells under the names, or an IndexError for a short line |
| CsvJson.Csv2Json | dougerino.py:142-178 | the loop's result is `Csv2JsonOf` |
| CsvJson.Csv2JsonRows | dougerino.py:153-178 | non-empty text fails exactly when a data line has fewer cells than there are names; otherwise there is one dictionary per data line, holding its cells under the names |
| CsvJson.Project | dougerino.py:313 | the row's values in field order; a missing field is a KeyError |
| CsvJson.TerminatedSnoc | dougerino.py:314 | appending a line appends it with its newline |
| CsvJson.SplitTerminated | dougerino.py:310-314 | newline-terminated lines split back into the lines plus an empty last piece |
| CsvJson.Json2Csv | dougerino.py:296-316 | the loop's result is `Json2CsvOf`: `''` for an empty document, otherwise the optional header of sorted field names and one line per object, or a KeyError |
| CsvJson.SortedKeys | dougerino.py:309 | the sorted field names list each key of the first object once |
| CsvJson.PutAllRebuilds | dougerino.py:174-175 | storing an object's values under its own keys rebuilds the object, in the order of the names |
| CsvJson.PutAllValues | dougerino.py:174-175 | distinct names with a mapping's values for them give back the mapping |
| CsvJson.PlainLine | dougerino.py:314 | a line of plain cells has no newline, is not blank, and splits back into its cells |
| CsvJson.CsvTextLines | dougerino.py:310-314 | the lines of written CSV text: the header, then one joined line per row |
| CsvJson.ReadCsvText | dougerino.py:153-178 | reading well-formed CSV text gives one dictionary per row, holding its cells under the header's names |
| CsvJson.WriteCsvText | dougerino.py:305-316 | with a header, the output is the sorted keys, then each object's values in that order |
| CsvJson.Json2CsvRoundTrip | dougerino.py:142-316 | `csv2json(json2csv(doc))` gives back the same values for every object, keyed in sorted order, for objects with the same plain keys and values |
| CsvCount.FirstMatch | dougerino.py:97-101 | the first header name equal to the column name ignoring case; none when no name matches |
| CsvCount.FindColumn | dougerino.py:95-101 | the search loop returns the first case-insensitive match, or column 0 when nothing matches |
| CsvCount.ColumnNumber | dougerino.py:91-101 | a column number must index a header cell, counting from the end when negative, or it is an IndexError; a name gives `NamedColumn` |
| CsvCount.Count | dougerino.py:83-114 | the loop's result is `CsvCountOf` |
| CsvCount.TallyOrder | dougerino.py:105-112 | the keys come in order of first appearance |
| CsvCount.TallyCounts | dougerino.py:105-112 | exactly the values that occur are counted, each as often as it occurs |
| CsvCount.SumOverUpdate | dougerino.py:109-110 | raising one count changes the sum of the counts by the same amount |
| CsvCount.TotalStep | dougerino.py:108-112 | counting one more value raises the total by one |
| CsvCount.TallyTotal | dougerino.py:105-112 | the counts add up to the number of values counted |
| CsvCount.CsvCountMeaning | dougerino.py:83-114 | fails with IndexError exactly when a column number is outside the header or a data row lacks the column; otherwise the keys are the distinct column values in first-appearance order, every count is its number of occurrences and at least 1, and the counts sum to the number of data rows |
| CsvColumns.BodyStep | dougerino.py:131-134 | with a header, only the first line is skipped; every other line is read |
| CsvColumns.CellOf | dougerino.py:198-199 | reading a column fails with IndexError exactly when the line has no such cell |
| CsvColumns.ColumnValuesMeaning | dougerino.py:194-201 | the column values exist exactly when every body line has the column, and value `i` is the stripped, optionally lower-cased cell of body line `i` |
| CsvColumns.Csv2List | dougerino.py:180-205 | the loop's result is `Csv2ListOf` |
| CsvColumns.Csv2ListMeaning | dougerino.py:202-205 | the list is sorted; with `dedupe` it has no duplicates and the same elements as the column values; without it, it is a permutation of them |
| CsvColumns.DedupeIgnoresSetOrder | dougerino.py:203 | sorting the set gives the same list however the set is enumerated |
| CsvColumns.Csv2Dict | dougerino.py:116-140 | the loop's result is `Csv2DictOf` |
| CsvColumns.Csv2DictFails | dougerino.py:135-136 | fails with IndexError exactly when a body line lacks the key or the value column |
| CsvColumns.Csv2DictKeys | dougerino.py:135-139 | the keys are exactly the key cells of the body lines |
| CsvColumns.Csv2DictLastWins | dougerino.py:135-139 | each key holds the value of the last line with that key |
| CsvColumns.ListProjection | dougerino.py:318-331 | the loop's result is `ProjectionOf` |
| CsvColumns.ProjectionMeaning | dougerino.py:328-331 | fails with IndexError exactly when a column is out of range; otherwise the line is `values[c]` for each column `c`, in column order, joined by commas (a negative `c` counting from the end), and for comma-free values it splits back into them |
| Progress.Display | dougerino.py:357-369 | the display starts with the bar |
| Progress.BarShape | dougerino.py:357-365 | the bar is `[`, `bar_length` cells, `]`: todo marks at 0, done marks when complete, otherwise `done-1` done marks, `>`, then todo marks |
| Progress.DisplayShape | dougerino.py:357-369 | the display has that shape and ends in a newline exactly when the bar is complete |
| Progress.ProgressBar.Unset | dougerino.py:372 | the module never assigns `lastdisplay` before its first read |
| Progress.ProgressBar.constructor | dougerino.py:372-374 | the corrected initial state: an empty last display |
| Progress.ProgressBar.Show | dougerino.py:371-374 | reading an unassigned `lastdisplay` is an AttributeError; a new display is printed after `\r` and remembered; an unchanged one is not printed and the state does not change |
| Progress.FirstCallAsWritten | dougerino.py:371-374 | the first call of the module as written raises AttributeError |
| Progress.FirstCallsInitialised | dougerino.py:371-374 | from the initialised state, the first call prints its bar and an identical second call prints nothing |
| Dates.YearDiff | dougerino.py:417-422 | a missing date is an AttributeError |
| Dates.YearDiffCountsAnniversaries | dougerino.py:421-422 | the result is the number of anniversaries of the start on or before the end: anniversary `k` is on or before the end exactly when `k` is at most the result |
| Dates.YearDiffBounds | dougerino.py:421-422 | the result is the difference of the years or one less |
| Strings.Split | dougerino.py:156 | `split` always gives at least one piece |
| Strings.JoinSplit | dougerino.py:277 | joining the pieces of a split gives the text back |
| Strings.SplitJoin | dougerino.py:314 | splitting a join of separator-free pieces gives the pieces back |
| Strings.BeforeFirstMeaning | dougerino.py:281 | `split(';')[0]` is the unique text before the first separator |
| Strings.AfterLastMeaning | dougerino.py:280 | `split(sep)[-1]` is the unique text after the last separator |
| Strings.StripMeaning | dougerino.py:280-282 | `strip` removes exactly the leading and trailing whitespace |
| Strings.Repeat | dougerino.py:359-363 | `n * s` is empty for `n <= 0` and has length `n * len(s)` otherwise; a one-character text gives `n` copies of its character |
| Strings.RepeatBlocks | dougerino.py:359-363 | `n * s` is `n` copies of `s` one after the other: characters `k*len(s)` to `(k+1)*len(s)` are `s` for each `k < n` |
| Strings.DecimalRoundTrip | dougerino.py:162 | `str(n)` reads back as `n` |
| Strings.At | dougerino.py:175 | `xs[i]` counts from the end for negative `i`, and is an IndexError out of range |
| Strings.DropEnds | dougerino.py:280-281 | `s[1:-1]` is empty for texts of at most two characters, and otherwise holds the characters between the first and the last |
| Strings.DropEndsWrapped | dougerino.py:280-281 | dropping the ends of a wrapped text, such as `<url>` or `"next"`, gives the text back |
| Strings.Lower | dougerino.py:100 | `lower` keeps the length, maps each ASCII capital to its small letter, leaves every other character alone, and leaves no ASCII capital |
| Sorting.SortSorts | dougerino.py:309 | `sorted` gives a sorted permutation of its input |
| Sorting.SortedUnique | dougerino.py:309 | there is only one sorted permutation of a list |
| Sorting.SortIgnoresEnumerationOrder | dougerino.py:203 | sorting two duplicate-free enumerations of the same set gives the same list |
| Sorting.Distinct | dougerino.py:203 | de-duplication keeps each element once and nothing else |
| Sorting.DistinctFirstSeenOrder | dougerino.py:105-112 | de-duplication keeps elements in order of first appearance |
| Dicts.Empty | dougerino.py:173 | `dict()` has no keys |
| Dicts.Put | dougerino.py:175 | `d[k] = v` keeps an existing key in place and appends a new one |
| Dicts.PutAllOrder | dougerino.py:174-175 | successive assignments order the keys by first assignment |
| Dicts.PutAllLookup | dougerino.py:174-175 | a later assignment to the same key overwrites an earlier one |
| Dicts.PutAllKeys | dougerino.py:174-175 | only assigned keys are present |
| Values.CollectMeaning | dougerino.py:172-176 | a loop stopping at the first exception succeeds exactly when every step does, with step `i`'s result at `i`, and otherwise fails with the first step's exception |

## Left out

- File and console I/O: `open`, `readline`, `readlines`, `print` and the verbose status lines. The CSV helpers take the file's lines, and `progressbar` returns what it would print.
- The `csv` module's quoting: `csv_count` takes the rows the CSV reader yields. The other CSV helpers split on plain commas, as the source does.
- GitHubApi.AllPages: the body of an `ok` response is given as its list of records. `json.loads` raising JSONDecodeError on a body that is not JSON is not modelled. Nor is `payload.extend` of a body that is a JSON object, which adds the object's keys.
- LinkHeader.Pagination: the result is a map, so the key order of the Python dictionary (the eight defaults, then new keys in insertion order) is not modelled. The lookups of `nextURL` and the other keys do not depend on it.
- `json.loads`: `json2csv` takes the parsed document. Values other than strings, which make `','.join` raise TypeError, are not modelled.
- Unicode case mapping: `lower` is modelled on ASCII letters only.
- The Requests library and HTTP. A call's response is a parameter: a function from the request to its `ok` flag, its records, its Link header and its rate-limit headers.
- `setting` and the `.ini` file: the settings are a function parameter. `configparser.NoOptionError` is not modelled.
- Non-numeric rate-limit headers, for which `int()` raises ValueError: the headers are given as numbers or absent.
- GitHubApi.AllPages: needs a ghost bound on the length of the `next` chain. The Python loop never ends on a cyclic chain, and that case is not modelled.
- Progress.Display: takes the integer `done`. The float product `int(bar_length * progress)` is not modelled.
- Dates.YearDiff: takes date values. Parsing `m/d/Y` strings with `strptime` is not modelled.
- Functions outside this model, each independent of it: `bytecount`, `cdow`, `ChangeDirectory`, `cls`, `days_since`, `dicts2csv`, `dicts2json`, `filesize`, `hashkey`, `percent`, `printlines`, `setting`, `time_stamp`, and the verbose rate-limit print at githuberino.py:167-172.

## Findings

| source | as written | input that shows it | evidently intended | confidence | as-written member | corrected member |
|---|---|---|---|---|---|---|
| dougerino.py:372 | `progressbar.lastdisplay` is read before anything in the module assigns it | the first call of `progressbar(0.5)` in a program | the attribute starts empty, so the first call prints its bar | not executed; medium (a caller could assign the attribute first, but none in the repository does) | Progress.FirstCallAsWritten | Progress.FirstCallsInitialised |
