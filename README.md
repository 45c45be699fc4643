# shakesearch core in Dafny

A model of the search engine at the heart of the shakesearch service
(`main.go`). The engine has two parts.

- **The table-of-contents scanner** (`Searcher.GenerateWorksArray`) reads a
  line stream with one flag, `inContents`, and fills the works map
  (title -> entries). It trims each line of leading and trailing spaces. The
  line `Contents` turns collection on, and a non-blank line that is already
  a key turns it off. While collection is on, each line is stored as a key
  with an empty entry list.
- **The snippet search** (`Searcher.Search`) takes the offsets that the
  corpus's suffix array reports for a query. For each one it cuts the
  500-byte window `CompleteWorks[idx-250 : idx+250]`, in the index's order.

Files and modules:

- `text.dfy` (`Text`): `strings.Trim(s, " ")`, with its characterisation.
- `toc.dfy` (`Toc`): the scanner as a pure state machine. `Step` is one
  iteration on a trimmed line, and `Run` steps over a list of trimmed lines
  (`TrimAll` trims them). The lemmas about `Run` speak of trimmed lines. It
  also holds a reference definition, `TocKeys`, which skips to the first
  `Contents` line and then collects lines until a non-blank one repeats. A
  lemma proves the machine equal to it, and further lemmas cover the
  scanner's properties.
- `corpus.dfy` (`Corpus`): the contract of the suffix-array lookup
  (`IsLookupResult`) and a naive lookup that meets it. It also holds the
  search loop as a function (`SearchOutcome`) with the properties proved
  about it, and the clamped window that the search evidently meant to cut.
- `searcher.dfy` (`Searching`): the `Searcher` class. Its fields are
  `completeWorks`, `suffixArray`, `scanner` and `worksMap`. Its methods are
  `GenerateWorksArray` (a loop that updates the map in place), `Load` and
  `Search` (a loop that appends snippets). Each method is proved against the
  functions above.

Behaviour that the code has and a tidier reading would not. The model
follows the code in each case.

- The `Contents` line itself becomes a key.
- A blank line read during collection becomes the key `""`. The code only
  skips `"\n"`, and a scanned line never contains a newline.
- A second `Contents` line cannot reopen collection. It sets the flag, and
  because it is already a key, the same iteration clears the flag again. So
  once collection has ended, later lines change nothing (`ClosedStaysClosed`).
- Trimming removes only `' '`. Tabs and other whitespace stay.
- On the stream `Preface, Contents, Sonnet 1, Sonnet 2, "", Sonnet 1,
  text...` a tidier reading of the scanner would give the keys
  `{Sonnet 1, Sonnet 2}`. Because of the two points above, the code gives
  `{Contents, Sonnet 1, Sonnet 2, ""}` (`SampleWorks`).
- The code does not clamp the window: a match within 250 bytes of either
  end makes the Go slice expression panic. `Search` returns
  `SlicePanic(offset)` for the first such offset. The clamped window is
  modelled separately (see Findings).
- Offsets are byte positions: `be` occurs in `to be or not to be` at
  offsets 3 and 16.
- The suffix-array lookup returns nothing for an empty pattern. For a
  non-empty one it returns every match offset exactly once, in an order the
  model does not fix.

## Model

| member | source | states |
|---|---|---|
| `Text.TrimLeft` | main.go:96 | the left half of the trim: the result is no longer than the line, does not start with a space, and ends where the line ends |
| `Text.TrimRight` | main.go:96 | the right half of the trim: the result is no longer than the line, does not end with a space, and starts where the line starts |
| `Text.Trim` | main.go:96 | `strings.Trim(line, " ")`: the result is no longer than the line and has no space at either end |
| `Text.TrimLeftSpec` | main.go:96 | `TrimLeft` keeps a suffix of the line, everything it drops is a space, and what it keeps does not start with a space |
| `Text.TrimRightSpec` | main.go:96 | `TrimRight` keeps a prefix of the line, everything it drops is a space, and what it keeps does not end with a space |
| `Text.TrimIsSpaceFreeInfix` | main.go:96 | the trimmed line is a contiguous infix of the raw line, only spaces lie outside it, and it has no space at either end |
| `Text.TrimIdempotent` | main.go:96 | trimming an already trimmed line changes nothing |
| `Text.TrimKeepsTabs` | main.go:96 | only `' '` is trimmed: a line framed by tabs is kept whole |
| `Toc.TrimAll` | main.go:95-96 | the lines the loop steps over: one trimmed line per scanned line |
| `Toc.Run` | main.go:95-108 | the whole loop, `Step` over each trimmed line in order: no key is removed, and collection is on at the end only if it was on at the start or some line is `Contents` |
| `Toc.TocKeys` | main.go:93-108 | reference definition of the scanner's key set: it is empty exactly when no line is `Contents` |
| `Toc.Step` | main.go:97-107 | one iteration adds at most the trimmed line, with an empty entry list, and only if it was not a key yet or is `""`; only the `Contents` line can turn collection on |
| `Toc.Collected` | main.go:100-107 | reference definition of collection: the titles seen so far are always kept |
| `Toc.StepAtMarker` | main.go:97-103 | the first `Contents` line turns collection on and becomes a key; a later one, already a key, turns it off and adds nothing |
| `Toc.StepAtRepeat` | main.go:100-103 | a non-blank line that is already a key turns collection off and adds nothing |
| `Toc.StepAtBlank` | main.go:101-106 | a blank line never turns collection off; during collection it is stored as the key `""`, and outside collection it is ignored |
| `Toc.RunKeepsEntries` | main.go:100-107 | no key is ever removed; an existing key keeps its entries (only `""` may be reset to empty); every new key has an empty entry list |
| `Toc.TrimAllAt` | main.go:96 | the loop steps over each line in its trimmed form, in order |
| `Toc.RunKeysFromLines` | main.go:104-106 | every new key is one of the trimmed lines scanned |
| `Toc.AllEntriesEmpty` | main.go:104-106 | starting from an empty map, every value in the works map is an empty list |
| `Toc.RunWithoutMarker` | main.go:94-107 | outside collection and with no `Contents` line ahead, scanning changes neither the map nor the flag |
| `Toc.NoMarkerNoWorks` | main.go:94-107 | if no trimmed line is `Contents`, the works map stays empty |
| `Toc.BeforeFirstMarker` | main.go:94-107 | the lines before the first `Contents` line have no effect on the result |
| `Toc.ClosedStaysClosed` | main.go:97-103 | once collection is off and `Contents` is a key, no later line changes anything, so a second `Contents` cannot reopen collection |
| `Toc.RunKeysTrimmed` | main.go:96-106 | after scanning raw lines, no key begins or ends with a space (given that no initial key does) |
| `Toc.CollectingMatches` | main.go:97-107 | during collection with exactly the keys `seen`, the machine produces exactly the reference set `Collected(seen, body)` |
| `Toc.RunMatchesTocKeys` | main.go:93-108 | from an empty map, the works map is exactly the reference key set `TocKeys(lines)`, with every entry list empty |
| `Toc.MarkerBecomesKey` | main.go:97-106 | if any trimmed line is `Contents`, then `Contents` becomes a key |
| `Toc.SampleWorks` | main.go:93-108 | for the sample stream above, the keys are exactly `Contents`, `Sonnet 1`, `Sonnet 2` and `""` |
| `Corpus.IsLookupResult` | main.go:116 | the contract of `SuffixArray.Lookup(query, -1)`: every offset is an occurrence, every occurrence is listed once, in any order, and the empty pattern gives none; each offset leaves room for the whole pattern |
| `Corpus.NaiveLookup` | main.go:116 | returns every offset where the non-empty pattern occurs, each once, and nothing for the empty pattern (the lookup contract) |
| `Corpus.LookupDeterministic` | main.go:116 | two lookup results for the same corpus and pattern contain the same offsets and have the same length |
| `Corpus.SearchOutcome` | main.go:117-121 | the search loop as written: on success one snippet per offset; a panic names an offset of the list whose window leaves the corpus |
| `Corpus.SearchOutcomeMeaning` | main.go:117-121 | the search succeeds exactly when every offset has 250 bytes on both sides; then it gives one snippet per offset, in order, each `corpus[idx-250 .. idx+250)`; otherwise it panics at the first offset that does not |
| `Corpus.SnippetsShowQuery` | main.go:116-120 | for lookup offsets, every snippet of a successful search is 500 bytes long and shows the query (up to 250 bytes of it) starting at position 250 |
| `Corpus.NearEdgeMatchPanics` | main.go:119 | a single match within 250 bytes of either end of the corpus makes the whole search panic |
| `Corpus.ToBePanics` | main.go:119 | searching `to be or not to be` for `be` panics, whatever order the index returns the offsets in |
| `Corpus.ClampedSnippet` | main.go:119 | the corrected window: at most 500 bytes, and exactly the as-written window `corpus[idx-250 .. idx+250)` whenever that is in bounds |
| `Corpus.ClampedSearch` | main.go:117-121 | the corrected search: one clamped snippet per offset, in order, none longer than 500 bytes |
| `Corpus.ClampedSnippetShowsQuery` | main.go:119 | the clamped window around a match is at most 500 bytes and holds the query after at most 250 bytes of context |
| `Corpus.ClampedSearchShowsQuery` | main.go:115-121 | the clamped search never fails on lookup offsets, gives one snippet per offset holding the query, and agrees with the as-written search wherever that succeeds |
| `Searching.Searcher.constructor` | main.go:44-49 | the zero `Searcher{}`: empty corpus, no index, no lines, empty works map |
| `Searching.Searcher.GenerateWorksArray` | main.go:93-113 | consumes every scanner line and leaves the works map equal to the state machine `Run` applied to the old map |
| `Searching.Searcher.Load` | main.go:73-91 | resets and rebuilds the works map to exactly `TocKeys(tocLines)`; installs the corpus and its index if the read succeeded, and reports failure without touching them otherwise |
| `Searching.Searcher.Search` | main.go:115-122 | the result is the as-written search outcome: one 500-byte snippet per offset, in the index's order, each showing the query at position 250, or a panic when some offset lacks 250 bytes on either side |

## Left out

- The HTTP handler, its query-parameter check and the JSON encoding (main.go:51-71) are network and serialisation glue.
- `main`, static file serving and the `PORT` setting (main.go:16-38) are process start-up and I/O.
- File access in `Load` is left out: the `os.Open` of the hard-coded `justtitles.txt`, `ioutil.ReadFile`, `log.Fatal` on an open failure, and the deferred close. `Load` takes the table-of-contents lines and the outcome of reading the corpus file (`Option<seq<byte>>`) as parameters. `main` passes `justtitles.txt` as the corpus too, but that is outside `Load`.
- The `bufio.Scanner` is left out: its line splitting, its token-size limit and its error path (`log.Fatal`, main.go:110-112). The `scanner` field holds the lines it would deliver, already split.
- The debug `fmt.Printf` of the works map (main.go:109) is output only.
- The internals of `index/suffixarray` are a foreign library. `suffixArray` records only which bytes the index was built over. What a lookup returns is the contract `IsLookupResult`, and `Search` receives those offsets as a parameter that meets it. `NaiveLookup` shows that the contract can be met.
- `WorksContent` (main.go:40-42) is declared but never used.
- Searching.Searcher.Search: requires a loaded index. Calling `Search` with a non-empty query on the zero `Searcher` dereferences a nil index, and that case is not modelled. (With an empty query Go's `Lookup` returns nil before touching the index.)
- Snippets are raw bytes. A window can cut a multi-byte UTF-8 sequence, and the JSON encoder's substitution of such bytes belongs to the serialisation left out above.
- A Go nil slice and an empty slice are both modelled as `[]`.
- Concurrency is left out. The handler closes over a copy of the `Searcher` and only reads it.

## Findings

| source | as written | input that shows it | evidently intended | confidence | as-written member | corrected member |
|---|---|---|---|---|---|---|
| main.go:119 | `CompleteWorks[idx-250:idx+250]` is not clamped, so any match within 250 bytes of either end of the corpus makes the slice panic and the search returns nothing | corpus `to be or not to be`, query `be` (matches at offsets 3 and 16) | the window is clamped to the corpus, so a match near either end still yields a shorter snippet | high (Go slice bounds semantics); not executed | `Corpus.ToBePanics` | `Corpus.ClampedSearchShowsQuery` |
