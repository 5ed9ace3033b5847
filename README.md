# zequotes request handler in Dafny

zequotes serves random quotations from a dataset embedded at build time.
One HTTP handler, `api/quotes.go`, is the whole of its logic, and this project models it:

- **Conditional GET and the method switch.** A request whose `If-None-Match` equals the dataset's validator gets 304 with no body, whatever its method. Otherwise GET is served and every other method gets 405 with `{"error":"method_not_allowed"}`.
- **Limit resolution.** `limit` is parsed with `strconv.Atoi`. A value in 1..100 is taken as it is. Anything else, including an absent value, gives 1.
- **Filtering.** `id` must match exactly. `lang` and `category` are compared after lower-casing. An empty parameter constrains nothing. When nothing matches, the whole dataset is the candidate set.
- **The in-place filter.** `filtered := allQuotes[:0]` shares the dataset's backing array, so each kept quote is written over the front of the dataset itself. `Handler.Store` holds the dataset as an `array` field, and `Store.FilterInPlace` writes into it exactly as the loop does.
- **Sampling without replacement.** When the limit covers every candidate, a shuffled copy is returned (a Fisher–Yates swap loop on an array). Otherwise indices are drawn and an index already seen is skipped, until `limit` distinct ones are collected.

Modules:

- `Quotes` (`quotes.dfy`): the quote record, ASCII lower-casing, the filter as a specification function `Matching`, and the fallback `Candidates`.
- `Limit` (`limit.dfy`): `Atoi`, its inverse `Decimal`, and `ResolveLimit`.
- `Sampling` (`sampling.dfy`): the shuffle, the rejection loop, and their specification (`DrawnFrom`, `Dedup`).
- `Handler` (`handler.dfy`): the package state as class `Store`, the filter loops, the GET path and the handler.
- `Scenarios` (`scenarios.dfy`): requests in sequence against one store.

Randomness is a parameter:

- Each shuffle swap partner is an arbitrary `j <= i`, chosen with `:|`. Any outcome of `rand.Shuffle` is covered.
- The rejection loop reads the outcomes of `rand.Intn` from a sequence `draws`.
- The caller supplies enough draws: every value is an index of the candidates, and at least `limit` of them are distinct. This is `DrawsSuffice`. It says that the loop terminates, which the Go code leaves to probability.

`allQuotes` is loaded once in `init` (`api/quotes.go:32-39`), and `sample` draws without replacement (`api/quotes.go:115-124`). So the dataset is evidently meant to stay read-only, and no response is meant to repeat an `id`. The in-place filter breaks both.

- The model states the code as written in `Store.FilterInPlace`, `Store.HandleGET` and `Store.HandleAsWritten`.
- `Scenarios.AliasingScenario` exhibits the resulting duplicate.
- `Store.Handle` is the corrected handler. It uses `Store.HandleGETCorrected`, which filters into a buffer of its own.

This is the finding below.

## Model

| member | source | states |
|---|---|---|
| Quotes.ToLower | api/quotes.go:65-66 | lower-casing keeps the length and maps every character through `LowerChar` |
| Quotes.ToLowerIdempotent | api/quotes.go:65-66 | lower-casing a lower-cased value changes nothing, so the lowered query value compares as its own key |
| Quotes.FilterOf | api/quotes.go:64-66 | `id` is kept as given; `lang` and `category` are the lower-cased query values, of the same length and already in lower case |
| Quotes.Keeps | api/quotes.go:76-84 | a quote passes the filter when every non-empty constraint matches: `id` exactly, `lang` and `category` after lower-casing the quote's field |
| Quotes.KeepsUnconstrained | api/quotes.go:76-84 | the empty filter keeps every quote; an `id` filter keeps no quote with another identifier |
| Quotes.KeepsCaseInsensitive | api/quotes.go:79-83 | a quote is kept exactly when its copy with lower-cased `lang` and `category` is, so matching ignores the quote's case |
| Quotes.Matching | api/quotes.go:74-86 | the quotes the filter keeps, in dataset order; never more than the dataset holds |
| Quotes.MatchingStep | api/quotes.go:75-86 | reading position `i` of the dataset appends the quote there exactly when it is kept |
| Quotes.MatchingSnoc | api/quotes.go:75-86 | one more quote of the dataset is appended to the filtered result exactly when it passes the `id`, `lang` and `category` checks |
| Quotes.MatchingAppend | api/quotes.go:75-86 | filtering a concatenation is the concatenation of the filtered parts: kept quotes stay in dataset order |
| Quotes.MatchingMembership | api/quotes.go:76-84 | a quote is in the filtered result if and only if it is in the dataset and every non-empty constraint matches it |
| Quotes.MatchingEmptyFilter | api/quotes.go:76-84 | with no `id`, `lang` or `category` every quote is kept, in order |
| Quotes.Candidates | api/quotes.go:87-89 | the candidates of a non-empty dataset are never empty |
| Quotes.CandidatesFallback | api/quotes.go:87-89 | when no quote passes the filter the candidates are the whole dataset; when one does they are exactly the matches |
| Quotes.MatchingUniqueIds | api/quotes.go:74-89 | a dataset with no repeated `id` yields matches and candidates with no repeated `id` |
| Limit.Atoi | api/quotes.go:69 | parsing succeeds if and only if the text is an optional sign followed by one or more ASCII digits; a leading `-` gives a value <= 0 and no `-` a value >= 0 |
| Limit.DigitsValue | api/quotes.go:69 | the value of a run of `k` decimal digits, most significant first, is below `10^k` |
| Limit.DigitsValueLeadingZero | api/quotes.go:69 | a leading zero changes nothing, so `limit=007` asks for 7 quotes |
| Limit.Decimal | api/quotes.go:69 | decimal rendering yields a non-empty run of digits |
| Limit.DigitsValueDecimal | api/quotes.go:69 | the value of the digits `Decimal` prints is the number printed |
| Limit.AtoiDecimal | api/quotes.go:69 | `Atoi` inverts decimal rendering, with a `+` sign, and with a `-` sign giving the negated value |
| Limit.ResolveLimit | api/quotes.go:67-72 | the limit is always in 1..100; a limit other than 1 is a successful parse of the text; a successful parse in 1..100 is taken as it is |
| Limit.ResolveLimitInRange | api/quotes.go:67-72 | every count 1..100 written in decimal, with or without a decoded `+` (sent as `%2B`, since a literal `+` in a query decodes to a space), is taken as it is |
| Limit.ResolveLimitOutOfRange | api/quotes.go:67-72 | `0` and every count above 100 fall back to 1 |
| Limit.ResolveLimitNegative | api/quotes.go:67-72 | every negative count, and `-0`, falls back to 1 |
| Limit.ResolveLimitExamples | api/quotes.go:67-72 | `0`, `-5`, `abc` and an absent value behave as `1` |
| Sampling.DrawnFromSnoc | api/quotes.go:119-123 | appending the quote at an index not seen before extends a draw without replacement |
| Sampling.Dedup | api/quotes.go:115-124 | the indices the rejection loop keeps from a stream of draws contain no repeat |
| Sampling.DedupValues | api/quotes.go:115-124 | the kept indices are exactly the drawn values, one each |
| Sampling.DedupSnoc | api/quotes.go:119-123 | a further draw is kept exactly when it has not been seen |
| Sampling.DedupStep | api/quotes.go:118-123 | reading draw `pos` keeps it exactly when it was not kept from the earlier draws |
| Sampling.DrawsRemain | api/quotes.go:117-118 | while fewer than `n` indices are kept and the draws hold `n` distinct ones, a draw is left to read |
| Sampling.DedupPrefix | api/quotes.go:117-124 | reading more draws only extends the kept indices |
| Sampling.Swapped | api/quotes.go:112 | an exchange swaps the two entries and leaves every other position alone |
| Sampling.SwappedDrawnFrom | api/quotes.go:112 | swapping two positions of a draw, in the result and in its indices together, is again a draw without replacement |
| Sampling.Swap | api/quotes.go:112 | the array after the swap is the exchanged sequence, with the same multiset |
| Sampling.ShuffledCopy | api/quotes.go:110-113 | the result is a permutation of the candidates: same multiset, each position taken from a distinct index |
| Sampling.DrawDistinct | api/quotes.go:115-125 | exactly `n` quotes, taken at distinct indices, which are the first distinct draws in order |
| Sampling.Sample | api/quotes.go:109-126 | the result holds `min(n, len)` candidates from distinct indices; every candidate in shuffled order when `n >= len`, the first distinct draws otherwise |
| Sampling.DistinctPicksUniqueIds | api/quotes.go:115-124 | quotes taken at distinct indices of a sequence without repeated `id` repeat no `id` |
| Handler.Get | api/quotes.go:64-68 | a query parameter reads as its first value, or as empty when absent |
| Handler.RequestFilter | api/quotes.go:64-66 | the filter takes the first `id` value as given and the first `lang` and `category` values lower-cased |
| Handler.RequestLimit | api/quotes.go:67-72 | the limit is 1 to 100; a first `limit` value parsing to a number in 1..100 gives that number; otherwise, and when `limit` is absent, it is 1 |
| Handler.Dispatch | api/quotes.go:48-59 | 304 if and only if the validator is non-empty and current; otherwise GET is served if and only if the method is GET, and anything else is refused |
| Handler.ConditionalGet | api/quotes.go:48-51 | the current validator gives 304 for any method; an empty validator never does, even against an empty validator |
| Handler.Overwritten | api/quotes.go:74-85 | after the in-place filter, the dataset starts with the matches and keeps its length and the rest of its entries |
| Handler.OverwrittenNoMatch | api/quotes.go:74-89 | a filter matching nothing leaves the dataset as it was, and the candidates are the front of the overwritten dataset |
| Handler.WriteFront | api/quotes.go:85 | appending to the shared slice writes the kept quote just past the kept prefix and leaves the rest of the array alone |
| Handler.ServedFromUniqueIds | api/quotes.go:87-91 | a response served from the candidates of a dataset without repeated `id` repeats none |
| Handler.SampleResponse | api/quotes.go:91-96 | status 200, `count` equal to the length of `result`, and `result` a sample of the candidates as `Sample` states: `min(limit, len)` quotes at distinct indices, every candidate when the limit covers them, and otherwise the first distinct draws |
| Handler.Store.constructor | api/quotes.go:32-37 | the store holds the decoded dataset and its validator |
| Handler.Store.FilterInPlace | api/quotes.go:74-86 | returns the number of matches and leaves the dataset overwritten at the front by the matches, in order |
| Handler.Store.FilterCopy | api/quotes.go:74-86 | the matches, in order, collected into a fresh buffer; the dataset is not written |
| Handler.Store.HandleGET | api/quotes.go:62-107 | as written: a 200 response sampled from the candidates of the dataset as it was before the request, which leaves the dataset overwritten by the matches; below the candidate count the quotes are those of the first distinct draws; that one response repeats no `id` when the dataset had none |
| Handler.Store.HandleGETCorrected | api/quotes.go:62-107 | the same response, from the first distinct draws when the limit is below the candidate count, with the dataset untouched, and no repeated `id` in a response drawn from a dataset without one |
| Handler.Store.HandleAsWritten | api/quotes.go:41-60 | as written: 304 with no body, or 405 with the error body, both leaving the dataset as it was; otherwise the in-place GET response, which leaves the dataset overwritten by the matches |
| Handler.Store.Handle | api/quotes.go:41-60 | corrected: 304 with no body, or 405 with the error body; otherwise the GET response sampled from the candidates, with no repeated `id` when the dataset has none, and no request writes the dataset |
| Scenarios.ByIdRequest | api/quotes.go:63-72 | `?id=x` filters on `x` alone with limit 1 |
| Scenarios.AllThreeRequest | api/quotes.go:63-72 | `?limit=3` sets no filter and limit 3 |
| Scenarios.MatchingById | api/quotes.go:74-86 | on `[a, b, c]` with distinct ids, `?id=c` matches `[c]` only |
| Scenarios.OverwrittenById | api/quotes.go:74-86 | that request turns a dataset without repeated ids into `[c, b, c]`, which has one |
| Scenarios.ConditionalScenario | api/quotes.go:48-51 | any request carrying the current validator gets 304 and no body |
| Scenarios.MethodScenario | api/quotes.go:53-59 | a POST without the validator gets 405 and the error body |
| Scenarios.RequestById | api/quotes.go:62-107 | `?id=c` on `[a, b, c]` returns `[c]` and leaves `[c, b, c]` behind |
| Scenarios.RequestAllThree | api/quotes.go:62-113 | `?limit=3` on three quotes returns all three, shuffled, each read from the dataset at one of three distinct indices, and leaves the dataset as it was |
| Scenarios.AliasingScenario | api/quotes.go:74-113 | `?id=c` then `?limit=3` serves `c` twice in the second response, although its three quotes are read from `[c, b, c]` at three distinct indices |
| Scenarios.CorrectedScenario | api/quotes.go:74-113 | with the filter copying, the second response is `a, b, c` in some order, with no repeated `id` |

## Left out

- The JSON decoding of the embedded dataset and the start-up panic on malformed data are left out. They are I/O and encoding. The store is built from the decoded sequence.
- The validator is a parameter of the store. The SHA-1 digest and its `W/"…"` formatting are hashing and formatting, not request logic.
- The response headers (CORS, `Vary`, `Cache-Control`, `ETag`, `Content-Type`) are not modelled. They are constant writes with no branch.
- The JSON encoding of the response, the `pretty=1` indentation and the writes to the connection are not modelled. The response is modelled as a status and a body value.
- Seeding and uniformity of `math/rand` are left out. The model covers every outcome of the draws, but not their probabilities. So the equal chance of each candidate is not stated.
- Sampling.DrawDistinct: termination rests on `DrawsSuffice` (the draws hold `limit` distinct indices). The Go loop ends only with probability 1.
- Sampling.Sample: takes a natural count. The Go function panics on a negative `n` below `len(src)`, through `make`, but the handler never passes one.
- Quotes.ToLower: lower-cases ASCII letters only. `strings.ToLower` applies full Unicode case mapping.
- Limit.Atoi: works on unbounded integers. A value outside 64 bits is an error in Go, while here it is a number beyond 1..100. Both resolve to the default limit of 1, so `ResolveLimit` agrees with the source.
- Concurrent requests sharing `allQuotes` and the global generator are not modelled. Each call runs alone on the store, so the data race between a filtering request and a concurrent reader is not captured.
- `apitest.go` is not part of this model. It only prints the embedded dataset.
- Handler.Store.Handle: is the corrected handler and not Go's `Handler` as written. Go's GET path overwrites `allQuotes` (`api/quotes.go:55`, `74`, `85`). `Handler.Store.HandleAsWritten` models the handler as written.

## Findings

| source | as written | input that shows it | evidently intended | confidence | as-written member | corrected member |
|---|---|---|---|---|---|---|
| api/quotes.go:74-86 | `filtered := allQuotes[:0]` shares the dataset's array, so `append` writes every kept quote over the front of the dataset | dataset `[a, b, c]` with distinct ids; `?id=c` leaves the dataset as `[c, b, c]`, and a following `?limit=3` returns `c` twice | the dataset stays read-only, and no response repeats an `id` | not executed | Scenarios.AliasingScenario | Handler.Store.HandleGETCorrected |
