# health: a Dafny model of the HTTP-triggered probe runner

The program is one Go file, `main.go`. Each HTTP request it receives starts
a run: it loads a JSON script of probes, sends one HTTP request per probe,
judges each response against the probe's status-code range (`code_range`)
and required body substring (`contains`), and replies 200 `Tests success`
or 500 `Tests faiure: ` followed by every failure text joined by newlines.
The misspelling is in the program and is kept here.

This project models the decision logic of a run, with the network replaced
by an input value:

- `strconv.dfy` (module `Strconv`): `strconv.Atoi` (an optional sign, then
  one or more decimal digits, over unbounded integers) and the decimal
  rendering `%d` uses. Lemma `AtoiItoa` proves that reading back a rendered
  integer gives the integer.
- `strings.dfy` (module `Strings`): `strings.Split` on one character,
  `strings.Join` and `strings.Contains`. Split and join are proved to be
  inverses of each other. `Contains` is a left-to-right scan, proved equal
  to the reference predicate `IsSubstring`.
- `code_range.dfy` (module `CodeRange`): `parseExpectedCodesRange`, which
  returns `(max, min, failed)` in Go's order. An empty text gives
  (399, 199). Otherwise the text is split on every `-`: segment 0 gives the
  minimum, segment 1 (if there is one) gives the maximum, and later segments
  are ignored. On an Atoi failure the bounds read so far are kept, and an
  unread bound is 0.
- `probes.dfy` (module `Probes`): the verdict of `executeTest` on one probe,
  given an `Exchange`. An `Exchange` is one of four things: the request
  could not be built, the transport failed, the body could not be read, or a
  response came back with a status and a body.
- `runner.dfy` (module `Runner`): `handle` as the method `Handle`. Its loop
  is the method `RunProbes`, which runs every probe in order and appends
  each failure text to `errs`. The loop invariant says `errs` holds the
  failure texts of the probes processed so far, in order. `Handle` then
  renders the reply.
- `scenarios.dfy` (module `Scenarios`): concrete range texts and probes
  worked through the model.

Two quirks of the code are modelled as written:

1. The error from parsing the range is thrown away.
   `parseExpectedCodesRange` returns an `err` (main.go:218), but no caller
   reads it: `err` is assigned again by `http.NewRequest` (main.go:100)
   before anything checks it. Only the bounds the parse leaves behind are
   used (`ParseErrorIgnored`). A bad first segment leaves (0, 0), which
   judges the probe exactly like the default band
   (`BadRangeBehavesAsDefault`). A bad second segment is not harmless. It
   leaves max 0 and min A, and those reject every status strictly between
   0 and A (`BadMaximumRejectsBetween`, `BadMaximumRejects`).
2. The status check rejects only when `code < min && code > max`
   (main.go:157). Its message, "is not in expected range" (main.go:158),
   shows that an inclusive band was meant. As written, the check can fire
   only for an inverted range, and then only for codes strictly between max
   and min. Every ordered range, including the default one, accepts every
   status (`RangeRejectsOnlyInverted`, `OrderedRangeNeverRejects`), so a
   200 passes a `500-599` probe (`OutOfBandCodePasses`).

The network is not modelled. Each probe's exchange is an input: `Handle`
takes the script (probes or a load error) and one observed `Exchange` per
probe. The error texts that Go's `net/http` and `io` produce are input
strings (`reason`).

## Model

| member | source | states |
|---|---|---|
| `Strconv.Atoi` | main.go:224 | Atoi succeeds exactly on an optional `+`/`-` followed by at least one decimal digit; a `-` sign gives a value <= 0 and no sign or `+` gives a value >= 0 |
| `Strconv.AtoiItoa` | main.go:152 | every integer rendered in decimal (as `%d` renders a status code) reads back through Atoi as that integer |
| `Strings.Split` | main.go:223 | splitting always yields at least one segment, so `parts[0]` exists for every input |
| `Strings.JoinSplit` | main.go:223 | joining the segments of a split with the separator restores the original text |
| `Strings.SplitJoin` | main.go:91 | splitting a newline join of separator-free texts gives back exactly those texts |
| `Strings.SplitWithoutSeparator` | main.go:229-232 | text without the separator splits into the single segment that is the text itself |
| `Strings.SplitAtFirstSeparator` | main.go:223-234 | the first separator ends segment 0 and the remainder is split independently |
| `Strings.ContainsIsSubstring` | main.go:166 | the `strings.Contains` scan is true iff the substring occurs at some index (both directions) |
| `CodeRange.ParseExpectedCodesRange` | main.go:218-240 | a reported error only arises for non-empty text and always leaves the maximum at 0 |
| `CodeRange.ParseEmpty` | main.go:219-221 | empty text yields max 399, min 199 and no error |
| `CodeRange.ParseSingleCode` | main.go:223-232 | text with no `-` gives min = max = Atoi(text) without error, or (0, 0) with an error when it is not an integer |
| `CodeRange.ParseTwoSegments` | main.go:223-239 | `A-B` optionally followed by `-...` gives min = Atoi(A), max = Atoi(B) with no ordering enforced; a bad A gives (0, 0) with error; a bad B gives max 0, min Atoi(A) with error |
| `Probes.ExecuteTest` | main.go:98-171 | a request that is invalid fails with exactly its error text; a transport failure fails with a text quoting the cause; a body-read failure fails with a text quoting the cause and the status; with no required substring a response passes iff the as-written range condition does not fire |
| `Probes.ReasonQuoted` | main.go:137-152 | the transport-failure text contains the cause, and the body-read-failure text contains both the cause and the decimal status |
| `Probes.RangeRejectsOnlyInverted` | main.go:157-159 | the status check rejects iff max < code < min, so never when min <= max |
| `Probes.ResponseVerdict` | main.go:157-171 | a response passes iff not (max < status < min) and the required substring is empty or occurs in the body |
| `Probes.OrderedRangeNeverRejects` | main.go:157-171 | with min <= max the verdict depends only on the body check |
| `Probes.DefaultRangeAcceptsEveryCode` | main.go:219-221 | an empty `code_range` accepts every status code; only the substring check can fail the probe |
| `Probes.BadRangeBehavesAsDefault` | main.go:99-107 | a range whose first segment is not an integer reports a parse error, yet the probe gets exactly the verdict it would get with an empty range |
| `Probes.BadMaximumRejectsBetween` | main.go:234-237 | for `A-B` with a good A and a bad B the parse reports an error and leaves max 0, min Atoi(A), and every status strictly between 0 and Atoi(A) fails with the range-mismatch message |
| `Probes.ParseErrorIgnored` | main.go:99-100 | two probes whose ranges parse to the same bounds get the same pass/fail verdict, whatever the parse error flags are |
| `Probes.EmptyContainsIgnoresBody` | main.go:161-164 | with an empty `contains` the body never changes whether the probe passes |
| `Probes.ContentCheck` | main.go:161-171 | past the range check, a body containing the substring passes and one lacking it fails with the message quoting both strings |
| `Probes.RangeMismatch` | main.go:157-159 | a rejected status fails with the message naming the code, the range text and the body, before the body is checked |
| `Runner.HandleErr` | main.go:174-184 | the failure reply has status 500, starts with `Tests faiure: ` and the rest of the body is exactly the error text |
| `Runner.HandleSuccess` | main.go:186-196 | the success reply is status 200 with body `Tests success` |
| `Runner.NoFailuresIffAllPass` | main.go:85-95 | a stretch of probes collects nothing iff every probe in it passes (both directions) |
| `Runner.FailuresAppend` | main.go:77-88 | running two stretches of probes in sequence collects the first stretch's failures followed by the second's, with nothing lost, duplicated or reordered |
| `Runner.FailingProbeCollected` | main.go:85-87 | every failing probe's text is among the collected texts |
| `Runner.CollectedFromFailingProbes` | main.go:77-88 | every collected text is the failure of some probe in the stretch, and the number of collected texts equals the number of failing probes |
| `Runner.OnlyOneFailure` | main.go:77-91 | when exactly one probe fails, `errs` is exactly that probe's failure text |
| `Runner.RunProbes` | main.go:76-88 | the loop runs every probe and ends with `errs` equal to the failure texts of the failing probes in declaration order; `errs` is empty iff every probe passed |
| `Runner.Handle` | main.go:68-96 | a load error gives 500 with its text before any probe runs; otherwise every probe runs, and the reply is 200 `Tests success` if `errs` is empty, else 500 with the texts joined by newlines; status 200 iff the script loaded and every probe passed |
| `Runner.FailureReplyListsEachFailure` | main.go:91 | when no failure text contains a newline, splitting the failure reply's body after the prefix recovers the failure texts, in order |
| `Scenarios.AtoiExamples` | main.go:224 | `200`, `+5`, `-0` parse; the empty text, a lone `+` and `2x` do not |
| `Scenarios.ParseOrdinaryRange` | main.go:234 | `200-299` gives max 299, min 200 |
| `Scenarios.ParseExtraSegment` | main.go:223 | `200-299-404` ignores the third segment |
| `Scenarios.ParseSingleExample` | main.go:229-232 | `404` gives min = max = 404 |
| `Scenarios.ParseInvertedRange` | main.go:234-239 | `299-200` is accepted as max 200, min 299 |
| `Scenarios.ParseBadCode` | main.go:224-227 | `abc` gives (0, 0) with an error |
| `Scenarios.ParseBadMaximum` | main.go:234-237 | `200-abc` keeps min 200, leaves max 0 and reports an error |
| `Scenarios.ParseLeadingDash` | main.go:223-227 | `-5` has an empty first segment, so it gives (0, 0) with an error |
| `Scenarios.NoContentPasses` | main.go:157-164 | a 204 with an empty body passes a `200-299` probe with no substring |
| `Scenarios.ReadySubstringPasses` | main.go:166-171 | body `not ready yet` satisfies `contains: ready` |
| `Scenarios.MissingSubstringFails` | main.go:166-168 | body `booting` fails `contains: ready` with the content-mismatch message |
| `Scenarios.OutOfBandCodePasses` | main.go:157 | a 200 passes a `500-599` probe, as the check is written |
| `Scenarios.InvertedRangeRejects` | main.go:157-158 | a 250 is rejected by the inverted range `300-200` |
| `Scenarios.BadMaximumRejects` | main.go:234-237 | with `200-abc` the leftover bounds max 0, min 200 reject a 150 with the range-mismatch message |
| `Scenarios.OneOfTwoFails` | main.go:77-91 | of two probes, a failing one then a passing one, the run collects exactly one failure text, and that text is the whole joined report |

Helpers without a row of their own, described by the rows above:
`Strings.Join` (main.go:91), `Strings.Contains` (main.go:166),
`Strconv.Itoa` (the `%d` of main.go:152 and 158), `Probes.RangeRejects`
(main.go:157), `Probes.TransportMessage` (main.go:137),
`Probes.BodyReadMessage` (main.go:152), `Probes.RangeMismatchMessage`
(main.go:158) and `Probes.ContentMismatchMessage` (main.go:167).

## Left out

- `main`: flag parsing, the `os.Stat` check, route registration and `http.ListenAndServe` are process plumbing. `isVerbose` only selects what gets logged.
- `parseScript` (file open, read, JSON decoding): this is input. The model takes a `Script`, which is either the probe list or the load error's text.
- `http.NewRequest`, the transport setup (10-second response-header timeout, keep-alives off, certificate checks off) and `client.Do`: these are network calls. Their results arrive as an `Exchange`. The error texts they produce are the `reason` strings.
- Applying `headers` with `req.Header.Add`: Go map order is not deterministic, and the effect shows only in the outbound request, which the model does not build. `Probe.headers` is carried but not used.
- `httputil.DumpRequest`, every `log.Printf`, and the `time.Now`/`time.Since` latency logging: these only produce observability output.
- Closing the response body and the `io.EOF` branch: this is resource cleanup. `ReadAll` never returns `io.EOF`, so that branch never changes a verdict.
- The response body is `[]byte` in Go and `string` here. `strings.Contains` on the converted text is byte substring search, and the model searches characters.
- Strconv.Atoi: does not model the 64-bit range error and clamping of Go's Atoi, because integers here are unbounded.
- Probes.ExecuteTest: the text of the discarded range-parse error is not kept, because no caller ever reads it. `Parsed.failed` only records that an error occurred.
