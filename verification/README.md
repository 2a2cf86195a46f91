# myedgeserver: the request-handling decisions of the TTS server

The server (`src/index.ts`) is a Koa application with three routes that carry
decision logic of their own:

- `/voices` answers with the voice catalogue, narrowed by an optional `search`
  query parameter (one string, or an array when the parameter is repeated) to
  the voices whose lower-cased id contains the lower-cased form of at least one
  search term. A falsy `search` leaves the catalogue unchanged.
- `/tts` refuses a missing or empty `text` or `voice` (500, "text and voice are
  required"), then an array-valued one (500, "text and voice should not be
  array"); otherwise it runs the cleanup, decodes the text, asks the generator
  for a link and answers `{ url }`. An error thrown on that path becomes 500
  with the error's message.
- `/clean` checks the `secret` parameter against the `CLEAN_SECRET`
  environment variable in three ordered steps (absent secret: 403; unset
  server secret: 500; mismatch: 403). Only an exact match runs the cleanup,
  which answers "Cleaned", or 500 "Clean failed" if it throws.

Each handler is a pure function from its query parameters, and from the
outcomes of the library calls it makes, to a `Handled` value. That value holds
the response (status and body) and the ordered list of library calls made
(`CleanVoices`, `GenerateTts(text, voice)`). So "the generator is not reached"
is stated as "no `GenerateTts` in the call list".

Modules:

- `Http` (`http.dfy`): query values (`Absent | Scalar | Many`), JavaScript
  truthiness of them (`Falsy`), response bodies, library calls, and library
  outcomes.
- `Strings` (`strings.dfy`): ASCII lower-casing, and `Includes`, a recursive
  substring scan. `Includes` is proved equal to the occurrence predicate
  `Contains`.
- `Voices` (`voices.dfy`): the filter callback `Keep`, the filter, the route,
  and the lemmas about them: subsequence, exact contents by multiplicity,
  membership, idempotence, scalar-versus-one-element-array equivalence, and
  case insensitivity in both the terms and the voice ids.
- `Tts` (`tts.dfy`): parameter validation and the `/tts` handler.
- `Clean` (`clean.dfy`): the secret gate and the `/clean` handler.

Behaviour of the code worth noting:

- A bad `/tts` parameter gets status 500, not a client error.
- `/tts` does not check `voice` against the catalogue.
- With `CLEAN_SECRET` unset, an absent secret still gets 403 "secret is
  required". The 500 "not set" answer comes only for a present secret.
- A `search` that is an empty array is truthy. `some` over no terms is false,
  so that search keeps no voice, while an absent or empty-string search keeps
  all of them. A query-string parser that turns only repeated keys into arrays
  never produces this value.
- A repeated `secret` arrives as an array. An array is never strictly equal to
  a string, so once `CLEAN_SECRET` is set it gets 403 "secret is invalid".

## Model

| member | source | states |
|---|---|---|
| `Strings.LowerChar` | src/index.ts:50 | lower-casing maps `A`–`Z` to `a`–`z`, leaves every other character alone, and never yields an upper-case letter |
| `Strings.Lower` | src/index.ts:50-53 | `toLowerCase()` keeps the length of the string and leaves no upper-case letter in it |
| `Strings.Includes` | src/index.ts:53 | `hay.includes(needle)` is true iff `needle` occurs in `hay` at some offset |
| `Strings.IncludesEmpty` | src/index.ts:53 | every voice id includes the empty string |
| `Voices.SomeIncludes` | src/index.ts:49-51 | `terms.some(...)` is true iff some term, lower-cased, occurs in the lower-cased voice id |
| `Voices.Keep` | src/index.ts:47-55 | the filter callback keeps a voice iff its lower-cased id contains the lower-cased form of at least one search term, for scalar and array searches alike |
| `Voices.FilterSeq` | src/index.ts:47-55 | the filtered list is no longer than the catalogue, holds only catalogue entries, and every entry passes the callback |
| `Voices.FilterVoices` | src/index.ts:45-56 | a falsy `search` returns the catalogue unchanged; a truthy one returns only matching voices |
| `Voices.VoicesRoute` | src/index.ts:43-61 | status 200 with a body that is a subsequence of the catalogue; a falsy search answers the catalogue itself; otherwise every copy of each matching voice is kept and no copy of any other voice; no generation or cleanup call |
| `Voices.FilterIsSubsequence` | src/index.ts:45-56 | the answer embeds into the catalogue at strictly increasing positions: nothing is added or reordered |
| `Voices.FilterSeqCounts` | src/index.ts:47-55 | each matching voice keeps all its copies and each other voice keeps none |
| `Voices.FilterMembership` | src/index.ts:45-56 | a voice is in the answer iff it is in the catalogue and the search is falsy or the voice matches |
| `Voices.FilterSeqKeepsAll` | src/index.ts:47-55 | a list whose every entry matches passes the filter unchanged |
| `Voices.FilterIdempotent` | src/index.ts:45-56 | filtering twice with the same search gives the same answer as filtering once |
| `Voices.ScalarIsSingletonArray` | src/index.ts:46-54 | a scalar `search` gives the same answer as the one-element array holding it, the empty string included |
| `Voices.FilterSeqSameKeep` | src/index.ts:47-55 | two searches that agree on every voice of the list give the same filtered list |
| `Voices.FilterIgnoresTermCase` | src/index.ts:50-53 | lower-casing the search terms does not change the answer |
| `Voices.KeepIgnoresVoiceCase` | src/index.ts:50-53 | whether a voice is kept depends only on its lower-cased id |
| `Voices.FilterIgnoresVoiceCase` | src/index.ts:50-53 | filtering the lower-cased catalogue gives the lower-cased answer |
| `Tts.CheckTtsParams` | src/index.ts:67-81 | the request proceeds iff `text` and `voice` are both non-empty strings, passing them unchanged; it is refused as missing iff one is absent or empty, which takes precedence over the array check |
| `Tts.TtsRoute` | src/index.ts:64-95 | a missing parameter gives 500 "text and voice are required" and an array one gives 500 "text and voice should not be array", both with no library call; library calls happen iff both are non-empty strings, cleanup first; generation is called with the decoded text and the voice if and only if cleanup and decoding succeed; status 200 with the generator's link iff generation succeeds; a 500 after validation carries the message of whichever of cleanup, decoding and generation threw first |
| `Clean.CheckSecret` | src/index.ts:100-122 | the gate authorizes iff the server secret is set and non-empty and the query secret is that exact string; it answers "required" iff the secret is falsy, whatever the server configuration; and it answers "not set" iff a present secret meets an unset or empty server secret |
| `Clean.CleanRoute` | src/index.ts:98-133 | absent secret gives 403 "secret is required" and unset server secret gives 500 "clean_secret is not set", neither calling the cleanup; the cleanup is called, once, iff the secret matches exactly; a present secret that differs from a configured one gets 403 "secret is invalid" with no cleanup; after the cleanup runs the answer is 200 "Cleaned" or 500 "Clean failed" |

## Left out

- Koa setup, the CORS middleware and its OPTIONS preflight, static file serving, the `/` route, and `app.listen`: HTTP and file-system plumbing with no decision logic of interest.
- `getVoiceList`, `generateTTS` and `cleanVoices` live in `src/lib/voice`, `src/lib/generator` and `src/lib/clean`, which are not part of this model. They become parameters: the catalogue as a sequence, the generator as a function that returns a link or throws, and the cleanup as an outcome (returns, or throws a message). No caching, deduplication or eviction is modelled.
- `decodeURIComponent` is a parameter, a function that returns a string or throws.
- Whether `generateTTS` or `cleanVoices` is asynchronous is not visible. The model treats both as synchronous calls whose errors the surrounding `try` catches.
- `Strings.LowerChar`: lower-cases ASCII letters only, not the full Unicode mapping of `toLowerCase`.
- `Strings.Lower`: lower-cases a string character by character with `LowerChar`, so it is ASCII only as well. Unicode mappings that change the length of a string are not modelled.
- Status codes come from Koa's defaults: a handler that assigns a body without a status answers 200.
- Concurrency is left out. Each handler is one sequential call.
