# fast: a verified model of the URL shortener core

`fast` is a URL shortener. A client posts a long URL. The service checks
that it parses as a request URI, makes a random eight-letter code, stores
the pair (code, URL) and replies with the code and two links:
`fast.aeekay.co/<code>` and `https://fast.aeekay.co/<code>`. Fetching
`/<code>` later redirects to the stored URL. The route names `ping` and
`error` are reserved: fetching them is refused before the store is
consulted.

The code generator draws 63-bit random integers. It reads each one as ten
6-bit chunks, lowest bits first. A chunk below 52 selects a letter of the
alphabet `a..zA..Z`; a larger chunk is thrown away. A new integer is drawn
only when all ten chunks of the current one have been read.

This project models that core in Dafny and proves properties of it.

- `results.dfy`, module `Results`: the error kinds and the `Result` and
  `Option` wrappers.
- `constants.dfy`, module `Constants`: the domains, the alphabet, the bit layout,
  the code length and the reserved list. The alphabet is defined letter by
  letter (`Letter`); `AlphabetText` proves it is the source's string
  `"abc…zABC…Z"`.
- `codegen.dfy`, module `CodeGen`: the random source as a class over an oracle, the
  generator as a `while` loop, and the functions that specify it.
  - `Chunks` and `Stream`: the chunk stream that a sequence of draws yields.
  - `Accepted`: the chunks that index a letter.
  - `Generated`: the letters of the first n accepted chunks.
  - `PrefixFor`: how many chunks must be read to get n letters.
  - `DrawsUsed`: how many draws that takes.
- `shortener.dfy`, module `Shortener`: link building, the reserved check, the
  `urls` table as a class over a map, `GenerateURL`, the shorten handler
  and the redirect lookup.
- `env.dfy`, module `Env`: `getenv` over an environment map.

The random source is a `Source` object. It holds the values it will return
(`draws`) and the number already returned (`pos`); `Int63` returns the next
value. The generator and `GenerateURL` require the upcoming draws to hold
enough letters. That precondition is what makes the loop terminate; the Go
loop would run forever otherwise.

The URL parser (`url.ParseRequestURI`) is a parameter, `parseRequestURI: string -> bool`.

`URLStore` has a ghost counter of lookups. The counter shows that a
reserved code never reaches the store.

In the Go source, `cache` is an `int64` holding a non-negative `Int63`
value. On such a value `cache & letterIdxMask` is `cache % 64` and
`cache >>= letterIdxBits` is `cache / 64`, and the model uses `nat` with
those two operations. Inside `CodeGen` the literals `64` and `10` stand for
`letterIdxMask + 1` and `letterIdxMax`; `Constants.AlphabetShape` proves
both values.

The code neither filters reserved words when generating nor retries on a collision:

- Generation does not filter reserved words. This does no harm:
  `GeneratedNeverReserved` proves an eight-letter code is never reserved.
- There is no collision retry. `Shorten` writes the row unconditionally.
  In the map model a second row for the same code replaces the first;
  the source's plain `INSERT` never replaces a row (see "## Left out").

## Model

| member | source | states |
|---|---|---|
| Constants.DomainsAgree | fast/main.go:43-44 | the long domain is `https://` followed by the short domain, which has 14 characters |
| Constants.Letter | fast/main.go:45 | letter k of the alphabet is always an ASCII letter |
| Constants.AlphabetText | fast/main.go:45 | the alphabet is exactly the 26 lower-case letters in order followed by the 26 upper-case letters in order |
| Constants.AlphabetShape | fast/main.go:45-48 | the alphabet has 52 distinct letters, letter k is `Letter(k)`, the mask `2^6 - 1` is 63, a 6-bit chunk (mask + 1 = 64 values) can index every letter, and 63 bits hold `letterIdxMax` = 10 chunks |
| CodeGen.Chunks | fast/main.go:194-199 | one draw read as k chunks, via mask then shift: exactly k chunks |
| CodeGen.Stream | fast/main.go:189-192 | a sequence of draws yields `letterIdxMax` chunks per draw, draws in order |
| CodeGen.Accepted | fast/main.go:194 | the kept chunks are at most as many as those read, and each kept chunk indexes the alphabet |
| CodeGen.Spell | fast/main.go:195 | one letter per index; letter k is the alphabet letter at index k |
| CodeGen.Generated | fast/main.go:194-196 | the n-letter code has length n; letter k is the alphabet letter indexed by the k-th accepted chunk, and it is a letter |
| CodeGen.DrawsUsed | fast/main.go:190-192 | one draw at entry, then one more per ten chunks read while letters are missing; exactly one draw for n == 0, and at least one whenever a chunk is read |
| CodeGen.PrefixFor | fast/main.go:190-199 | the number of chunks read for n letters never exceeds the chunks available |
| CodeGen.AcceptedAppend | fast/main.go:194 | the kept chunks of a concatenation are the kept chunks of each part, in order |
| CodeGen.StreamAppend | fast/main.go:190-192 | the chunks of consecutive draw sequences are the concatenation of their chunks |
| CodeGen.TakeSpellsAccepted | fast/main.go:194-196 | the letters written are the spelling of the first n accepted chunks |
| CodeGen.ChunksSplit | fast/main.go:198 | after k chunks, the rest of a draw is the draw shifted right by 6k bits |
| CodeGen.ChunkAt | fast/main.go:194-198 | chunk j of a draw is the low six bits of the draw shifted right by 6j bits |
| CodeGen.ShiftedIsDivision | fast/main.go:198 | k shifts by `letterIdxBits` divide the draw by 2^(6k), so the shifted draw is `w >> 6k` |
| CodeGen.DiscardedChunk | fast/main.go:194-199 | a chunk of 52 or more adds no letter and does not change the letters produced, but it still takes one read slot |
| CodeGen.PrefixForShortest | fast/main.go:190-200 | the chunks read for n > 0 letters form the shortest prefix holding n accepted chunks, and it ends in an accepted chunk |
| CodeGen.LettersPerDraw | fast/main.go:189-192 | one draw yields at most `letterIdxMax` letters |
| CodeGen.DrawsCoverChunks | fast/main.go:190-192 | for n > 0 letters, the chunks read fit in the draws taken, and the last draw taken contributes at least one chunk |
| CodeGen.Source.Int63 | fast/main.go:190-192 | returns the next 63-bit value and advances the source by exactly one |
| CodeGen.RandStringBytesMaskImprSrcSB | fast/main.go:186-203 | for n >= 0, returns exactly n characters, namely the letters of the first n accepted chunks of the upcoming draws; it takes one draw at entry, even for n == 0, and then a new draw only when ten chunks have been read and letters are still missing (`DrawsUsed`) |
| Shortener.MakeShortenURL | fast/main.go:176-180 | `uri` is the code; the short link is `fast.aeekay.co/` followed by the code; the long link is `https://` followed by the short link |
| Shortener.CodeOfLink | fast/main.go:104-105 | a link yields a code exactly when it is the domain, `/` and one non-empty path segment (no `/`, `?` or `#`), and the link is that prefix followed by the code |
| Shortener.ShortLinkRoundTrip | fast/main.go:104-105 | for a code that is one path segment, the route parameter of its short link is the code itself |
| Shortener.ShortLinksDistinct | fast/main.go:176-180 | different codes never share a short link or a long link |
| Shortener.IsReserved | fast/main.go:53-56 | a code is refused (the reserved-list check of fast/main.go:107-108) exactly when it is `ping` or `error` |
| Shortener.GeneratedNeverReserved | fast/main.go:49-56 | no code of `uriStringCnt` = 8 characters is reserved |
| Shortener.GenerateURL | fast/main.go:168-181 | an unparsable URL gives `InvalidURL` and draws nothing; otherwise the reply is the links for the 8-letter generated code, and the source advances by `DrawsUsed` |
| Shortener.GeneratedCode | fast/main.go:174-180 | a generated code has 8 characters, all letters, is not reserved, is one path segment, and its short link leads back to it |
| Shortener.URLStore.Insert | fast/main.go:148 | the map gets the row (code, submitted URL) and no lookup is counted; the map write replaces an earlier row for the code, which the source's `INSERT` does not |
| Shortener.URLStore.Query | fast/main.go:116 | finds a row exactly when the code is stored, returns its URL, and counts one lookup |
| Shortener.Resolve | fast/main.go:104-126 | the redirect succeeds exactly when the code is not reserved and is stored, and then the target is the stored URL verbatim; a reserved code gives `ReservedWord`; a non-reserved code without a row gives `NotFound` |
| Shortener.ResolveShortURI | fast/main.go:104-126 | the handler's outcome is `Resolve` on the store, the store is unchanged, and a reserved code makes no lookup |
| Shortener.ReservedIgnoresStore | fast/main.go:107-113 | a reserved code is refused whatever the store holds |
| Shortener.ResolveAfterInsert | fast/main.go:116-125 | once a URL is stored under an 8-letter code, resolving that code redirects to it |
| Shortener.ResolveOtherCode | fast/main.go:148 | storing a row does not change the outcome for any other code |
| Shortener.Shorten | fast/main.go:128-161 | an unreadable body or an unparsable URL is an error, draws nothing and leaves the store unchanged; on success the reply is `GenerateURL`'s, the source advances by `DrawsUsed`, the store gains exactly the row (code, URL), the new code resolves to the URL, and no lookup is made |
| Env.Lookup | fast/main.go:219 | a variable that is unset reads as the empty string |
| Env.Getenv | fast/main.go:218-224 | the result is the fallback or the variable's value; it is the value when that is non-empty; it is non-empty exactly when the value or the fallback is non-empty |
| Env.UnsetIsEmpty | fast/main.go:219-221 | an unset variable and an empty one both give the fallback |
| Env.SetThenGet | fast/main.go:219-223 | a non-empty value is returned as is |
| Env.OtherKeysIgnored | fast/main.go:219 | other variables do not affect the result |
| Env.GetenvIdempotent | fast/main.go:218-224 | reading again with the result as the fallback changes nothing |

## Left out

- The `main()` wiring (fast/main.go:60-165). This covers configuration loading, logging, routing, the ping route, HTTP status codes and the redirect response. It is I/O and framework code. The handlers' logic is modelled by `Shorten` and `ResolveShortURI`.
- JSON binding of the shorten request. The body is an input: `None` stands for a body that does not bind.
- Store failures other than a missing row. This covers connection and query errors on lookup (fast/main.go:116-123) and on insert (fast/main.go:149-155). Both are calls into the database driver, so the model's store always succeeds.
- The connection state after an insert. fast/main.go:148 runs the `INSERT` with `Query` and drops the returned rows without closing them. With the pgx driver, `Query` reports only errors in sending the statement, and the connection stays busy until the rows are closed. So a failing `INSERT` can still be answered with success, and later lookups and inserts on the same connection can fail. The model does not capture this: `Shorten`'s success clause and `ResolveAfterInsert` hold for the map store only.
- The request metadata written with each row (`raw_json`, fast/main.go:144-146). It does not affect any outcome.
- `URLJSON.Scan` (fast/main.go:207-214). It is a type assertion plus a library JSON decode.
- The database connection. fast/db/db.go is not part of this model.
- The internals of `url.ParseRequestURI`. The parser is an uninterpreted function parameter.
- The `math/rand` generator and its time-based seed (fast/main.go:57). The source is an oracle sequence, so statistical uniformity of the codes is not stated.
- Concurrent use of the shared random source and of the store across requests, and of `main`'s `err` (declared at fast/main.go:88), which the redirect handler assigns and then reads (fast/main.go:116-117). Two redirects running at once can each see the other's error value, so a stored code can be refused or a missing code redirected to an empty URL. The shorten handler declares its own `err` and is not affected.
- Shortener.ResolveShortURI: models one request at a time; the shared `err` of fast/main.go:116-117 is not modelled, so its outcome holds only when no other redirect runs concurrently.
- CodeGen.RandStringBytesMaskImprSrcSB: requires n >= 0, because for a negative n the source panics in `sb.Grow(n)` (fast/main.go:188) before drawing; the panic is not modelled. The only caller passes 8.
- CodeGen.RandStringBytesMaskImprSrcSB: requires the upcoming draws to hold at least n accepted chunks. The oracle is finite, while the Go source never runs out.
- Shortener.GenerateURL: requires the upcoming draws to hold at least 8 accepted chunks, for the same reason.
- Shortener.Shorten: inherits that finite-oracle requirement from `GenerateURL`.
- Shortener.URLStore.Insert: modelled as a map write, which replaces an existing row for the code. The source's `INSERT` (fast/main.go:148) never replaces a row. For a duplicate code it either adds a second row or fails under a uniqueness constraint of the table, which is not part of the source. After a second row, the `SELECT … LIMIT 1` with no ordering (fast/main.go:116) may return either URL. No collision retry exists in the code.
