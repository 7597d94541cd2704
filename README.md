# Rate limiter core, modelled in Dafny

This project models the decision engine of an HTTP rate limiter written in Go. Each request carries a client identity (its IP) and, optionally, an access token.

- `Allow(ip, token)` reads the identity's counter record from a state store. On first contact it creates and saves a fresh record.
- While the record is blocked, every request is denied.
- Otherwise the request is counted against a budget: the default budget, or the token's own budget when that is positive.
- A request that finds the budget used up is denied. It moves the record to "blocked", stamped with the current second.
- Once the block duration has passed, the record reads as Open again, and the next request starts a new count.
- A cleanup sweep lists every key in the store and deletes them one by one.

The token table is built from a comma-separated parameter such as `"10,20"`. That parameter gives `Token10 -> 10` and `Token20 -> 20`. Pieces that are blank or not integers are skipped. An unlisted token resolves to 0, which means "no override".

Files, one module each:

- `state.dfy`, module `RateLimitState`: the counter record (`State`), `NewState`, and the read-time predicate `IsBlocked`. It also holds the lemmas about the block window.
- `go_text.dfy`, module `GoText`: the pieces of Go's `strings` and `strconv` that the token parser uses.
  - `TrimSpace` uses the full `unicode.IsSpace` set.
  - `Split` on `","` comes with its inverse `Join`.
  - `Atoi` is bounded to 64-bit `int` and comes with its inverse `Itoa`.
- `tokens.dfy`, module `Tokens`: the token table.
  - `NewTokenLimitList` is a loop, proved against the functional `ParseTokenLimits`.
  - `GetLimit` and `LimitFor` look up a token.
- `store.dfy`, module `Store`: the store contract.
  - The sentinel `StateNotFound` is kept apart from every other failure.
  - `MapStore` is an in-memory store whose failures are injected through flags.
- `limiter.dfy`, module `Limiter`: the `RateLimiter` class.
  - Its methods are `LoadRequest`, `SaveRequest`, `Allow` and `Sweep`.
  - `Allow` is proved against the pure `AllowSpec`, and `Sweep` against `SweepSpec`.
  - The module also holds the lemmas about `AllowSpec` and `BudgetScenario`, a full block/release cycle.

Time is a plain integer:

- the clock (`RateLimiter.now`, which a caller may set) is in nanoseconds since the Unix epoch;
- the block duration is in nanoseconds;
- a record's `blockedAt` is in whole seconds, with 0 meaning "never blocked".

The block stamp is `now / 1_000_000_000`. Dafny's division rounds down, as Go's `Time.Unix` does, negative instants included.

Two consequences of whole-second stamps are stated as lemmas:

- A block is released up to one second before `now + blockDuration` (`Limiter.BlockWindow`).
- A block written within the epoch's first second never takes effect (`Limiter.EarlyBlockNeverHolds`).

## Model

| member | source | states |
|---|---|---|
| RateLimitState.NewStateIsOpen | internal/domain/ratelimit/state.go:11-13 | A new record has the identity as its key, count 0 and no block stamp, and is Open at every instant |
| RateLimitState.UnsetNeverBlocked | internal/domain/ratelimit/state.go:16-18 | A record whose stamp is 0 or negative is never blocked |
| RateLimitState.BlockedIffBeforeRelease | internal/domain/ratelimit/state.go:15-21 | A record with a positive stamp is blocked exactly while `now` is before stamp seconds + duration |
| RateLimitState.OpenAtReleaseInstant | internal/domain/ratelimit/state.go:19-20 | The comparison is strict: at the release instant the record is already Open |
| RateLimitState.OpenStaysOpen | internal/domain/ratelimit/state.go:19-20 | A record that is Open at t is Open at every later t' (no spontaneous re-block) |
| RateLimitState.FiveSecondWindow | internal/domain/ratelimit/state_test.go:24-35 | A record stamped at second s with a 5 s window is blocked at s+1 s and released at s+6 s |
| GoText.TrimLeft | internal/database/token.go:24 | The result is no longer than the input and does not start with a space |
| GoText.TrimRight | internal/database/token.go:24 | The result is no longer than the input, does not end with a space, and keeps the first character |
| GoText.TrimSpace | internal/database/token.go:19 | The result neither starts nor ends with a space |
| GoText.TrimLeftDropsSpace | internal/database/token.go:24 | Left trimming keeps a suffix of the input and drops only spaces |
| GoText.TrimRightDropsSpace | internal/database/token.go:24 | Right trimming keeps a prefix of the input and drops only spaces |
| GoText.TrimSpaceEmptyIffBlank | internal/database/token.go:19-21 | Trimming gives "" exactly when the input is all whitespace, the case in which the parser returns the empty table |
| GoText.TrimSpaceIdempotent | internal/database/token.go:24 | Trimming twice is the same as trimming once |
| GoText.TrimSpaceKeeps | internal/database/token.go:24 | Text with non-space ends is left unchanged |
| GoText.Split | internal/database/token.go:22 | Splitting on "," yields at least one piece, and no piece contains a comma |
| GoText.JoinSplit | internal/database/token.go:22 | Joining the pieces with "," gives the input back, so splitting loses no text |
| GoText.SplitCommaFree | internal/database/token.go:22 | Text without a comma is one piece |
| GoText.SplitAfterComma | internal/database/token.go:22 | A comma-free prefix followed by a comma becomes the first piece |
| GoText.SplitJoin | internal/database/token.go:22 | Splitting the join of comma-free pieces gives the pieces back |
| GoText.Atoi | internal/database/token.go:29-32 | An accepted integer lies within Go's 64-bit `int` range |
| GoText.AtoiUnsigned | internal/database/token.go:29 | A digit run within range is accepted with its decimal value, leading zeros included |
| GoText.FormatNatDigits | internal/database/token.go:29 | The decimal spelling of n is a non-empty digit run whose value is n |
| GoText.AtoiItoa | internal/database/token.go:29 | Atoi reads back every 64-bit `int` that Itoa writes |
| Tokens.TokenLimitList.GetLimit | internal/database/token.go:39-42 | An unlisted token gives 0; a listed one gives its entry's limit |
| Tokens.TokenLimitList.LimitFor | internal/database/token.go:44-46 | The provider entry point answers exactly as GetLimit |
| Tokens.NewTokenLimitList | internal/database/token.go:17-37 | The loop over the pieces builds exactly the table `ParseTokenLimits` describes: blank input gives the empty table, and otherwise each piece's trimmed, integer-valued text is inserted in order |
| Tokens.TableOfSnoc | internal/database/token.go:23-35 | One more piece adds or overwrites its own entry if valid, and otherwise leaves the table as it was |
| Tokens.KeyDeterminesText | internal/database/token.go:33 | Distinct trimmed texts give distinct keys |
| Tokens.TableEntryShape | internal/database/token.go:33-34 | Every entry's name equals its key, and the key is "Token" followed by text that Atoi reads as the entry's limit |
| Tokens.TableKeysFromPieces | internal/database/token.go:23-35 | Every key in the table comes from some valid piece |
| Tokens.TableHasEveryPiece | internal/database/token.go:23-35 | Every valid piece has its key in the table |
| Tokens.LastPieceWins | internal/database/token.go:34 | A later piece with the same key overwrites the entry |
| Tokens.LimitForListedPiece | internal/database/token.go:33-34 | Resolving a valid piece's key yields that piece's integer |
| Tokens.LimitForUnlisted | internal/database/token.go:39-42 | A token that no valid piece produced resolves to 0 |
| Tokens.BlankInputGivesEmptyTable | internal/database/token.go:19-21 | An empty or all-whitespace parameter gives the empty table |
| Tokens.TrimmedPiece | internal/database/token.go:24-34 | Text with non-space ends that Atoi accepts is a valid piece, keyed by "Token" + the text |
| Tokens.ParseNonBlank | internal/database/token.go:19-22 | A parameter with any non-space character is parsed piece by piece |
| Tokens.DecimalPiece | internal/database/token.go:24-34 | The decimal text of a non-negative int is a valid piece keyed by that text |
| Tokens.NumberPiece | internal/database/token_test.go:5-31 | "10", "20" and "30" are valid pieces with keys Token10, Token20 and Token30 |
| Tokens.InvalidPieces | internal/database/token_test.go:17-31 | "abc", "" and "  " are not valid pieces |
| Tokens.ExamplePieces | internal/database/token_test.go:5-31 | How each piece of the two example parameters is read |
| Tokens.ParsesValidValues | internal/database/token_test.go:5-15 | "10,20" gives exactly {Token10 -> 10, Token20 -> 20} |
| Tokens.InvalidValuesSplit | internal/database/token_test.go:18 | "10,abc,,  ,30" splits into the five pieces "10", "abc", "", "  ", "30" |
| Tokens.InvalidValuesTable | internal/database/token_test.go:17-31 | Those five pieces give exactly {Token10 -> 10, Token30 -> 30} |
| Tokens.IgnoresInvalidValues | internal/database/token_test.go:17-31 | "10,abc,,  ,30" gives exactly {Token10 -> 10, Token30 -> 30}, so Tokenabc resolves to 0 |
| Tokens.SinglePieceTable | internal/database/token.go:17-37 | A one-piece integer parameter gives a one-entry table keyed by its own text |
| Tokens.KeyKeepsLeadingZero | internal/database/token.go:33 | "05" is stored as Token05 with limit 5, and Token5 stays unlisted |
| Tokens.NegativeLimitIsListed | internal/database/token.go:29-34 | "-5" is stored as Token-5 with limit -5 (negative values are not rejected) |
| Store.MapStore.constructor | internal/ports/ratelimit.go:12-17 | A store starts with the given records and failure modes |
| Store.MapStore.Get | internal/ports/ratelimit.go:10-13 | Gives the stored record, the not-found sentinel for an absent key, or another error when reads fail |
| Store.MapStore.Save | internal/ports/ratelimit.go:14 | Stores the record under its own key, replacing the old one, or fails and changes nothing |
| Store.MapStore.ListKeys | internal/ports/ratelimit.go:15 | Lists exactly the stored keys, each once, or fails |
| Store.MapStore.Delete | internal/ports/ratelimit.go:16 | Removes the key (an absent key is no error), or fails for that key and changes nothing |
| Limiter.RateLimiter.constructor | internal/usecase/rate_limit_usecase.go:22-36 | Records the limit, the intervals, the token provider, the store and the clock |
| Limiter.RateLimiter.SaveRequest | internal/usecase/rate_limit_usecase.go:85-87 | Passes the record to the store's Save, with the same result and effect |
| Limiter.RateLimiter.LoadRequest | internal/usecase/rate_limit_usecase.go:69-83 | Gives the stored record. On not-found it saves and gives a fresh record; a failed read or a failed initial save is an error (`LoadSpec`) |
| Limiter.RateLimiter.Allow | internal/usecase/rate_limit_usecase.go:38-67 | The answer and the new store contents are exactly `AllowSpec` of the old contents, the store's failure modes, the effective limit, the clock and the block duration |
| Limiter.RateLimiter.Sweep | internal/usecase/rate_limit_usecase.go:102-111 | A failed listing changes nothing; otherwise every listed key is deleted except those whose delete fails, and the pass goes on past failures (`SweepSpec`) |
| Limiter.GetFailureDenies | internal/usecase/rate_limit_usecase.go:39-43 | A failed read denies and writes nothing |
| Limiter.CreateFailureDenies | internal/usecase/rate_limit_usecase.go:71-75 | For an unseen identity whose initial save fails: deny, nothing written |
| Limiter.FirstContact | internal/usecase/rate_limit_usecase.go:71-76 | First contact with a working store: a positive budget admits and leaves count 1; a budget of 0 or less blocks at once |
| Limiter.BlockedDeniesUnchanged | internal/usecase/rate_limit_usecase.go:45-47 | While the stored record is blocked, every request is denied and the store is untouched |
| Limiter.OverBudgetBlocks | internal/usecase/rate_limit_usecase.go:54-59 | With the budget used up: deny. The only write is {ip, 0, now in seconds}. The answer is deny even if that write fails |
| Limiter.UnderBudgetCounts | internal/usecase/rate_limit_usecase.go:61-66 | Under budget the only write is {ip, count+1, 0}, and the request is admitted exactly when that write succeeds |
| Limiter.AllowedIff | internal/usecase/rate_limit_usecase.go:38-67 | Admitted exactly when reads and writes work, the record is not blocked, and its count is below the limit |
| Limiter.AllowedIsCounted | internal/usecase/rate_limit_usecase.go:61-66 | An admitted request leaves the record with count one higher, no stamp, and count at most the limit |
| Limiter.OnlyIdentityWritten | internal/usecase/rate_limit_usecase.go:54-76 | Allow leaves every other identity's record as it was |
| Limiter.AllowKeepsKeyed | internal/database/rate_limit_repository.go:37-43 | If every record is stored under its own key before a call, the same holds after it |
| Limiter.BudgetKept | internal/usecase/rate_limit_usecase.go:54-64 | A count in [0, max(limit, 0)] before a call stays in that range after it |
| Limiter.BlockWindow | internal/usecase/rate_limit_usecase.go:55 | A block written at `now` holds exactly until the start of `now`'s second plus the duration. That is released no later than now + duration, and not before now + duration - (1 s - 1 ns) |
| Limiter.EarlyBlockNeverHolds | internal/usecase/rate_limit_usecase.go:55 | A block written within the epoch's first second (or before it) has a stamp of 0 or less and never blocks |
| Limiter.TokenOverridesDefault | internal/usecase/rate_limit_usecase.go:49-52 | A positive token limit replaces the default; an unlisted, zero or negative one keeps it |
| Limiter.NegativeTokenIgnored | internal/usecase/rate_limit_usecase.go:49-52 | Token-5 from "-5" is stored with limit -5 but leaves the default budget in force |
| Limiter.SweepLeavesFailedDeletes | internal/usecase/rate_limit_usecase.go:107-111 | A sweep keeps exactly the records whose delete failed; with no failing delete it empties the store |
| Limiter.BudgetScenario | internal/usecase/rate_limit_usecase_test.go:95-151 | With budget n >= 1 and an empty working store: requests 1..n are admitted, the first leaving count 1. Request n+1 is denied and leaves a non-zero stamp equal to the current second. A request after the block duration is admitted again |

## Left out

- The background cleanup loop (ticker, `select`, context cancellation, the goroutine) is left out. One pass of its body is `RateLimiter.Sweep`; how often it runs, and its stopping, are not modelled.
- Concurrency is left out. Concurrent `Allow` calls for one identity can interleave their read and write (a lost update). The model runs one call at a time.
- Logging of failures is left out. It has no effect on the answers or the store.
- The Redis client, the JSON encoding of records and the Redis-backed repository are left out. `Store.MapStore` stands for any backend honouring the store contract. A JSON decode failure is one more "other error" (`Unavailable`).
- The HTTP middleware, the handlers, the server wiring, environment configuration and the load-test script are left out.
- Store failures are modelled as flags that hold for a whole call. A backend whose behaviour changes between the read and the write of one call is not modelled.
- `Limiter.RateLimiter.Allow` reads the clock once per call. The Go code reads it twice (the blocked check and the block stamp), so two slightly different instants are collapsed into one.
- `Limiter.RateLimiter.Allow` uses unbounded integers for time. `time.Time`'s saturation near the limits of 64-bit seconds and nanoseconds is not modelled. `count + 1` cannot exceed Go's `int` range, because it is at most the limit, which is itself an `int`.
- The token provider seen by `Allow` is the `Tokens.TokenLimitList` table. The test double that wraps a plain `map[string]int` resolves tokens the same way (0 when absent), so it is not modelled separately.
- `GoText.TrimSpace` works on runes. How Go treats bytes that are not valid UTF-8 is not modelled.
- `Limiter.RateLimiter.constructor` does not start the background sweeper when the interval is positive. The interval is only recorded.
