# Fixed-window rate limiter on a shared Redis store

This project models the core of a Go rate limiter for the Gin web framework. Each caller
key, such as a client IP, gets a quota of `limit` hits per fixed window of `rate`
seconds. The counter state lives in Redis, and one Lua script runs the whole check
and increment, so concurrent requests cannot break the quota.

- `fixed_window.dfy` (module `FixedWindow`) states the script on values. Its input is one
  key's state: the `key:ts` record (window start) and the `key:hits` record, each possibly
  absent. It covers the default reads, the lazy rollover, the reject-or-count decision and
  the reply triple `{limited, limit - hits, ts + rate}`. `Run` folds the script over a
  sequence of calls. Redis runs a script without interleaving other commands, so
  concurrent callers are a sequence of calls.
- `redis.dfy` (module `Redis`) holds the class `Server`. It owns the keyed store
  `data: map<string, int>` and the expiry last written to each record. `Set` models
  `SET ... EX`, which fails with an error when the expiry is not positive.
  `EvalFixedWindow` is the Lua script written step by step, and it is proved equal to
  `FixedWindow.Call`.
- `store.dfy` (module `RateLimit`) models the Go side. It covers the window length in
  whole seconds (`RateSeconds`), the store keys `key:ts` and `key:hits`, and the decoding
  of the reply into an `Info`, including the `uint` conversion. It also covers the
  fail-open answer on a store error and the class `RedisStore`, whose `Limit` method
  calls the server.

Two points about the code as written:

- `NewRedisStore` does not check the window. The window is truncated toward zero to
  whole seconds: anything strictly between -1 s and 1 s becomes 0 seconds, and a window
  of -1 s or less becomes a negative count of seconds (see Findings).
- The remaining count is not clamped at zero: the code sends `limit - hits` through
  `uint(...)`. `InfoWithinQuota` proves this is exactly 0 on a rejection whenever the
  stored hits are within the quota.
  `RemainingWrapsAboveQuota` shows that the count wraps to a huge value when a key holds
  more hits than the current limit, for example after the limit has been lowered.

## Model

| member | source | states |
|---|---|---|
| `FixedWindow.Load` | store.go:46-47 | The window read from the store: `(now, 0)` for a key with no records, and the stored `(ts, hits)` when both records exist. Properties in `ColdStart` and `WindowStartNeverMovesBackward` |
| `FixedWindow.Rollover` | store.go:49-52 | The window is either kept or, only when `ts + rate < now`, replaced by `(now, 0)`; with a non-negative rate the start never moves back. Exact boundary in `RolloverOnlyAfterWindowEnd` |
| `FixedWindow.Script` | store.go:49-61 | The script writes exactly when it admits. It fails only when `rate <= 0`, and every reply is an admission or a rejection reporting the end `ts + rate` of the window in force. Properties in `RejectedIffWindowFull`, `AdmittedCountsOneHit` and `QuotaPreserved` |
| `FixedWindow.Call` | store.go:46-61 | One run of the script on a key's two records. The key's state afterwards (`Apply` of the step: the two `SET`s at store.go:58-59 store the written window, any other step changes nothing) is unchanged, the loaded window with one more hit, or a new window `(now, 1)`. Properties in the lemmas below and in `Redis.Server.EvalFixedWindow` |
| `FixedWindow.ColdStart` | store.go:46-60 | A key with no records and a positive quota is admitted with `limit - 1` left and reset at `now + rate`, and it then stores `ts = now, hits = 1` |
| `FixedWindow.RolloverOnlyAfterWindowEnd` | store.go:49-52 | The window is replaced only when `ts + rate < now`, strictly, and then by `(now, 0)`; at `now == ts + rate` the old window and count still apply |
| `FixedWindow.WindowStartNeverMovesBackward` | store.go:49-59 | The stored window start never decreases, for any `rate`: a new start is written only with a positive expiry and only past `ts + rate` |
| `FixedWindow.RejectedIffWindowFull` | store.go:54-55 | A call is rejected iff the hits of the window in force after rollover are at least `limit`; a rejection writes nothing and reports that window's end |
| `FixedWindow.AdmittedCountsOneHit` | store.go:56-60 | An admitted call stores the window in force with its hits raised by exactly one; every other outcome leaves the key's state unchanged |
| `FixedWindow.RolloverRestoresQuota` | store.go:49-60 | After the window has elapsed, an exhausted key is admitted again with `limit - 1` left in a window starting at `now` |
| `FixedWindow.QuotaPreserved` | store.go:54-60 | If the stored hits are within `0..limit` before a call, they stay there; the reported remaining count is in `0..limit` and is 0 on a rejection |
| `FixedWindow.RemainingIsQuotaLeft` | store.go:55-60 | In both branches the reported remaining count equals `limit` minus the hits the key holds after the call |
| `FixedWindow.RemainingCountsDown` | store.go:54-60 | Within one window each admitted call reports exactly one fewer hit left than the call before it, and a rejected call reports the same |
| `FixedWindow.AtMostQuotaPerWindow` | store.go:49-60 | Calls that all fall in one window holding `h` hits are admitted at most `limit - h` times; the window keeps its start and counts each admission |
| `FixedWindow.ExactlyQuotaPerWindow` | store.go:54-60 | With a window of at least one second, exactly `min(calls, limit - h)` of those calls are admitted |
| `FixedWindow.ZeroLimitRejectsAll` | store.go:54-55 | With `limit = 0` every call is rejected and the key's state never changes |
| `FixedWindow.FreshKeyAdmitsExactlyQuota` | store.go:46-60 | K calls for a fresh key, all within the window the first one opens, admit exactly `min(K, limit)` and reject the rest |
| `FixedWindow.RunKeepsQuota` | store.go:54-60 | The quota invariant holds after any sequence of calls that starts in it |
| `Redis.Server.Set` | store.go:58-59 | `SET key value EX ex` writes the value and records the expiry iff `ex > 0`; otherwise it is an error and nothing changes |
| `Redis.Server.EvalFixedWindow` | store.go:39-62 | The script run against the store returns `FixedWindow.Call`'s outcome for the two records read with `Redis.Get` (`GET`: the record if present, else nothing). It writes both records with expiry `rate * 2` exactly when the script counts a hit, and otherwise changes nothing |
| `RateLimit.TsKey` | store.go:67 | The window-start record of `key` is `key` followed by `:ts`. Disjointness in `StoreKeysDistinct` |
| `RateLimit.HitsKey` | store.go:67 | The hits record of `key` is `key` followed by `:hits`. Disjointness in `StoreKeysDistinct` |
| `RateLimit.Decode` | store.go:82-88 | The `Info` built from a reply carries the configured limit and the reply's reset time. It is limited iff the reply's flag is 1, and its remaining hits equal the reply's count whenever that count fits in `uint`. Properties in `InfoWithinQuota` and `RemainingWrapsAboveQuota` |
| `RateLimit.FailOpen` | store.go:74-79 | The fail-open `Info` is never limited and reports the full limit. With a window of at least one second and a positive limit, it reports what a fresh key's first call would report, except that the hit is not counted |
| `RateLimit.Respond` | store.go:69-88 | The call panics iff `panicOnErr` is set and no reply triple came back (a script error, a lost reply or an unreachable store). A limited `Info` is only ever reported from a reply with flag 1. Without a reply triple and without `panicOnErr`, the answer is the fail-open `Info` |
| `RateLimit.RateSeconds` | store.go:33 | The window in whole seconds is the nanosecond duration divided by 10^9, truncated toward zero for both signs |
| `RateLimit.ToUint` | store.go:85 | `uint(x)` keeps a value in `0..2^64` and wraps a negative one to `x + 2^64` |
| `RateLimit.StoreKeysDistinct` | store.go:67 | `a:ts` never equals `b:hits`, and distinct keys give distinct `:ts` and distinct `:hits` store keys |
| `RateLimit.PerKeyIndependence` | store.go:66-67 | A step for one key sets that key's state as the script says and leaves every other key's state unchanged |
| `RateLimit.InfoWithinQuota` | store.go:82-88 | With a window of at least one second and a key within quota, `Info` is limited iff the window in force is full. Its remaining hits are exactly the quota left, with no wrap and 0 on rejection. Its reset time is that window's end and its limit is the configured one |
| `RateLimit.RemainingWrapsAboveQuota` | store.go:85 | A key holding `h > limit` hits is rejected and reports `2^64 - (h - limit)` remaining hits |
| `RateLimit.SubSecondWindowNeverLimits` | store.go:30-79 | A window under one second becomes at most 0 seconds (0 above -1 s, a negative count of seconds from -1 s down). Every admitted call then fails in `SET ... EX` with an expiry that is not positive, so a fresh key stays empty and, failing open, is never limited |
| `RateLimit.CheckedRateSeconds` | store.go:30-36 | The corrected construction refuses a window under one second and otherwise yields the truncated seconds, which are at least 1 |
| `RateLimit.CheckedWindowAlwaysReplies` | store.go:30-36 | With a window from `CheckedRateSeconds` the script never fails, so fail-open then happens only when the store call fails (`Unreachable` or `ReplyLost`) |
| `RateLimit.RedisStore.constructor` | store.go:30-37 | `NewRedisStore` keeps the client, the limit and the panic switch, and stores the window as `RateSeconds(rate)` |
| `RateLimit.RedisStore.Limit` | store.go:64-89 | One decision runs the script on `key:ts`/`key:hits`. If the store is unreachable, nothing changes. If the script ran, the records become `Persist` of the script's step (`key:ts` and `key:hits` written on an admission, nothing otherwise), and both get expiry `rateSec * 2` exactly when the step writes. A reply triple is decoded. A script error, a lost reply or an unreachable store gives `Panicked` if `panicOnErr`, else `Info{limit, limit, now + rate, false}`. No other key's state changes |

## Left out

- The Redis client, the network and `context.Context` cancellation are not modelled. How the `Eval` call went is the parameter `link`. `Unreachable` means it failed before the script ran. `ReplyLost` means the script ran but its reply did not come back. `Answered` means the reply arrived. The go-redis client can resend a command after a read timeout or a dropped connection (its `MaxRetries` option), so one `Limit` call may run the script more than once and count more than one hit; `link` allows at most one run per call, and the client library is not part of this model. A panic is the outcome `Panicked`, not an unwinding.
- `time.Now()` is not modelled: `now` is a parameter in whole Unix seconds. The fail-open reset time reads the clock a second time with nanosecond precision. The model uses the same `now` at whole seconds.
- Expiry of records is not modelled: only the expiry value written with each record is kept. `Run` and `Limit` never let a record expire between calls. A key whose records have expired is a `KeyState` with absent records. `ColdStart` and `FreshKeyAdmitsExactlyQuota` cover a key with both records absent. `Call`, `Load`, `RejectedIffWindowFull`, `AdmittedCountsOneHit`, `QuotaPreserved`, `RemainingIsQuotaLeft`, `RemainingCountsDown`, `ZeroLimitRejectsAll`, `RunKeepsQuota`, `InfoWithinQuota` and `PerKeyIndependence` take any `KeyState`, including one where a record is present without the other.
- `ts + rate`, `limit - hits` and `rate * 2` are computed in Lua as doubles, and Redis turns the returned numbers into integer replies. The model treats every number as an exact integer, which holds below 2^53. Go only reads the reply values as `int64` (store.go:85-86); values outside `int64` are not modelled.
- The type assertions on the reply at store.go:82-87 are not modelled: the reply is decoded directly from the script's triple. A malformed reply would panic in Go.
- Records that hold something other than a number, which would make `tonumber` fail, are not modelled: the store holds integers only.
- Go's `uint` is taken to be 64 bits wide.
- middleware.go is not part of this model. It is HTTP glue that derives the key from the client IP, writes headers and aborts iff `RateLimited`.
- Processes running at the same time are not modelled. Redis runs each script as one indivisible step, which is one method call or one element of `Run`.

## Findings

| source | as written | input that shows it | evidently intended | confidence | as-written member | corrected member |
|---|---|---|---|---|---|---|
| store.go:33 | `int64(rate / time.Second)` truncates a window from 0 up to one second to 0 (and any window under one second to at most 0). The script's `SET ... EX 0` (store.go:58) is then refused by Redis, so every call that would be counted fails and gets the fail-open `Info` | `rate = 500ms`, `limit = 10`, `panicOnErr = false`: every call returns `RateLimited = false` and nothing is ever stored | a window under one second is refused when the store is built | medium, not executed | `RateLimit.SubSecondWindowNeverLimits` | `RateLimit.CheckedRateSeconds` |

The counting lemmas that rely on the store always answering assume a window of at least one second. These are `ColdStart`, `RolloverRestoresQuota`, `ExactlyQuotaPerWindow`, `FreshKeyAdmitsExactlyQuota` and `InfoWithinQuota`. `CheckedRateSeconds` guarantees that window length.
