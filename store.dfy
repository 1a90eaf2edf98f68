/** The Go side of the store (store.go): the window length in whole seconds, the
    two store keys derived from a caller's key, the decoding of the script's reply
    into an `Info`, and the fail-open answer given when the store call fails. */
module RateLimit {
  import opened FixedWindow
  import Redis

  const NanosPerSecond: int := 1_000_000_000
  const TwoTo64: int := 0x1_0000_0000_0000_0000

  /** Go's `uint` (64 bits wide). */
  type Uint = x: int | 0 <= x < TwoTo64

  /** The decision handed to the caller (times in Unix seconds). */
  datatype Info = Info(limit: Uint, remainingHits: Uint, resetTime: int, rateLimited: bool)

  /** What `Limit` does: return an `Info`, or panic on a store error when so configured. */
  datatype Outcome = Returned(info: Info) | Panicked

  /** How the call to the store went: failed before the script ran, ran the
      script but lost its reply, or brought the reply back. */
  datatype Link = Unreachable | ReplyLost | Answered

  /** The store keys of the two records kept for `key`. */
  function TsKey(key: string): (k: string)
    ensures |k| == |key| + 3 && k[..|key|] == key && k[|key|..] == ":ts"
  {
    key + ":ts"
  }

  function HitsKey(key: string): (k: string)
    ensures |k| == |key| + 5 && k[..|key|] == key && k[|key|..] == ":hits"
  {
    key + ":hits"
  }

  /** What the store holds for `key`. */
  function KeyStateOf(data: map<string, int>, key: string): KeyState
  {
    KeyState(Redis.Get(data, TsKey(key)), Redis.Get(data, HitsKey(key)))
  }

  /** The store after a step for `key`: both of its records rewritten, or nothing. */
  function Persist(data: map<string, int>, key: string, s: Step): map<string, int>
  {
    match s.write
    case None => data
    case Some(w) => data[TsKey(key) := w.ts][HitsKey(key) := w.hits]
  }

  /** `int64(rate / time.Second)`: a duration in nanoseconds to whole seconds,
      truncating toward zero as Go's integer division does. */
  function RateSeconds(rate: int): (sec: int)
    ensures 0 <= rate ==> 0 <= sec * NanosPerSecond <= rate < (sec + 1) * NanosPerSecond
    ensures rate < 0 ==> (sec - 1) * NanosPerSecond < rate <= sec * NanosPerSecond <= 0
  {
    if rate >= 0 then rate / NanosPerSecond else -((-rate) / NanosPerSecond)
  }

  /** Go's conversion `uint(x)` of a signed 64-bit value: the same bits read as
      unsigned, so a negative value wraps around. */
  function ToUint(x: int): (u: Uint)
    ensures 0 <= x < TwoTo64 ==> u == x
    ensures -TwoTo64 <= x < 0 ==> u == x + TwoTo64
  {
    x % TwoTo64
  }

  /** The reply triple decoded into an `Info`. */
  function Decode(limit: Uint, reply: Reply): (info: Info)
    ensures info.limit == limit && info.resetTime == reply.resetAt
    ensures info.rateLimited <==> reply.flag == 1
    ensures 0 <= reply.remaining < TwoTo64 ==> info.remainingHits == reply.remaining
  {
    Info(limit, ToUint(reply.remaining), reply.resetAt, reply.flag == 1)
  }

  /** The answer that lets a request through when the store call failed: what
      the first call for a fresh key would report, except that the hit is not
      counted, so the whole quota is left. */
  function FailOpen(limit: Uint, rateSec: int, now: int): (info: Info)
    ensures !info.rateLimited && info.remainingHits == limit
    ensures 1 <= limit && 1 <= rateSec ==>
      var first := Decode(limit, Call(Cold, rateSec, limit, now).eval.reply);
      && info.resetTime == first.resetTime
      && info.remainingHits == first.remainingHits + 1
  {
    Info(limit, limit, now + rateSec, false)
  }

  /** What `Limit` returns, given how the store call ended (`None` when the
      store was not reached at all). */
  function Respond(eval: Option<Eval>, limit: Uint, rateSec: int, panicOnErr: bool, now: int): (r: Outcome)
    ensures r.Panicked? <==> panicOnErr && !(eval.Some? && eval.value.Replied?)
    ensures r.Returned? && r.info.rateLimited ==> eval.Some? && eval.value.Replied? && eval.value.reply.flag == 1
    ensures !panicOnErr && !(eval.Some? && eval.value.Replied?) ==> r == Returned(FailOpen(limit, rateSec, now))
  {
    if eval.Some? && eval.value.Replied? then Returned(Decode(limit, eval.value.reply))
    else if panicOnErr then Panicked
    else Returned(FailOpen(limit, rateSec, now))
  }

  /** Fixing the window length at construction: a duration under one second is
      refused, so every window lasts at least one whole second. */
  function CheckedRateSeconds(rate: int): (r: Option<int>)
    ensures r.Some? <==> rate >= NanosPerSecond
    ensures r.Some? ==> r.value >= 1 && r.value == RateSeconds(rate)
  {
    if rate < NanosPerSecond then None else Some(RateSeconds(rate))
  }

  // ---------------------------------------------------------------------------
  // Keys

  /** The records of different keys never share a store key: a `:ts` key never
      equals a `:hits` key (their third-to-last characters differ), and each
      suffix is appended to distinct keys to give distinct store keys. */
  lemma StoreKeysDistinct(a: string, b: string)
    ensures TsKey(a) != HitsKey(b)
    ensures a != b ==> TsKey(a) != TsKey(b) && HitsKey(a) != HitsKey(b)
  {
    assert TsKey(a)[|TsKey(a)| - 3] == ':';
    assert HitsKey(b)[|HitsKey(b)| - 3] == 'i';
    assert TsKey(a)[..|a|] == a && TsKey(b)[..|b|] == b;
    assert HitsKey(a)[..|a|] == a && HitsKey(b)[..|b|] == b;
  }

  /** A step for `key` sets that key's state as the script says and leaves the
      state of every other key as it was. */
  lemma PerKeyIndependence(data: map<string, int>, key: string, s: Step, other: string)
    ensures KeyStateOf(Persist(data, key, s), key) == Apply(KeyStateOf(data, key), s)
    ensures other != key ==> KeyStateOf(Persist(data, key, s), other) == KeyStateOf(data, other)
  {
    StoreKeysDistinct(key, key);
    StoreKeysDistinct(key, other);
    StoreKeysDistinct(other, key);
  }

  // ---------------------------------------------------------------------------
  // Decisions

  /** With a window of at least one second and a key within its quota, the store
      always answers; the `Info` is limited iff the window in force is full, its
      remaining count is exactly the quota left after the call (no wrap-around in
      the `uint` conversion, 0 on a rejection), and it resets at that window's end. */
  lemma InfoWithinQuota(ks: KeyState, rateSec: int, limit: Uint, panicOnErr: bool, now: int)
    requires rateSec >= 1 && WithinQuota(ks, limit)
    ensures var s := Call(ks, rateSec, limit, now);
      var w := Rollover(Load(ks, now), rateSec, now);
      var out := Respond(Some(s.eval), limit, rateSec, panicOnErr, now);
      && out.Returned?
      && out.info.limit == limit
      && (out.info.rateLimited <==> w.hits >= limit)
      && out.info.remainingHits == limit - Load(Apply(ks, s), now).hits
      && (out.info.rateLimited ==> out.info.remainingHits == 0)
      && out.info.resetTime == w.ts + rateSec
  {
    QuotaPreserved(ks, rateSec, limit, now);
    RemainingIsQuotaLeft(ks, rateSec, limit, now);
    RejectedIffWindowFull(ks, rateSec, limit, now);
  }

  /** Outside the quota invariant (a key holding more hits than the current
      limit, as after the limit is lowered) the script reports a negative
      remaining count, which the `uint` conversion turns into a huge one. */
  lemma RemainingWrapsAboveQuota(t: int, h: int, rateSec: int, limit: Uint, now: int)
    requires limit < h < limit + TwoTo64 && now <= t + rateSec
    ensures var s := Call(KeyState(Some(t), Some(h)), rateSec, limit, now);
      var info := Decode(limit, s.eval.reply);
      s.Rejected() && info.rateLimited && info.remainingHits == TwoTo64 - (h - limit)
  {
  }

  /** A window shorter than one second is truncated to at most 0 seconds (0 above
      -1 s, a negative count from -1 s down); the script's `SET ... EX` then fails
      on every admitted call, so a fresh key is never counted and, failing open,
      no call is ever limited. */
  lemma {:induction false} SubSecondWindowNeverLimits(rate: int, limit: Uint, nows: seq<int>)
    requires rate < NanosPerSecond && limit >= 1
    ensures Run(Cold, RateSeconds(rate), limit, nows) == (Cold, 0)
    ensures forall now :: var s := Call(Cold, RateSeconds(rate), limit, now);
      s.eval == ScriptError && Respond(Some(s.eval), limit, RateSeconds(rate), false, now).info.rateLimited == false
    decreases |nows|
  {
    if nows != [] {
      SubSecondWindowNeverLimits(rate, limit, nows[1..]);
    }
  }

  /** With a window fixed by `CheckedRateSeconds` the script never fails, so the
      fail-open answer is only ever given when the store call fails (the store is
      unreachable or the reply is lost). */
  lemma CheckedWindowAlwaysReplies(rate: int, ks: KeyState, limit: int, now: int)
    requires CheckedRateSeconds(rate).Some?
    ensures Call(ks, CheckedRateSeconds(rate).value, limit, now).eval.Replied?
  {
  }

  /** The Go `redisStore`: a client of the shared server and its fixed settings. */
  class RedisStore {
    const rdb: Redis.Server
    const rateSec: int
    const limit: Uint
    const panicOnErr: bool

    /** `NewRedisStore`, with the window `rate` in nanoseconds. */
    constructor (rdb: Redis.Server, rate: int, limit: Uint, panicOnErr: bool)
      ensures this.rdb == rdb && rateSec == RateSeconds(rate)
      ensures this.limit == limit && this.panicOnErr == panicOnErr
    {
      this.rdb := rdb;
      this.rateSec := RateSeconds(rate);
      this.limit := limit;
      this.panicOnErr := panicOnErr;
    }

    /** One rate-limiting decision for `key` at time `now`. `link` says how the
        call to the store went: it failed before the script ran, the script ran
        but its reply was lost (a read timeout, a dropped connection), or the
        reply arrived. */
    method Limit(key: string, now: int, link: Link) returns (out: Outcome)
      modifies rdb
      ensures var before := KeyStateOf(old(rdb.data), key);
        var s := Call(before, rateSec, limit, now);
        var ran := link != Unreachable;
        && out == Respond(if link == Answered then Some(s.eval) else None, limit, rateSec, panicOnErr, now)
        && rdb.data == (if ran then Persist(old(rdb.data), key, s) else old(rdb.data))
        && rdb.ttl == (if ran && s.write.Some?
                       then old(rdb.ttl)[TsKey(key) := rateSec * 2][HitsKey(key) := rateSec * 2]
                       else old(rdb.ttl))
        && KeyStateOf(rdb.data, key) == (if ran then Apply(before, s) else before)
      ensures forall other :: other != key ==> KeyStateOf(rdb.data, other) == KeyStateOf(old(rdb.data), other)
    {
      ghost var before := KeyStateOf(rdb.data, key);
      ghost var s := Call(before, rateSec, limit, now);
      ghost var data0 := rdb.data;
      StoreKeysDistinct(key, key);

      var failed := true;
      var reply: Reply := Reply(0, 0, 0);
      if link != Unreachable {
        var e := rdb.EvalFixedWindow(TsKey(key), HitsKey(key), rateSec, limit, now);
        if link == Answered && e.Replied? {
          failed, reply := false, e.reply;
        }
      }
      assert rdb.data == (if link != Unreachable then Persist(data0, key, s) else data0);

      forall other | other != key
        ensures KeyStateOf(rdb.data, other) == KeyStateOf(data0, other)
      {
        PerKeyIndependence(data0, key, s, other);
      }
      PerKeyIndependence(data0, key, s, key);

      if failed {
        if panicOnErr {
          return Panicked;
        }
        return Returned(FailOpen(limit, rateSec, now));
      }
      return Returned(Decode(limit, reply));
    }
  }

  /** A 60-second window with a quota of 3 for `client-1`: three calls at t=0
      are admitted with 2, 1, 0 hits left. */
  method WindowScenario()
  {
    var rdb := new Redis.Server();
    var store := new RedisStore(rdb, 60 * NanosPerSecond, 3, false);
    var key := "client-1";
    assert store.rateSec == 60;

    var a := store.Limit(key, 0, Answered);
    assert KeyStateOf(rdb.data, key) == KeyState(Some(0), Some(1));
    assert a == Returned(Info(3, 2, 60, false));
    var b := store.Limit(key, 0, Answered);
    assert KeyStateOf(rdb.data, key) == KeyState(Some(0), Some(2));
    assert b == Returned(Info(3, 1, 60, false));
    var c := store.Limit(key, 0, Answered);
    assert KeyStateOf(rdb.data, key) == KeyState(Some(0), Some(3));
    assert c == Returned(Info(3, 0, 60, false));
  }

  /** The same settings for a key that has used its quota in the window starting
      at t=0: a call at t=10 is limited and still reports the end of that window
      (60), and writes nothing. */
  method LimitedScenario()
  {
    var rdb := new Redis.Server();
    var store := new RedisStore(rdb, 60 * NanosPerSecond, 3, false);
    var key := "client-1";
    assert store.rateSec == 60;
    var ok := rdb.Set(TsKey(key), 0, 120);
    ok := rdb.Set(HitsKey(key), 3, 120);
    StoreKeysDistinct(key, key);
    assert KeyStateOf(rdb.data, key) == KeyState(Some(0), Some(3));

    var d := store.Limit(key, 10, Answered);
    assert KeyStateOf(rdb.data, key) == KeyState(Some(0), Some(3));
    assert d == Returned(Info(3, 0, 60, true));
  }

  /** The same exhausted key at t=61, after its window has ended: the call opens
      a new window ending at 121 and is counted as its first hit. */
  method RolloverScenario()
  {
    var rdb := new Redis.Server();
    var store := new RedisStore(rdb, 60 * NanosPerSecond, 3, false);
    var key := "client-1";
    assert store.rateSec == 60;
    var ok := rdb.Set(TsKey(key), 0, 120);
    ok := rdb.Set(HitsKey(key), 3, 120);
    StoreKeysDistinct(key, key);
    assert KeyStateOf(rdb.data, key) == KeyState(Some(0), Some(3));

    var e := store.Limit(key, 61, Answered);
    assert KeyStateOf(rdb.data, key) == KeyState(Some(61), Some(1));
    assert e == Returned(Info(3, 2, 121, false));
  }

  /** The same settings with a failing store: an unreachable store fails open
      without counting the call; a lost reply fails open although the script
      has counted the hit. */
  method FailureScenario()
  {
    var rdb := new Redis.Server();
    var store := new RedisStore(rdb, 60 * NanosPerSecond, 3, false);
    var key := "client-1";
    assert store.rateSec == 60;

    var a := store.Limit(key, 0, Answered);
    assert KeyStateOf(rdb.data, key) == KeyState(Some(0), Some(1));
    assert a == Returned(Info(3, 2, 60, false));
    var b := store.Limit(key, 1, Unreachable);
    assert KeyStateOf(rdb.data, key) == KeyState(Some(0), Some(1));
    assert b == Returned(Info(3, 3, 61, false));
    var c := store.Limit(key, 2, ReplyLost);
    assert KeyStateOf(rdb.data, key) == KeyState(Some(0), Some(2));
    assert c == Returned(Info(3, 3, 62, false));
  }
}
