/** The fixed-window counting step that the store runs as one Lua script
    (store.go, the `lua` constant), stated on values: what the store holds for
    one key goes in; the script's reply and the window it writes back come out.
    Redis runs a script without interleaving any other command, so one call of
    the script is one indivisible step and a sequence of calls is a list. */
module FixedWindow {

  datatype Option<T> = None | Some(value: T)

  /** A counting window: its start `ts` (Unix seconds) and the hits counted in it. */
  datatype Window = Window(ts: int, hits: int)

  /** What the store holds for one key: the `:ts` record and the `:hits` record,
      each absent when it was never written or has expired. */
  datatype KeyState = KeyState(ts: Option<int>, hits: Option<int>)

  /** A key with no record at all. */
  const Cold := KeyState(None, None)

  /** The script's reply triple `{limited, limit - hits, ts + rate}`. */
  datatype Reply = Reply(flag: int, remaining: int, resetAt: int)

  /** How one evaluation ends: with a reply, or with the error Redis raises when
      the script asks for a `SET ... EX` whose expiry is not positive. */
  datatype Eval = Replied(reply: Reply) | ScriptError

  /** One run of the script: how it ended, and the window it wrote, if any. */
  datatype Step = Step(eval: Eval, write: Option<Window>) {
    predicate Admitted() { eval.Replied? && eval.reply.flag == 0 }
    predicate Rejected() { eval.Replied? && eval.reply.flag == 1 }
  }

  /** The two `GET`s, with their defaults: an absent start reads as `now`,
      absent hits as 0. */
  function Load(ks: KeyState, now: int): (w: Window)
    ensures ks == Cold ==> w == Window(now, 0)
    ensures ks.ts.Some? && ks.hits.Some? ==> w == Window(ks.ts.value, ks.hits.value)
  {
    Window(if ks.ts.Some? then ks.ts.value else now,
           if ks.hits.Some? then ks.hits.value else 0)
  }

  /** Lazy rollover: a window whose end `ts + rate` lies strictly before `now`
      is replaced by an empty one starting at `now`. */
  function Rollover(w: Window, rate: int, now: int): (r: Window)
    ensures r == w || (w.ts + rate < now && r == Window(now, 0))
    ensures rate >= 0 ==> r.ts >= w.ts
  {
    if w.ts + rate < now then Window(now, 0) else w
  }

  /** The script body after the reads: reject without writing when the window is
      full; otherwise count the hit and write both records with expiry `rate * 2`,
      which Redis refuses (an error, nothing written) unless it is positive. */
  function Script(stored: Window, rate: int, limit: int, now: int): (s: Step)
    ensures s.write.Some? <==> s.Admitted()
    ensures s.eval.ScriptError? ==> rate <= 0
    ensures s.eval.Replied? ==>
      (s.Admitted() || s.Rejected()) && s.eval.reply.resetAt == Rollover(stored, rate, now).ts + rate
  {
    var w := Rollover(stored, rate, now);
    if w.hits >= limit then
      Step(Replied(Reply(1, limit - w.hits, w.ts + rate)), None)
    else if rate * 2 <= 0 then
      Step(ScriptError, None)
    else
      Step(Replied(Reply(0, limit - (w.hits + 1), w.ts + rate)), Some(Window(w.ts, w.hits + 1)))
  }

  /** One whole evaluation of the script against a key's stored state. */
  function Call(ks: KeyState, rate: int, limit: int, now: int): (s: Step)
    ensures var w := Load(ks, now);
      var after := Apply(ks, s);
      after == ks || after == KeyState(Some(w.ts), Some(w.hits + 1)) || after == KeyState(Some(now), Some(1))
  {
    Script(Load(ks, now), rate, limit, now)
  }

  /** The key's state after a step: both records rewritten, or left as they were. */
  function Apply(ks: KeyState, s: Step): KeyState
  {
    match s.write
    case None => ks
    case Some(w) => KeyState(Some(w.ts), Some(w.hits))
  }

  /** The key's state after calls made one after another at the times `nows`,
      and how many of them were admitted. */
  function Run(ks: KeyState, rate: int, limit: int, nows: seq<int>): (KeyState, nat)
    decreases |nows|
  {
    if nows == [] then (ks, 0)
    else
      var s := Call(ks, rate, limit, nows[0]);
      var (final, n) := Run(Apply(ks, s), rate, limit, nows[1..]);
      (final, if s.Admitted() then n + 1 else n)
  }

  /** The quota invariant: stored hits, when present, lie within 0..limit. */
  predicate WithinQuota(ks: KeyState, limit: int)
  {
    ks.hits.Some? ==> 0 <= ks.hits.value <= limit
  }

  /** Every call at a time no later than `end` stays in the window ending at `end`. */
  predicate NoneAfter(nows: seq<int>, end: int)
  {
    forall i :: 0 <= i < |nows| ==> nows[i] <= end
  }

  function Min(a: int, b: int): int { if a <= b then a else b }

  // ---------------------------------------------------------------------------
  // One call

  /** A key with no state and a positive quota: the call is admitted with
      `limit - 1` hits left, the window starts at `now`, and one hit is stored. */
  lemma ColdStart(rate: int, limit: int, now: int)
    requires rate >= 1 && limit >= 1
    ensures var s := Call(Cold, rate, limit, now);
      && s.eval == Replied(Reply(0, limit - 1, now + rate))
      && Apply(Cold, s) == KeyState(Some(now), Some(1))
  {
  }

  /** The window rolls over exactly when its end lies strictly before `now`;
      at `now == ts + rate` the old window and its count still apply. */
  lemma RolloverOnlyAfterWindowEnd(w: Window, rate: int, now: int)
    ensures Rollover(w, rate, now) != w <==> w.ts + rate < now && w != Window(now, 0)
    ensures w.ts + rate < now ==> Rollover(w, rate, now) == Window(now, 0)
    ensures now == w.ts + rate ==> Rollover(w, rate, now) == w
  {
  }

  /** The stored window start never moves backward, whatever `rate` is: a new
      start `now` is written only with a positive `rate` and only when it is past
      `ts + rate`. */
  lemma WindowStartNeverMovesBackward(ks: KeyState, rate: int, limit: int, now: int)
    requires ks.ts.Some?
    ensures var after := Apply(ks, Call(ks, rate, limit, now));
      after.ts.Some? && after.ts.value >= ks.ts.value
  {
  }

  /** A call is rejected iff the hits of the window in force (after rollover)
      have reached the limit; a rejected call writes nothing and reports the
      window's end. */
  lemma RejectedIffWindowFull(ks: KeyState, rate: int, limit: int, now: int)
    ensures var s := Call(ks, rate, limit, now);
      var w := Rollover(Load(ks, now), rate, now);
      && (s.Rejected() <==> w.hits >= limit)
      && (s.Rejected() ==> Apply(ks, s) == ks && s.eval.reply.resetAt == w.ts + rate)
  {
  }

  /** An admitted call stores the window in force with its hits raised by exactly
      one; a call that is not admitted leaves the key's state as it was. */
  lemma AdmittedCountsOneHit(ks: KeyState, rate: int, limit: int, now: int)
    ensures var s := Call(ks, rate, limit, now);
      var w := Rollover(Load(ks, now), rate, now);
      && (s.Admitted() ==> Apply(ks, s) == KeyState(Some(w.ts), Some(w.hits + 1))
                           && s.eval.reply.resetAt == w.ts + rate)
      && (!s.Admitted() ==> Apply(ks, s) == ks)
  {
  }

  /** A call for a key whose window has elapsed is admitted (when the quota is
      positive) with `limit - 1` hits left and a window starting at `now`,
      however many hits the old window had. */
  lemma RolloverRestoresQuota(t: int, h: int, rate: int, limit: int, now: int)
    requires rate >= 1 && limit >= 1 && t + rate < now
    ensures var ks := KeyState(Some(t), Some(h));
      var s := Call(ks, rate, limit, now);
      && s.eval == Replied(Reply(0, limit - 1, now + rate))
      && Apply(ks, s) == KeyState(Some(now), Some(1))
  {
  }

  /** The quota invariant is kept by every call; the reported remaining count
      lies in 0..limit, and is 0 on a rejection. */
  lemma QuotaPreserved(ks: KeyState, rate: int, limit: int, now: int)
    requires 0 <= limit && WithinQuota(ks, limit)
    ensures var s := Call(ks, rate, limit, now);
      && WithinQuota(Apply(ks, s), limit)
      && (s.eval.Replied? ==> 0 <= s.eval.reply.remaining <= limit)
      && (s.Rejected() ==> s.eval.reply.remaining == 0)
  {
  }

  /** In both branches the reported remaining count is the limit minus the hits
      the key holds after the call. */
  lemma RemainingIsQuotaLeft(ks: KeyState, rate: int, limit: int, now: int)
    requires 0 <= limit && WithinQuota(ks, limit)
    ensures var s := Call(ks, rate, limit, now);
      s.eval.Replied? ==> s.eval.reply.remaining == limit - Load(Apply(ks, s), now).hits
  {
  }

  /** Within one window, an admitted call reports one hit fewer left than the call
      before it did, and a rejected call reports the same. */
  lemma RemainingCountsDown(ks: KeyState, rate: int, limit: int, now1: int, now2: int)
    requires 0 <= limit && WithinQuota(ks, limit)
    requires var s1 := Call(ks, rate, limit, now1);
      var mid := Apply(ks, s1);
      s1.eval.Replied? && mid.ts.Some? && now2 <= mid.ts.value + rate
    ensures var s1 := Call(ks, rate, limit, now1);
      var s2 := Call(Apply(ks, s1), rate, limit, now2);
      s2.eval.Replied? ==>
        s2.eval.reply.remaining == s1.eval.reply.remaining - (if s2.Admitted() then 1 else 0)
  {
    var s1 := Call(ks, rate, limit, now1);
    var mid := Apply(ks, s1);
    RemainingIsQuotaLeft(ks, rate, limit, now1);
    QuotaPreserved(ks, rate, limit, now1);
    RemainingIsQuotaLeft(mid, rate, limit, now2);
  }

  // ---------------------------------------------------------------------------
  // Sequences of calls

  /** Calls that all fall in the window starting at `t` are admitted at most
      `limit - h` times, where `h` is the count the window already holds; the
      window keeps its start and counts every admitted call. */
  lemma {:induction false} AtMostQuotaPerWindow(t: int, h: int, rate: int, limit: int, nows: seq<int>)
    requires 0 <= h <= limit && NoneAfter(nows, t + rate)
    ensures var (final, n) := Run(KeyState(Some(t), Some(h)), rate, limit, nows);
      n <= limit - h && final == KeyState(Some(t), Some(h + n))
    decreases |nows|
  {
    if nows != [] {
      var ks := KeyState(Some(t), Some(h));
      var s := Call(ks, rate, limit, nows[0]);
      assert NoneAfter(nows[1..], t + rate);
      if s.Admitted() {
        AtMostQuotaPerWindow(t, h + 1, rate, limit, nows[1..]);
      } else {
        AtMostQuotaPerWindow(t, h, rate, limit, nows[1..]);
      }
    }
  }

  /** With a window of at least one second the bound is met exactly: of the calls
      in the window, the first `limit - h` are admitted and the rest rejected. */
  lemma {:induction false} ExactlyQuotaPerWindow(t: int, h: int, rate: int, limit: int, nows: seq<int>)
    requires rate >= 1 && 0 <= h <= limit && NoneAfter(nows, t + rate)
    ensures Run(KeyState(Some(t), Some(h)), rate, limit, nows).1 == Min(|nows|, limit - h)
    decreases |nows|
  {
    if nows != [] {
      assert NoneAfter(nows[1..], t + rate);
      if h < limit {
        ExactlyQuotaPerWindow(t, h + 1, rate, limit, nows[1..]);
      } else {
        ExactlyQuotaPerWindow(t, h, rate, limit, nows[1..]);
      }
    }
  }

  /** A quota of 0 rejects every call, and the key's state never changes, also
      for a key still holding hits counted under an earlier, larger limit. */
  lemma {:induction false} ZeroLimitRejectsAll(ks: KeyState, rate: int, nows: seq<int>)
    requires ks.hits.Some? ==> ks.hits.value >= 0
    ensures Run(ks, rate, 0, nows) == (ks, 0)
    decreases |nows|
  {
    if nows != [] {
      ZeroLimitRejectsAll(ks, rate, nows[1..]);
    }
  }

  /** Calls for a fresh key that all fall in the window the first one opens are
      admitted exactly `limit` times; every further call is rejected. */
  lemma FreshKeyAdmitsExactlyQuota(rate: int, limit: int, nows: seq<int>)
    requires rate >= 1 && limit >= 0 && |nows| > 0 && NoneAfter(nows, nows[0] + rate)
    ensures Run(Cold, rate, limit, nows).1 == Min(|nows|, limit)
  {
    if limit == 0 {
      ZeroLimitRejectsAll(Cold, rate, nows);
    } else {
      ColdStart(rate, limit, nows[0]);
      assert NoneAfter(nows[1..], nows[0] + rate);
      ExactlyQuotaPerWindow(nows[0], 1, rate, limit, nows[1..]);
    }
  }

  /** The quota invariant holds after any sequence of calls that starts in it. */
  lemma {:induction false} RunKeepsQuota(ks: KeyState, rate: int, limit: int, nows: seq<int>)
    requires 0 <= limit && WithinQuota(ks, limit)
    ensures WithinQuota(Run(ks, rate, limit, nows).0, limit)
    decreases |nows|
  {
    if nows != [] {
      QuotaPreserved(ks, rate, limit, nows[0]);
      RunKeepsQuota(Apply(ks, Call(ks, rate, limit, nows[0])), rate, limit, nows[1..]);
    }
  }
}
