/** The Redis server as far as the fixed-window script sees it: a keyed store of
    integers with the expiry last set on each record, the `SET ... EX` command,
    and the script itself run as one method (store.go, the `lua` constant). */
module Redis {
  import opened FixedWindow

  /** `GET`: the record under `k`, if any. */
  function Get(m: map<string, int>, k: string): Option<int>
  {
    if k in m then Some(m[k]) else None
  }

  class Server {
    /** The records, by store key. */
    var data: map<string, int>
    /** The expiry (seconds) given by the last `SET ... EX` of each record. */
    var ttl: map<string, int>

    constructor ()
      ensures data == map[] && ttl == map[]
    {
      data := map[];
      ttl := map[];
    }

    /** `SET key value EX ex`: Redis refuses an expiry that is not positive with
        an error and writes nothing. */
    method Set(key: string, value: int, ex: int) returns (ok: bool)
      modifies this
      ensures ok <==> ex > 0
      ensures ok ==> data == old(data)[key := value] && ttl == old(ttl)[key := ex]
      ensures !ok ==> data == old(data) && ttl == old(ttl)
    {
      if ex <= 0 {
        return false;
      }
      data := data[key := value];
      ttl := ttl[key := ex];
      return true;
    }

    /** One evaluation of the fixed-window script with `KEYS = [tsKey, hitsKey]`
        and `ARGV = [rate, limit, now]`. A failing `SET` raises an error that ends
        the script; the first `SET` fails whenever the second would. */
    method EvalFixedWindow(tsKey: string, hitsKey: string, rate: int, limit: int, now: int)
      returns (e: Eval)
      modifies this
      ensures var s := Call(KeyState(Get(old(data), tsKey), Get(old(data), hitsKey)), rate, limit, now);
        && e == s.eval
        && (s.write.None? ==> data == old(data) && ttl == old(ttl))
        && (s.write.Some? ==>
              && data == old(data)[tsKey := s.write.value.ts][hitsKey := s.write.value.hits]
              && ttl == old(ttl)[tsKey := rate * 2][hitsKey := rate * 2])
    {
      var ts := if tsKey in data then data[tsKey] else now;
      var hits := if hitsKey in data then data[hitsKey] else 0;

      if ts + rate < now {
        ts := now;
        hits := 0;
      }

      if hits >= limit {
        return Replied(Reply(1, limit - hits, ts + rate));
      }
      hits := hits + 1;
      var ok := Set(tsKey, ts, rate * 2);
      if !ok {
        return ScriptError;
      }
      ok := Set(hitsKey, hits, rate * 2);
      return Replied(Reply(0, limit - hits, ts + rate));
    }
  }
}
