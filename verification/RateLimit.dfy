/**
 The sliding-window rate limiter of backend/app/qr_api.py (`_rate_limit`).

 The source keeps one queue of admitted hits per key and drops old ones from its front. The
 specification keeps every admitted hit and counts the recent ones.
 */
module RateLimit {

  /** Claims and verification attempts are limited apart, per user. */
  datatype Key = Claim(user: string) | Verify(user: string)

  /** Hits admitted within the last `window` seconds, both ends included. */
  function CountRecent(admitted: seq<real>, now: real, window: real): nat {
    if admitted == [] then 0
    else
      var n := |admitted| - 1;
      if now - admitted[n] <= window then CountRecent(admitted[..n], now, window) + 1
      else CountRecent(admitted[..n], now, window)
  }

  ghost predicate Ordered(ts: seq<real>) {
    forall j, k :: 0 <= j <= k < |ts| ==> ts[j] <= ts[k]
  }

  /** Each admitted hit met the rule when it was admitted. */
  ghost predicate Ruled(admitted: seq<real>, limit: int, window: real) {
    Ordered(admitted) && forall j :: 0 <= j < |admitted| ==> CountRecent(admitted[..j], admitted[j], window) < limit
  }

  /** The queue is what is left of the admitted hits after dropping old ones from the front. */
  ghost predicate Remembers(hits: seq<real>, admitted: seq<real>, now: real, window: real) {
    && |hits| <= |admitted| && hits == admitted[|admitted| - |hits|..]
    && Ordered(admitted) && (forall k :: 0 <= k < |admitted| ==> admitted[k] <= now)
    && forall k :: 0 <= k < |admitted| - |hits| ==> now - admitted[k] > window
  }

  lemma {:induction false} CountDropped(admitted: seq<real>, m: nat, now: real, window: real)
    requires m <= |admitted| && forall k :: 0 <= k < m ==> now - admitted[k] > window
    requires forall k :: m <= k < |admitted| ==> now - admitted[k] <= window
    ensures CountRecent(admitted, now, window) == |admitted| - m
  {
    if admitted == [] {
    } else {
      var n := |admitted| - 1;
      CountDropped(admitted[..n], if m <= n then m else n, now, window);
    }
  }

  /** Once the old hits are gone from the front, what remains is exactly the recent ones. */
  lemma PrunedIsRecent(hits: seq<real>, admitted: seq<real>, now: real, window: real)
    requires Remembers(hits, admitted, now, window) && (hits != [] ==> now - hits[0] <= window)
    ensures |hits| == CountRecent(admitted, now, window)
  {
    var m := |admitted| - |hits|;
    forall k | m <= k < |admitted|
      ensures now - admitted[k] <= window
    {
      assert hits[0] == admitted[m];
    }
    CountDropped(admitted, m, now, window);
  }

  class RateLimiter {
    const limit: Key -> int
    const window: Key -> real
    var claimHits: map<Key, seq<real>>
    ghost var admitted: map<Key, seq<real>>
    ghost var clock: real

    function HitsOf(k: Key): seq<real>
      reads `claimHits
    {
      if k in claimHits then claimHits[k] else []
    }

    ghost function AdmittedOf(k: Key): seq<real>
      reads `admitted
    {
      if k in admitted then admitted[k] else []
    }

    ghost predicate Valid()
      reads this
    {
      forall k :: Remembers(HitsOf(k), AdmittedOf(k), clock, window(k)) && Ruled(AdmittedOf(k), limit(k), window(k))
    }

    constructor (limit: Key -> int, window: Key -> real, now: real)
      ensures Valid() && clock == now && this.limit == limit && this.window == window
      ensures forall k :: AdmittedOf(k) == []
    {
      this.limit, this.window := limit, window;
      claimHits, admitted, clock := map[], map[], now;
    }

    /** Admits exactly if fewer than `limit` of all hits ever admitted for the key lie in the
        last `window` seconds of the (monotonic) clock. */
    method Hit(k: Key, now: real) returns (ok: bool)
      requires Valid() && clock <= now
      modifies this
      ensures Valid() && clock == now
      ensures ok <==> CountRecent(old(AdmittedOf(k)), now, window(k)) < limit(k)
      ensures AdmittedOf(k) == if ok then old(AdmittedOf(k)) + [now] else old(AdmittedOf(k))
      ensures forall other :: other != k ==> AdmittedOf(other) == old(AdmittedOf(other))
    {
      hide CountRecent, Ruled, Remembers;
      var hits := HitsOf(k);
      ghost var all := AdmittedOf(k);
      forall other {
        LaterIsFine(HitsOf(other), AdmittedOf(other), clock, now, window(other));
      }
      while hits != [] && now - hits[0] > window(k)
        modifies {}
        invariant Remembers(hits, all, now, window(k))
      {
        DropFirst(hits, all, now, window(k));
        hits := hits[1..];
      }
      PrunedIsRecent(hits, all, now, window(k));
      ok := |hits| < limit(k);
      if ok {
        Admit(hits, all, now, limit(k), window(k));
        hits := hits + [now];
        admitted := admitted[k := all + [now]];
      }
      claimHits := claimHits[k := hits];
      clock := now;
    }
  }

  lemma LaterIsFine(hits: seq<real>, admitted: seq<real>, before: real, now: real, window: real)
    requires Remembers(hits, admitted, before, window) && before <= now
    ensures Remembers(hits, admitted, now, window)
  {
  }

  lemma DropFirst(hits: seq<real>, admitted: seq<real>, now: real, window: real)
    requires Remembers(hits, admitted, now, window) && hits != [] && now - hits[0] > window
    ensures Remembers(hits[1..], admitted, now, window)
  {
  }

  lemma Admit(hits: seq<real>, admitted: seq<real>, now: real, limit: int, window: real)
    requires Ruled(admitted, limit, window) && CountRecent(admitted, now, window) < limit
      && Remembers(hits, admitted, now, window)
    ensures Ruled(admitted + [now], limit, window) && Remembers(hits + [now], admitted + [now], now, window)
  {
    hide CountRecent;
    var all := admitted + [now];
    assert all[..|admitted|] == admitted;
    assert forall j :: 0 <= j < |admitted| ==> all[..j] == admitted[..j];
    assert hits + [now] == all[|all| - |hits + [now]|..];
  }

  lemma {:induction false} CountAtLeast(admitted: seq<real>, i: nat, now: real, window: real)
    requires i <= |admitted| && forall k :: i <= k < |admitted| ==> now - admitted[k] <= window
    ensures CountRecent(admitted, now, window) >= |admitted| - i
  {
    if i == |admitted| {
    } else {
      CountAtLeast(admitted[..|admitted| - 1], i, now, window);
    }
  }

  /** The rule counts the hits of the last `window`. */
  lemma {:induction false} RecentAreCounted(admitted: seq<real>, now: real, window: real)
    ensures CountRecent(admitted, now, window) == |RecentAt(admitted, now, window)|
  {
    if admitted == [] {
    } else {
      var n := |admitted| - 1;
      RecentAreCounted(admitted[..n], now, window);
      RecentAtLast(admitted, now, window);
      hide RecentAt;
    }
  }

  ghost function RecentAt(admitted: seq<real>, now: real, window: real): set<int> {
    set k | 0 <= k < |admitted| && now - admitted[k] <= window
  }

  lemma RecentAtLast(admitted: seq<real>, now: real, window: real)
    requires admitted != []
    ensures var n := |admitted| - 1;
      && n !in RecentAt(admitted[..n], now, window)
      && RecentAt(admitted, now, window)
         == RecentAt(admitted[..n], now, window) + if now - admitted[n] <= window then {n} else {}
  {
  }

  /** So a hit is admitted exactly if the hit `limit` before it, if any, is more than `window` ago. */
  lemma AdmitsIff(admitted: seq<real>, limit: nat, now: real, window: real)
    requires Ordered(admitted) && limit >= 1
    ensures CountRecent(admitted, now, window) < limit <==>
      |admitted| < limit || now - admitted[|admitted| - limit] > window
  {
    if |admitted| >= limit && now - admitted[|admitted| - limit] <= window {
      CountAtLeast(admitted, |admitted| - limit, now, window);
    } else {
      CountAtMost(admitted, if |admitted| < limit then 0 else |admitted| - limit + 1, now, window);
    }
  }

  lemma {:induction false} CountAtMost(admitted: seq<real>, m: nat, now: real, window: real)
    requires m <= |admitted| && forall k :: 0 <= k < m ==> now - admitted[k] > window
    ensures CountRecent(admitted, now, window) <= |admitted| - m
  {
    if admitted == [] {
    } else {
      var n := |admitted| - 1;
      CountAtMost(admitted[..n], if m <= n then m else n, now, window);
    }
  }

  /** Admitted hits `limit` apart in the sequence are more than `window` apart in time. */
  lemma AdmittedAreSpread(admitted: seq<real>, limit: int, window: real, i: nat)
    requires Ruled(admitted, limit, window) && limit >= 0 && i + limit < |admitted|
    ensures admitted[i + limit] - admitted[i] > window
  {
    hide CountRecent;
    var j := i + limit;
    if admitted[j] - admitted[i] <= window {
      CountAtLeast(admitted[..j], i, admitted[j], window);
      assert false;
    }
  }

  /** No stretch of `window` seconds, wherever it starts, holds more than `limit` admitted hits. */
  lemma BurstIsLimited(admitted: seq<real>, limit: int, window: real, i: nat, j: nat)
    requires Ruled(admitted, limit, window) && i <= j < |admitted| && admitted[j] - admitted[i] <= window
    ensures j - i + 1 <= limit
  {
    hide CountRecent;
    assert CountRecent(admitted[..j], admitted[j], window) < limit;
    assert limit >= 0;
    if j - i >= limit {
      AdmittedAreSpread(admitted, limit, window, i);
      assert false;
    }
  }
}
