/** The per-client sliding-window rate limiter. For each request the
    client's timestamps that are not strictly after now - window are
    dropped; the request is refused when the remaining count has reached the
    limit, and otherwise admitted and its instant recorded. The client key
    and the clock are parameters of Allow. */
module RateLimit {
  import opened Domain

  /** The timestamps strictly after start, in their order. */
  function Recent(s: seq<Time>, start: Time): (r: seq<Time>)
    ensures |r| <= |s|
    ensures forall k :: 0 <= k < |r| ==> r[k] > start && r[k] in s
    ensures forall t :: t in s && t > start ==> t in r
  {
    if s == [] then []
    else
      var rest := Recent(s[..|s| - 1], start);
      var last := s[|s| - 1];
      assert forall t :: t in s ==> t in s[..|s| - 1] || t == last;
      if last > start then rest + [last] else rest
  }

  /** What one request does to the table: the admission decision and the
      new table. */
  function Decide(m: map<string, seq<Time>>, client: string, now: Time, limit: int, window: Duration)
    : (r: (bool, map<string, seq<Time>>))
    ensures r.1.Keys == m.Keys + {client} || (!r.0 && r.1.Keys == m.Keys)
    ensures forall c :: c in m && c != client ==> c in r.1 && r.1[c] == m[c]
  {
    var cleaned := if client in m then m[client := Recent(m[client], now - window)] else m;
    var count := if client in cleaned then |cleaned[client]| else 0;
    if count >= limit then (false, cleaned)
    else (true, cleaned[client := (if client in cleaned then cleaned[client] else []) + [now]])
  }

  predicate Sorted(s: seq<Time>) {
    forall i, j :: 0 <= i < j < |s| ==> s[i] <= s[j]
  }

  /** No timestamp of s is after t. */
  predicate NoneAfter(s: seq<Time>, t: Time) {
    forall k :: 0 <= k < |s| ==> s[k] <= t
  }

  lemma SortedAppend(s: seq<Time>, t: Time)
    requires Sorted(s) && NoneAfter(s, t)
    ensures Sorted(s + [t]) && NoneAfter(s + [t], t)
  {
  }

  /** A refused request records nothing: the client keeps exactly its
      recent timestamps. An admitted one appends now to them. */
  lemma DecideRecords(m: map<string, seq<Time>>, client: string, now: Time, limit: int, window: Duration)
    ensures var (allowed, m') := Decide(m, client, now, limit, window);
      var recent := if client in m then Recent(m[client], now - window) else [];
      && (allowed <==> |recent| < limit)
      && (allowed ==> client in m' && m'[client] == recent + [now])
      && (!allowed && client in m ==> client in m' && m'[client] == recent)
      && (!allowed && client !in m ==> m' == m)
  {
  }

  /** With a positive limit, no client ever holds more than limit
      timestamps. */
  lemma DecideBounded(m: map<string, seq<Time>>, client: string, now: Time, limit: int, window: Duration)
    requires 0 < limit
    requires forall c :: c in m ==> |m[c]| <= limit
    ensures var m' := Decide(m, client, now, limit, window).1;
      forall c :: c in m' ==> |m'[c]| <= limit
  {
  }

  /** The timestamps that survive a window keep their order. */
  lemma {:induction false} RecentSorted(s: seq<Time>, start: Time)
    requires Sorted(s)
    ensures Sorted(Recent(s, start))
  {
    if s != [] {
      var pre, last := s[..|s| - 1], s[|s| - 1];
      assert Sorted(pre);
      RecentSorted(pre, start);
      var rest := Recent(pre, start);
      if last > start {
        forall k | 0 <= k < |rest| ensures rest[k] <= last {
          var i :| 0 <= i < |pre| && pre[i] == rest[k];
          assert s[i] <= s[|s| - 1];
        }
        SortedAppend(rest, last);
      }
    }
  }

  /** When the clock does not run backwards, every client's timestamps stay
      in ascending order. */
  lemma DecideSorted(m: map<string, seq<Time>>, client: string, now: Time, limit: int, window: Duration)
    requires forall c :: c in m ==> Sorted(m[c]) && NoneAfter(m[c], now)
    ensures var m' := Decide(m, client, now, limit, window).1;
      forall c :: c in m' ==> Sorted(m'[c]) && NoneAfter(m'[c], now)
  {
    var r: seq<Time> := [];
    if client in m {
      var s := m[client];
      RecentSorted(s, now - window);
      r := Recent(s, now - window);
      forall k | 0 <= k < |r| ensures r[k] <= now {
        var i :| 0 <= i < |s| && s[i] == r[k];
      }
    }
    SortedAppend(r, now);
    var m' := Decide(m, client, now, limit, window).1;
    assert client in m' ==> m'[client] == r || m'[client] == r + [now];
    forall c | c in m' ensures Sorted(m'[c]) && NoneAfter(m'[c], now) {
      if c != client {
        assert m'[c] == m[c];
      }
    }
  }

  class RateLimiter {
    var requests: map<string, seq<Time>>
    const limit: int
    const window: Duration

    /** NewRateLimitMiddleware. */
    constructor (limit: int, window: Duration)
      ensures requests == map[] && this.limit == limit && this.window == window
    {
      requests := map[];
      this.limit := limit;
      this.window := window;
    }

    /** The decision RateLimit makes for one request of the client at now. */
    method Allow(client: string, now: Time) returns (allowed: bool)
      modifies this`requests
      ensures (allowed, requests) == Decide(old(requests), client, now, limit, window)
    {
      var windowStart := now - window;
      if client in requests {
        var times := requests[client];
        var valid: seq<Time> := [];
        var i := 0;
        while i < |times|
          invariant 0 <= i <= |times|
          invariant valid == Recent(times[..i], windowStart)
        {
          assert times[..i + 1][..i] == times[..i];
          if times[i] > windowStart {
            valid := valid + [times[i]];
          }
          i := i + 1;
        }
        assert times[..i] == times;
        requests := requests[client := valid];
      }
      var count := if client in requests then |requests[client]| else 0;
      if count >= limit {
        return false;
      }
      requests := requests[client := (if client in requests then requests[client] else []) + [now]];
      allowed := true;
    }
  }
}
