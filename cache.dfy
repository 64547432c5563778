/** The bounded in-memory cache with a time to live. Entries expire at the
    instant of their insert plus the time to live. When the cache is full, an
    insert first removes every expired entry and is skipped if that freed no
    room. The clock is a parameter of Get and Set. */
module Cache {
  import opened Domain

  datatype Entry<V> = Entry(value: V, expiration: Time)

  const DEFAULT_MAX := 1000

  /** now is after the instant t. */
  predicate After(now: Time, t: Time) { now > t }

  /** The entries that have not expired at now. */
  function Unexpired<V>(m: map<string, Entry<V>>, now: Time): (r: map<string, Entry<V>>)
    ensures r.Keys <= m.Keys
    ensures forall k :: k in r ==> r[k] == m[k] && !After(now, m[k].expiration)
    ensures forall k :: k in m && !After(now, m[k].expiration) ==> k in r
  {
    map k | k in m && !After(now, m[k].expiration) :: m[k]
  }

  /** What Set leaves in the cache. */
  function AfterSet<V>(m: map<string, Entry<V>>, max: int, ttl: Duration, key: string, value: V, now: Time)
    : map<string, Entry<V>>
  {
    var room := if |m| >= max then Unexpired(m, now) else m;
    if |room| >= max then room else room[key := Entry(value, now + ttl)]
  }

  lemma {:induction false} SubsetCard<T>(a: set<T>, b: set<T>)
    requires a <= b
    ensures |a| <= |b|
    ensures |a| == |b| ==> a == b
    decreases |b|
  {
    if b != {} {
      var x :| x in b;
      SubsetCard(a - {x}, b - {x});
      assert |b| == |b - {x}| + 1;
      if x in a {
        assert |a| == |a - {x}| + 1;
        if |a| == |b| {
          assert a == (a - {x}) + {x} == (b - {x}) + {x} == b;
        }
      } else {
        assert a - {x} == a;
      }
    }
  }

  /** The number of entries never exceeds the bound. */
  lemma AfterSetBounded<V>(m: map<string, Entry<V>>, max: int, ttl: Duration, key: string, value: V, now: Time)
    requires 0 < max && |m| <= max
    ensures |AfterSet(m, max, ttl, key, value, now)| <= max
  {
    var room := if |m| >= max then Unexpired(m, now) else m;
    SubsetCard(room.Keys, m.Keys);
    assert |room[key := Entry(value, now + ttl)]| <= |room| + 1;
  }

  /** A full cache in which nothing has expired is left exactly as it was,
      even when the key is already present. */
  lemma AfterSetFullUnchanged<V>(m: map<string, Entry<V>>, max: int, ttl: Duration, key: string, value: V, now: Time)
    requires |m| <= max
    requires |Unexpired(m, now)| >= max
    ensures AfterSet(m, max, ttl, key, value, now) == m
  {
    var e := Unexpired(m, now);
    SubsetCard(e.Keys, m.Keys);
    assert e.Keys == m.Keys;
  }

  /** When there is room the key is inserted or overwritten with the new
      value, expiring ttl after now; every other unexpired entry is kept;
      and an entry is dropped only if the cache was full and it had
      expired. */
  lemma AfterSetStores<V>(m: map<string, Entry<V>>, max: int, ttl: Duration, key: string, value: V, now: Time)
    requires |m| < max || |Unexpired(m, now)| < max
    ensures var r := AfterSet(m, max, ttl, key, value, now);
      && key in r && r[key] == Entry(value, now + ttl)
      && (forall k :: k in m && k != key && !After(now, m[k].expiration) ==> k in r && r[k] == m[k])
      && (forall k :: k in r && k != key ==> k in m && r[k] == m[k])
      && (forall k :: k in m && k !in r ==> |m| >= max && After(now, m[k].expiration))
  {
  }

  class MemoryCache<V> {
    var items: map<string, Entry<V>>
    const ttl: Duration
    const max: int

    ghost predicate Valid()
      reads this
    {
      0 < max && |items| <= max
    }

    /** NewMemoryCache: a bound of zero or less means the default bound. */
    constructor (ttl: Duration, max: int)
      ensures Valid() && items == map[] && this.ttl == ttl
      ensures this.max == if max <= 0 then DEFAULT_MAX else max
    {
      this.ttl := ttl;
      this.max := if max <= 0 then DEFAULT_MAX else max;
      items := map[];
    }

    /** A hit exactly when the key is present and now is not after its
        expiration; reading never changes the cache. */
    function Get(key: string, now: Time): (r: Option<V>)
      reads this
      ensures r.Some? <==> key in items && !After(now, items[key].expiration)
      ensures r.Some? ==> r.value == items[key].value
    {
      if key !in items then None
      else if After(now, items[key].expiration) then None
      else Some(items[key].value)
    }

    method Set(key: string, value: V, now: Time)
      requires Valid()
      modifies this`items
      ensures Valid()
      ensures items == AfterSet(old(items), max, ttl, key, value, now)
    {
      ghost var m0 := items;
      if |items| >= max {
        var pending := items.Keys;
        while pending != {}
          invariant pending <= m0.Keys
          invariant items == map k | k in m0 && (k in pending || !After(now, m0[k].expiration)) :: m0[k]
          decreases pending
        {
          var k :| k in pending;
          if After(now, items[k].expiration) {
            items := items - {k};
          }
          pending := pending - {k};
        }
        assert items == Unexpired(m0, now);
        if |items| >= max {
          AfterSetBounded(m0, max, ttl, key, value, now);
          return;
        }
      }
      items := items[key := Entry(value, now + ttl)];
      AfterSetBounded(m0, max, ttl, key, value, now);
    }
  }

  /** With a non-negative time to live, a value just stored is found at the
      same instant. */
  lemma SetThenGet<V>(m: map<string, Entry<V>>, max: int, ttl: Duration, key: string, value: V, now: Time)
    requires 0 <= ttl
    requires |m| < max || |Unexpired(m, now)| < max
    ensures var r := AfterSet(m, max, ttl, key, value, now);
      key in r && !After(now, r[key].expiration) && r[key].value == value
  {
    AfterSetStores(m, max, ttl, key, value, now);
  }
}
