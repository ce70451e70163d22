/**
 * The two-tier cache of the Windows automation service. Entries live in a short-term table for one
 * minute; an expired short-term entry that is read is moved to a long-term table where it lives for ten
 * minutes. Both tables are bounded. The clock is the explicit parameter `now`, in ticks of 100 ns.
 */
module ExpiringCache {
  import opened Wrappers

  const ShortTermMaxSize := 100000
  const LongTermMaxSize := 1000
  const TicksPerMinute := 600_000_000
  const ShortTermExpiry := TicksPerMinute
  const LongTermExpiry := 10 * TicksPerMinute

  /** A cached value with the time it was stored. */
  datatype Entry<T> = Entry(value: T, timestamp: int)

  /** The entries of `m` whose age at `now` is at most `expiry`. */
  function Fresh<T>(m: map<string, Entry<T>>, now: int, expiry: int): map<string, Entry<T>>
  {
    map k | k in m && now - m[k].timestamp <= expiry :: m[k]
  }

  /** Dropping expired entries never grows a table. */
  lemma FreshSmaller<T>(m: map<string, Entry<T>>, now: int, expiry: int)
    ensures |Fresh(m, now, expiry)| <= |m|
  {
    var f := Fresh(m, now, expiry);
    SubsetSmaller(f.Keys, m.Keys);
  }

  lemma {:induction false} SubsetSmaller<K>(a: set<K>, b: set<K>)
    requires a <= b
    ensures |a| <= |b|
    decreases a
  {
    if a != {} {
      var x :| x in a;
      SubsetSmaller(a - {x}, b - {x});
    }
  }

  function Min(a: int, b: int): int
  {
    if a <= b then a else b
  }

  /** A key of `m` with the earliest timestamp. */
  method Oldest<T>(m: map<string, Entry<T>>) returns (oldest: string)
    requires |m| > 0
    ensures oldest in m
    ensures forall k :: k in m ==> m[oldest].timestamp <= m[k].timestamp
  {
    var rest := m.Keys;
    assert |rest| == |m|;
    oldest :| oldest in rest;
    rest := rest - {oldest};
    while rest != {}
      invariant rest <= m.Keys && oldest in m
      invariant forall k :: k in m && k !in rest ==> m[oldest].timestamp <= m[k].timestamp
      decreases |rest|
    {
      var k :| k in rest;
      if m[k].timestamp < m[oldest].timestamp {
        oldest := k;
      }
      rest := rest - {k};
    }
  }

  /** Removes every entry older than `expiry` at `now`, one expired key after another. */
  method RemoveExpired<T>(m: map<string, Entry<T>>, now: int, expiry: int) returns (r: map<string, Entry<T>>)
    ensures r == Fresh(m, now, expiry)
  {
    var expiredKeys := set k | k in m && now - m[k].timestamp > expiry;
    r := m;
    var pending := expiredKeys;
    while pending != {}
      invariant pending <= expiredKeys
      invariant r == map k | k in m && (k !in expiredKeys || k in pending) :: m[k]
      decreases |pending|
    {
      var k :| k in pending;
      r := r - {k};
      pending := pending - {k};
    }
    var kept := Fresh(m, now, expiry);
    assert r.Keys == kept.Keys;
    assert forall k :: k in r ==> r[k] == kept[k];
  }

  /** `m` without the `n` entries with the earliest timestamps. */
  method RemoveOldest<T>(m: map<string, Entry<T>>, n: nat) returns (r: map<string, Entry<T>>)
    requires n <= |m|
    ensures forall k :: k in r ==> k in m && r[k] == m[k]
    ensures |r| == |m| - n
    ensures forall k, k' :: k in m && k !in r && k' in r ==> m[k].timestamp <= m[k'].timestamp
  {
    r := m;
    var i := 0;
    while i < n
      invariant 0 <= i <= n
      invariant forall k :: k in r ==> k in m && r[k] == m[k]
      invariant |r| == |m| - i
      invariant forall k, k' :: k in m && k !in r && k' in r ==> m[k].timestamp <= m[k'].timestamp
    {
      var oldest := Oldest(r);
      assert r.Keys - {oldest} == (r - {oldest}).Keys;
      r := r - {oldest};
      i := i + 1;
    }
  }

  /**
   * What `Set` leaves in the short-term table when the insertion overflowed it: the expired entries are
   * gone, and of the others the oldest ones, just enough to get back to the maximum size.
   */
  ghost predicate Trimmed<T>(before: map<string, Entry<T>>, after: map<string, Entry<T>>, now: int)
  {
    var live := Fresh(before, now, ShortTermExpiry);
    && (forall k :: k in after ==> k in live && after[k] == before[k])
    && |after| == Min(|live|, ShortTermMaxSize)
    && (forall k, k' :: k in live && k !in after && k' in after ==> before[k].timestamp <= before[k'].timestamp)
  }

  /**
   * What `Get` does when moving the expired short-term entry `moved` to a full long-term table `before`:
   * an entry `o` with the earliest timestamp is evicted, then the key is served from what is left,
   * or removed from it when it is older than ten minutes.
   */
  ghost predicate EvictedOnPromotion<T>(before: map<string, Entry<T>>, moved: Entry<T>, o: string, key: string,
                                        now: int, r: Option<T>, after: map<string, Entry<T>>)
  {
    var promoted := before[key := moved];
    && o in promoted
    && (forall k :: k in promoted ==> promoted[o].timestamp <= promoted[k].timestamp)
    && var rest := promoted - {o};
       if key in rest && now - rest[key].timestamp <= LongTermExpiry
       then r == Some(rest[key].value) && after == rest
       else r.None? && after == rest - {key}
  }

  /** Moves `e` into the long-term table under a new key, evicting an oldest entry when that overflows it. */
  method Promote<T>(longTerm: map<string, Entry<T>>, key: string, e: Entry<T>)
    returns (after: map<string, Entry<T>>, ghost evicted: string)
    requires key !in longTerm
    ensures |longTerm| < LongTermMaxSize ==> after == longTerm[key := e]
    ensures |longTerm| >= LongTermMaxSize ==>
      var promoted := longTerm[key := e];
      && evicted in promoted && after == promoted - {evicted}
      && (forall k :: k in promoted ==> promoted[evicted].timestamp <= promoted[k].timestamp)
    ensures |longTerm| <= LongTermMaxSize ==> |after| <= LongTermMaxSize
  {
    after := longTerm[key := e];
    evicted := key;
    if |after| > LongTermMaxSize {
      var oldestKey := Oldest(after);
      evicted := oldestKey;
      after := after - {oldestKey};
    }
  }

  /** The long-term half of `Get`: serve an entry at most ten minutes old, remove an older one. */
  method LookUpLongTerm<T>(longTerm: map<string, Entry<T>>, key: string, now: int)
    returns (r: Option<T>, after: map<string, Entry<T>>)
    ensures key !in longTerm ==> r.None? && after == longTerm
    ensures key in longTerm && now - longTerm[key].timestamp <= LongTermExpiry ==>
      r == Some(longTerm[key].value) && after == longTerm
    ensures key in longTerm && now - longTerm[key].timestamp > LongTermExpiry ==>
      r.None? && after == longTerm - {key}
  {
    r, after := None, longTerm;
    if key in longTerm {
      var longTermEntry := longTerm[key];
      if now - longTermEntry.timestamp <= LongTermExpiry {
        r := Some(longTermEntry.value);
      } else {
        after := longTerm - {key};
      }
    }
  }

  /**
   * `Get` on the tables `st` and `lt`, giving `r` and the new tables `st'` and `lt'`: case by case, which
   * value is served and what each table becomes.
   */
  ghost predicate GetSpec<T>(st: map<string, Entry<T>>, lt: map<string, Entry<T>>, key: string, now: int,
                             r: Option<T>, st': map<string, Entry<T>>, lt': map<string, Entry<T>>)
  {
    var shortHit := key in st && now - st[key].timestamp <= ShortTermExpiry;
    // a fresh short-term entry is served and nothing changes
    && (shortHit ==> r == Some(st[key].value) && st' == st && lt' == lt)
    // otherwise the short-term entry, if any, is gone
    && (!shortHit ==> st' == st - {key})
    // a key in neither table: nothing served, long-term unchanged
    && (key !in st && key !in lt ==> r.None? && lt' == lt)
    // a long-term entry is served when at most ten minutes old, removed otherwise
    && (!shortHit && key in lt && now - lt[key].timestamp <= LongTermExpiry ==>
          r == Some(lt[key].value) && lt' == lt)
    && (!shortHit && key in lt && now - lt[key].timestamp > LongTermExpiry ==>
          r.None? && lt' == lt - {key})
    // an expired short-term entry moves to a long-term table with room, and is served from there
    && (key in st && !shortHit && key !in lt && |lt| < LongTermMaxSize ==>
          if now - st[key].timestamp <= LongTermExpiry
          then r == Some(st[key].value) && lt' == lt[key := st[key]]
          else r.None? && lt' == lt)
    // moving it to a full long-term table evicts an oldest entry first
    && (key in st && !shortHit && key !in lt && |lt| >= LongTermMaxSize ==>
          exists o :: EvictedOnPromotion(lt, st[key], o, key, now, r, lt'))
  }

  /** `Get` on the two tables. */
  method GetFrom<T>(st: map<string, Entry<T>>, lt: map<string, Entry<T>>, key: string, now: int)
    returns (r: Option<T>, st': map<string, Entry<T>>, lt': map<string, Entry<T>>)
    ensures GetSpec(st, lt, key, now, r, st', lt')
    ensures |st'| <= |st|
    ensures |lt| <= LongTermMaxSize ==> |lt'| <= LongTermMaxSize
  {
    if key in st {
      var shortTermEntry := st[key];
      if now - shortTermEntry.timestamp <= ShortTermExpiry {
        return Some(shortTermEntry.value), st, lt;
      }
    }
    st' := st - {key};
    if key in st && key !in lt {
      // the expired short-term entry moves to the long-term table
      var promoted, evicted := Promote(lt, key, st[key]);
      r, lt' := LookUpLongTerm(promoted, key, now);
      if |lt| >= LongTermMaxSize {
        assert EvictedOnPromotion(lt, st[key], evicted, key, now, r, lt');
      }
    } else {
      r, lt' := LookUpLongTerm(lt, key, now);
    }
  }

  /**
   * Whatever case applies, `Get` serves only a value stored under the key at most ten minutes ago, and
   * after a miss the key is in neither table.
   */
  lemma GetServesOnlyFresh<T>(st: map<string, Entry<T>>, lt: map<string, Entry<T>>, key: string, now: int,
                              r: Option<T>, st': map<string, Entry<T>>, lt': map<string, Entry<T>>)
    requires GetSpec(st, lt, key, now, r, st', lt')
    ensures r.Some? ==>
      (key in st && r.value == st[key].value && now - st[key].timestamp <= LongTermExpiry) ||
      (key in lt && r.value == lt[key].value && now - lt[key].timestamp <= LongTermExpiry)
    ensures r.None? ==> key !in st' && key !in lt'
  {
    if key in st && now - st[key].timestamp > ShortTermExpiry && key !in lt && |lt| >= LongTermMaxSize {
      var o :| EvictedOnPromotion(lt, st[key], o, key, now, r, lt');
    }
  }

  class Cache<T> {
    var shortTerm: map<string, Entry<T>>
    var longTerm: map<string, Entry<T>>

    /** Both tables within their maximum sizes. */
    predicate Valid()
      reads this
    {
      |shortTerm| <= ShortTermMaxSize && |longTerm| <= LongTermMaxSize
    }

    constructor()
      ensures shortTerm == map[] && longTerm == map[]
      ensures Valid()
    {
      shortTerm := map[];
      longTerm := map[];
    }

    /**
     * `Set`: store the value with the current time in the short-term table; on overflow evict the
     * expired entries, then the oldest ones. The long-term table is untouched.
     */
    method Set(key: string, value: T, now: int)
      modifies this
      ensures longTerm == old(longTerm)
      ensures |old(shortTerm)[key := Entry(value, now)]| <= ShortTermMaxSize ==>
        shortTerm == old(shortTerm)[key := Entry(value, now)]
      ensures |old(shortTerm)[key := Entry(value, now)]| > ShortTermMaxSize ==>
        Trimmed(old(shortTerm)[key := Entry(value, now)], shortTerm, now)
      ensures |shortTerm| <= ShortTermMaxSize
      ensures old(Valid()) ==> Valid()
    {
      var entry := Entry(value, now);
      shortTerm := shortTerm[key := entry];
      ghost var inserted := shortTerm;
      if |shortTerm| > ShortTermMaxSize {
        shortTerm := RemoveExpired(shortTerm, now, ShortTermExpiry);
        if |shortTerm| > ShortTermMaxSize {
          shortTerm := RemoveOldest(shortTerm, |shortTerm| - ShortTermMaxSize);
        }
      }
    }

    /**
     * `Get`: a short-term entry at most one minute old is returned. An older one is removed and, when the
     * key has no long-term entry, moved there with its timestamp (evicting an oldest long-term entry on
     * overflow). A long-term entry at most ten minutes old is returned; an older one is removed.
     * Nothing found is `None`.
     */
    method Get(key: string, now: int) returns (r: Option<T>)
      modifies this
      ensures GetSpec(old(shortTerm), old(longTerm), key, now, r, shortTerm, longTerm)
      ensures old(Valid()) ==> Valid()
    {
      r, shortTerm, longTerm := GetFrom(shortTerm, longTerm, key, now);
    }

    /**
     * `Contains`: whether the key has a short-term entry at most one minute old or a long-term entry at
     * most ten minutes old. Expired entries met on the way are removed; nothing is moved to long-term.
     */
    method Contains(key: string, now: int) returns (r: bool)
      modifies this
      ensures r <==> (key in old(shortTerm) && now - old(shortTerm)[key].timestamp <= ShortTermExpiry) ||
                     (key in old(longTerm) && now - old(longTerm)[key].timestamp <= LongTermExpiry)
      ensures shortTerm == if key in old(shortTerm) && now - old(shortTerm)[key].timestamp > ShortTermExpiry
                           then old(shortTerm) - {key} else old(shortTerm)
      ensures longTerm == if !(key in old(shortTerm) && now - old(shortTerm)[key].timestamp <= ShortTermExpiry) &&
                             key in old(longTerm) && now - old(longTerm)[key].timestamp > LongTermExpiry
                          then old(longTerm) - {key} else old(longTerm)
      ensures old(Valid()) ==> Valid()
    {
      if key in shortTerm {
        var shortTermEntry := shortTerm[key];
        if now - shortTermEntry.timestamp <= ShortTermExpiry {
          return true;
        } else {
          shortTerm := shortTerm - {key};
        }
      }
      if key in longTerm {
        var longTermEntry := longTerm[key];
        if now - longTermEntry.timestamp <= LongTermExpiry {
          return true;
        } else {
          longTerm := longTerm - {key};
        }
      }
      return false;
    }

    /** `Cleanup`: removes exactly the short-term entries older than one minute and the long-term ones older than ten. */
    method Cleanup(now: int)
      modifies this
      ensures shortTerm == Fresh(old(shortTerm), now, ShortTermExpiry)
      ensures longTerm == Fresh(old(longTerm), now, LongTermExpiry)
      ensures old(Valid()) ==> Valid()
    {
      shortTerm := RemoveExpired(shortTerm, now, ShortTermExpiry);
      longTerm := RemoveExpired(longTerm, now, LongTermExpiry);
      FreshSmaller(old(shortTerm), now, ShortTermExpiry);
      FreshSmaller(old(longTerm), now, LongTermExpiry);
    }
  }

  /**
   * An entry stored two minutes ago is past its short-term life: `Get` still serves it (moving it to the
   * long-term table), while `Contains` answers false and drops it, after which `Get` finds nothing.
   */
  method ContainsDropsWhatGetWouldServe() returns (viaGet: Option<int>, contained: bool, getAfterContains: Option<int>)
    ensures viaGet == Some(7)
    ensures !contained
    ensures getAfterContains.None?
  {
    var a := new Cache<int>();
    a.Set("button", 7, 0);
    viaGet := a.Get("button", 2 * TicksPerMinute);
    var b := new Cache<int>();
    b.Set("button", 7, 0);
    contained := b.Contains("button", 2 * TicksPerMinute);
    getAfterContains := b.Get("button", 2 * TicksPerMinute);
  }
}
