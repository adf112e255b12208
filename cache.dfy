/**
 * The response cache of route_optimizer/cache.py (duplicated in
 * route_optimizer.py): cache keys are a hash of the request parameters
 * serialised with their keys sorted, and the store holds one file per key
 * with a timestamp, which a lookup deletes once it is older than the TTL or
 * no longer parses.
 */
module Cache {

  /** Entries expire after this many days. */
  const CacheExpiryDays := 30
  const SecondsPerDay := 86400
  /** The TTL in seconds: timestamps are whole seconds in this model. */
  const TtlSeconds := CacheExpiryDays * SecondsPerDay

  /** A cache key: the hex digest naming the file `<key>.json`. */
  type Key = string

  /** A parameter dict as Python holds it: key/value pairs in insertion order. */
  type Params = seq<(string, string)>

  // ---------------------------------------------------------------------------
  // Canonical parameter order (json.dumps with sort_keys=True)
  // ---------------------------------------------------------------------------

  /** Python's `<` on str: lexicographic by code point. */
  predicate StrLess(a: string, b: string)
    decreases |a|
  {
    if |a| == 0 then |b| > 0
    else if |b| == 0 then false
    else if a[0] != b[0] then a[0] < b[0]
    else StrLess(a[1..], b[1..])
  }

  lemma {:induction false} StrLessIrreflexive(a: string)
    ensures !StrLess(a, a)
    decreases |a|
  {
    if |a| > 0 { StrLessIrreflexive(a[1..]); }
  }

  lemma {:induction false} StrLessTransitive(a: string, b: string, c: string)
    requires StrLess(a, b) && StrLess(b, c)
    ensures StrLess(a, c)
    decreases |a|
  {
    if |a| > 0 && a[0] == b[0] && b[0] == c[0] {
      StrLessTransitive(a[1..], b[1..], c[1..]);
    }
  }

  lemma {:induction false} StrLessTotal(a: string, b: string)
    requires a != b
    ensures StrLess(a, b) || StrLess(b, a)
    decreases |a|
  {
    if |a| > 0 && |b| > 0 && a[0] == b[0] {
      assert a == [a[0]] + a[1..] && b == [b[0]] + b[1..];
      StrLessTotal(a[1..], b[1..]);
    }
  }

  lemma StrLessAsymmetric(a: string, b: string)
    requires StrLess(a, b)
    ensures !StrLess(b, a)
  {
    if StrLess(b, a) {
      StrLessTransitive(a, b, a);
      StrLessIrreflexive(a);
    }
  }

  /** No key occurs twice, as in any Python dict. */
  predicate DistinctKeys(p: Params)
  {
    forall i, j :: 0 <= i < j < |p| ==> p[i].0 != p[j].0
  }

  /** Keys strictly increasing. */
  predicate SortedByKey(p: Params)
  {
    forall i, j :: 0 <= i < j < |p| ==> StrLess(p[i].0, p[j].0)
  }

  /** The dict a pair list stands for. */
  function ToMap(p: Params): map<string, string>
    decreases |p|
  {
    if |p| == 0 then map[] else ToMap(p[1..])[p[0].0 := p[0].1]
  }

  /** Inserts one pair into a key-sorted list. */
  function Insert(x: (string, string), s: Params): Params
    decreases |s|
  {
    if |s| == 0 || StrLess(x.0, s[0].0) then [x] + s
    else [s[0]] + Insert(x, s[1..])
  }

  /** The pairs of `p` in key order: the order json.dumps(..., sort_keys=True) writes them. */
  function Canonical(p: Params): Params
    decreases |p|
  {
    if |p| == 0 then [] else Insert(p[0], Canonical(p[1..]))
  }

  lemma {:induction false} ToMapKeys(p: Params, k: string)
    ensures k in ToMap(p) <==> exists i :: 0 <= i < |p| && p[i].0 == k
    decreases |p|
  {
    if |p| > 0 {
      ToMapKeys(p[1..], k);
      if k in ToMap(p[1..]) {
        var i :| 0 <= i < |p[1..]| && p[1..][i].0 == k;
        assert p[i + 1].0 == k;
      }
      if exists i :: 0 <= i < |p| && p[i].0 == k {
        var i :| 0 <= i < |p| && p[i].0 == k;
        if i > 0 { assert p[1..][i - 1].0 == k; }
      }
    }
  }

  /** Insertion adds `x` and keeps every other pair. */
  lemma {:induction false} InsertElements(x: (string, string), s: Params)
    ensures |Insert(x, s)| == |s| + 1
    ensures forall i :: 0 <= i < |Insert(x, s)| ==> Insert(x, s)[i] == x || Insert(x, s)[i] in s
    decreases |s|
  {
    if !(|s| == 0 || StrLess(x.0, s[0].0)) {
      InsertElements(x, s[1..]);
      var r := Insert(x, s);
      forall i | 0 <= i < |r| ensures r[i] == x || r[i] in s {
        if i > 0 && r[i] != x {
          var k :| 0 <= k < |s[1..]| && s[1..][k] == r[i];
          assert s[k + 1] == r[i];
        }
      }
    }
  }

  /** Insertion into a key-sorted list of other keys keeps it key-sorted. */
  lemma {:induction false} InsertSorted(x: (string, string), s: Params)
    requires SortedByKey(s)
    requires forall i :: 0 <= i < |s| ==> s[i].0 != x.0
    ensures SortedByKey(Insert(x, s))
    decreases |s|
  {
    if |s| == 0 || StrLess(x.0, s[0].0) {
      var r := [x] + s;
      assert r[1..] == s;
      forall i, j | 0 <= i < j < |r| ensures StrLess(r[i].0, r[j].0) {
        if i == 0 && j > 1 { StrLessTransitive(x.0, s[0].0, s[j - 1].0); }
      }
    } else {
      StrLessTotal(x.0, s[0].0);
      var t := s[1..];
      assert SortedByKey(t);
      InsertSorted(x, t);
      InsertElements(x, t);
      var r := [s[0]] + Insert(x, t);
      assert r[1..] == Insert(x, t);
      forall i, j | 0 <= i < j < |r| ensures StrLess(r[i].0, r[j].0) {
        if i == 0 {
          var y := Insert(x, t)[j - 1];
          if y != x {
            var k :| 0 <= k < |t| && t[k] == y;
            assert s[k + 1] == y;
          }
        }
      }
    }
  }

  /** Insertion of a new key adds exactly that key to the dict. */
  lemma {:induction false} InsertToMap(x: (string, string), s: Params)
    requires forall i :: 0 <= i < |s| ==> s[i].0 != x.0
    ensures ToMap(Insert(x, s)) == ToMap(s)[x.0 := x.1]
    decreases |s|
  {
    if |s| == 0 || StrLess(x.0, s[0].0) {
      assert ([x] + s)[1..] == s;
    } else {
      var t := s[1..];
      InsertToMap(x, t);
      var r := [s[0]] + Insert(x, t);
      assert r[1..] == Insert(x, t);
      assert ToMap(r) == ToMap(Insert(x, t))[s[0].0 := s[0].1];
      assert ToMap(s) == ToMap(t)[s[0].0 := s[0].1];
    }
  }

  lemma InsertFacts(x: (string, string), s: Params)
    requires SortedByKey(s)
    requires forall i :: 0 <= i < |s| ==> s[i].0 != x.0
    ensures SortedByKey(Insert(x, s))
    ensures |Insert(x, s)| == |s| + 1
    ensures forall i :: 0 <= i < |Insert(x, s)| ==> Insert(x, s)[i] == x || Insert(x, s)[i] in s
    ensures ToMap(Insert(x, s)) == ToMap(s)[x.0 := x.1]
  {
    InsertElements(x, s);
    InsertSorted(x, s);
    InsertToMap(x, s);
  }

  /** The canonical list is key-sorted and stands for the same dict. */
  lemma {:induction false} CanonicalFacts(p: Params)
    requires DistinctKeys(p)
    ensures SortedByKey(Canonical(p))
    ensures |Canonical(p)| == |p|
    ensures forall i :: 0 <= i < |Canonical(p)| ==> Canonical(p)[i] in p
    ensures ToMap(Canonical(p)) == ToMap(p)
    decreases |p|
  {
    if |p| > 0 {
      var t := p[1..];
      assert DistinctKeys(t);
      CanonicalFacts(t);
      var c := Canonical(t);
      forall i | 0 <= i < |c| ensures c[i].0 != p[0].0 {
        var k :| 0 <= k < |t| && t[k] == c[i];
        assert p[k + 1] == c[i];
      }
      InsertFacts(p[0], c);
      forall i | 0 <= i < |Canonical(p)| ensures Canonical(p)[i] in p {
        if Canonical(p)[i] != p[0] {
          var k :| 0 <= k < |t| && t[k] == Canonical(p)[i];
          assert p[k + 1] == t[k];
        }
      }
    }
  }

  /** Two key-sorted lists that stand for the same dict are the same list. */
  lemma {:induction false} SortedUnique(a: Params, b: Params)
    requires SortedByKey(a) && SortedByKey(b)
    requires ToMap(a) == ToMap(b)
    ensures a == b
    decreases |a|
  {
    if |a| == 0 {
      if |b| > 0 { ToMapKeys(b, b[0].0); }
    } else if |b| == 0 {
      ToMapKeys(a, a[0].0);
    } else {
      ToMapKeys(a, b[0].0);
      ToMapKeys(b, a[0].0);
      var i :| 0 <= i < |a| && a[i].0 == b[0].0;
      var j :| 0 <= j < |b| && b[j].0 == a[0].0;
      if i > 0 && j > 0 {
        StrLessAsymmetric(a[0].0, a[i].0);
        assert false;
      }
      assert a[0].0 == b[0].0;
      var k := a[0].0;
      SortedHeadAbsent(a);
      SortedHeadAbsent(b);
      assert a[0].1 == ToMap(a)[k] == ToMap(b)[k] == b[0].1;
      assert ToMap(a[1..]) == ToMap(a) - {k};
      assert ToMap(b[1..]) == ToMap(b) - {k};
      SortedUnique(a[1..], b[1..]);
      assert a == [a[0]] + a[1..] && b == [b[0]] + b[1..];
    }
  }

  /** In a key-sorted list the first key does not occur again. */
  lemma SortedHeadAbsent(a: Params)
    requires |a| > 0 && SortedByKey(a)
    ensures a[0].0 !in ToMap(a[1..])
    ensures ToMap(a[1..]) == ToMap(a) - {a[0].0}
  {
    var k, rest := a[0].0, ToMap(a[1..]);
    ToMapKeys(a[1..], k);
    if k in rest {
      var i :| 0 <= i < |a[1..]| && a[1..][i].0 == k;
      assert StrLess(k, a[i + 1].0);
      StrLessIrreflexive(k);
    }
    assert ToMap(a) == rest[k := a[0].1];
    assert rest[k := a[0].1] - {k} == rest;
  }

  /**
   * Two parameter dicts serialise identically exactly when they hold the same
   * pairs, whatever their insertion order.
   */
  lemma CanonicalIgnoresOrder(p: Params, q: Params)
    requires DistinctKeys(p) && DistinctKeys(q)
    ensures Canonical(p) == Canonical(q) <==> ToMap(p) == ToMap(q)
  {
    CanonicalFacts(p);
    CanonicalFacts(q);
    if ToMap(p) == ToMap(q) {
      SortedUnique(Canonical(p), Canonical(q));
    }
  }

  /**
   * `generate_cache_key`: the digest of the key-sorted parameters. The digest
   * stands for json.dumps followed by MD5, which this model does not spell out.
   */
  function CacheKey(digest: Params -> Key, p: Params): Key
  {
    digest(Canonical(p))
  }

  /** Reordering the dict never changes its cache key; with an injective
    * digest, different dicts never share one. */
  lemma CacheKeyDeterminedByPairs(digest: Params -> Key, p: Params, q: Params)
    requires DistinctKeys(p) && DistinctKeys(q)
    ensures ToMap(p) == ToMap(q) ==> CacheKey(digest, p) == CacheKey(digest, q)
    ensures (forall x, y :: digest(x) == digest(y) ==> x == y) ==>
              (CacheKey(digest, p) == CacheKey(digest, q) <==> ToMap(p) == ToMap(q))
  {
    CanonicalIgnoresOrder(p, q);
  }

  // ---------------------------------------------------------------------------
  // The store
  // ---------------------------------------------------------------------------

  /**
   * One cache file:
   * - `Stored`: a JSON object with a naive ISO `timestamp`, at least 30 days
   *   before the largest date Python represents, and the cached `data`;
   * - `Corrupt`: a file whose reading raises one of the errors `get_from_cache`
   *   catches: bad JSON, a missing `timestamp` or `data`, or a timestamp string
   *   that is not in ISO format;
   * - `Unreadable`: a file whose reading raises an error that is not caught:
   *   `TypeError` for JSON that is not an object, a timestamp that is not a
   *   string, or a time-zone-aware timestamp compared with the naive clock;
   *   `OverflowError` for a timestamp less than 30 days before the largest
   *   representable date, where adding the TTL leaves the date range.
   */
  datatype Entry<D> = Stored(timestamp: int, data: D) | Corrupt | Unreadable

  /** What `get_from_cache` answers: the cached data, `None`, or the
    * `TypeError` or `OverflowError` it lets through. */
  datatype Found<D> = Hit(data: D) | Miss | Raised

  /** `now > timestamp + 30 days`: strictly older than the TTL. */
  predicate Expired(timestamp: int, now: int)
  {
    now > timestamp + TtlSeconds
  }

  /** What `get_from_cache` returns. */
  function Lookup<D>(entries: map<Key, Entry<D>>, k: Key, now: int): Found<D>
  {
    if k !in entries then Miss
    else match entries[k]
      case Corrupt => Miss
      case Unreadable => Raised
      case Stored(ts, data) => if Expired(ts, now) then Miss else Hit(data)
  }

  /** The files left after `get_from_cache`: an expired or corrupt entry is
    * deleted; an unreadable one stays, since the uncaught error skips the unlink. */
  function AfterLookup<D>(entries: map<Key, Entry<D>>, k: Key, now: int): map<Key, Entry<D>>
  {
    if k in entries && Lookup(entries, k, now).Miss? then entries - {k} else entries
  }

  /** A lookup deletes exactly the entry it reports as missing, and no other;
    * it raises exactly on an unreadable entry, which it leaves in place. */
  lemma LookupDeletesOnlyDeadEntry<D>(entries: map<Key, Entry<D>>, k: Key, now: int)
    ensures Lookup(entries, k, now).Hit? ==> k in entries && AfterLookup(entries, k, now) == entries
    ensures Lookup(entries, k, now).Raised? <==> k in entries && entries[k].Unreadable?
    ensures Lookup(entries, k, now).Raised? ==> AfterLookup(entries, k, now) == entries
    ensures k !in entries ==> Lookup(entries, k, now) == Miss && AfterLookup(entries, k, now) == entries
    ensures k in entries && Lookup(entries, k, now).Miss? ==> AfterLookup(entries, k, now) == entries - {k}
    ensures forall k' :: k' != k ==>
              (k' in AfterLookup(entries, k, now) <==> k' in entries) &&
              (k' in entries ==> AfterLookup(entries, k, now)[k'] == entries[k'])
  {
  }

  /** Round trip: data saved at `t` is returned by a lookup at any `now <= t + TTL`,
    * and by none later. */
  lemma SaveThenLookup<D>(entries: map<Key, Entry<D>>, k: Key, d: D, t: int, now: int)
    ensures Lookup(entries[k := Stored(t, d)], k, now) == (if now <= t + TtlSeconds then Hit(d) else Miss)
  {
  }

  /** A lookup at the boundary `now == t + TTL` still hits; one second later misses. */
  lemma ExpiryBoundary<D>(entries: map<Key, Entry<D>>, k: Key, d: D, t: int)
    requires k in entries && entries[k] == Stored(t, d)
    ensures Lookup(entries, k, t + TtlSeconds) == Hit(d)
    ensures Lookup(entries, k, t + TtlSeconds + 1) == Miss
    ensures k !in AfterLookup(entries, k, t + TtlSeconds + 1)
  {
  }

  /**
   * The cache directory and its files. `initialized` is whether `.cache/`
   * exists; without it there are no files.
   */
  class Store<D> {
    var initialized: bool
    var entries: map<Key, Entry<D>>

    ghost predicate Valid()
      reads this
    {
      !initialized ==> entries == map[]
    }

    /** The store as found on disk when the program starts. */
    constructor (dirExists: bool, files: map<Key, Entry<D>>)
      requires dirExists || files == map[]
      ensures Valid()
      ensures initialized == dirExists && entries == files
    {
      initialized := dirExists;
      entries := files;
    }

    /** `init_cache`: creates the directory if missing; files already there stay.
      * A second call finds the directory and changes nothing. */
    method Init()
      requires Valid()
      modifies this
      ensures Valid()
      ensures initialized && entries == old(entries)
    {
      initialized := true;
    }

    /** `get_from_cache`. */
    method Get(k: Key, now: int) returns (r: Found<D>)
      requires Valid()
      modifies this
      ensures Valid() && initialized == old(initialized)
      ensures r == Lookup(old(entries), k, now)
      ensures entries == AfterLookup(old(entries), k, now)
    {
      if k !in entries {
        return Miss;
      }
      match entries[k] {
        case Corrupt =>
          entries := entries - {k};
          r := Miss;
        case Unreadable =>
          r := Raised;
        case Stored(ts, data) =>
          if now > ts + TtlSeconds {
            entries := entries - {k};
            r := Miss;
          } else {
            r := Hit(data);
          }
      }
    }

    /** `save_to_cache`: overwrites the file at `k` with a fresh timestamp.
      * Opening the file fails when the directory was never created. */
    method Save(k: Key, d: D, now: int) returns (ok: bool)
      requires Valid()
      modifies this
      ensures Valid() && initialized == old(initialized)
      ensures ok == initialized
      ensures entries == if ok then old(entries)[k := Stored(now, d)] else old(entries)
    {
      ok := initialized;
      if ok {
        entries := entries[k := Stored(now, d)];
      }
    }
  }

  /** A client of the store: initialising twice is the same as once, and what
    * is saved is read back within the TTL. */
  method SaveThenGet<D>(s: Store<D>, k: Key, d: D, t: int, now: int) returns (r: Found<D>)
    requires s.Valid()
    requires t <= now <= t + TtlSeconds
    modifies s
    ensures s.Valid() && s.initialized
    ensures r == Hit(d)
    ensures s.entries == old(s.entries)[k := Stored(t, d)]
  {
    s.Init();
    var before := s.entries;
    s.Init();
    assert s.entries == before;
    var ok := s.Save(k, d, t);
    r := s.Get(k, now);
  }
}
