/**
 * The directions client of route_optimizer/api.py and of the single-file
 * route_optimizer.py: request parameters, the cache consulted before every
 * provider call, the route record built from an `OK` response, the error
 * raised on any other status, and `optimize_route`, which fetches the route
 * in input order and then the provider-optimised one.
 */
module Api {
  import opened Wrappers
  import opened Text
  import Cache

  const OptimizeMarker := "optimize:true|"
  const TravelMode := "driving"
  const StatusOk := "OK"
  /** The geocoder status assumed when a geocoded waypoint carries none. */
  const UnknownStatus := "UNKNOWN"
  const ErrorPrefix := "Google Maps API error: "
  const MissingKeyMessage := "GOOGLE_MAPS_API_KEY not found. Please set it in .env file"
  const TooFewMessage := "Need at least 2 addresses to optimize route"

  // ---------------------------------------------------------------------------
  // Provider response and route record
  // ---------------------------------------------------------------------------

  /** One leg: `distance.value` in metres and `duration.value` in seconds. */
  datatype Leg = Leg(distance: int, duration: int)

  datatype Route = Route(legs: seq<Leg>, waypointOrder: Option<seq<int>>)

  datatype GeocodedWaypoint = GeocodedWaypoint(geocoderStatus: Option<string>)

  /** The decoded JSON of a directions response. */
  datatype Response = Response(
    status: string,
    routes: seq<Route>,
    geocodedWaypoints: Option<seq<GeocodedWaypoint>>,
    errorMessage: Option<string>)

  /** The dict returned (and cached) by `get_route_with_waypoints`. */
  datatype RouteRecord = RouteRecord(
    addresses: seq<string>,
    distanceM: int,
    durationS: int,
    waypointOrder: Option<seq<int>>)

  /** What the calls raise. */
  datatype RouteError =
    | ConfigurationError(message: string)  // ValueError from optimize_route's checks
    | ProviderError(message: string)       // ValueError on a non-OK status
    | IndexError                           // waypoints[-1], routes[0] or waypoints[idx] out of range
    | CacheDirMissing                      // save_to_cache cannot open its file: no .cache directory
    | CacheReadError                       // TypeError or OverflowError from get_from_cache on an unreadable cache file

  /**
   * The environment of the client: the credential read from the environment,
   * the hash behind cache keys, the provider (the HTTP request and its decoded
   * answer), and which variant raises the detailed error message (the package;
   * the single-file script raises the status alone).
   */
  datatype Config = Config(
    apiKey: Option<string>,
    digest: Cache.Params -> Cache.Key,
    provider: Cache.Params -> Response,
    detailedErrors: bool)

  // ---------------------------------------------------------------------------
  // Request parameters and cache key
  // ---------------------------------------------------------------------------

  /** `'|'.join(waypoints)`, prefixed with the optimisation marker when asked. */
  function WaypointsParam(waypoints: seq<string>, optimize: bool): string
  {
    if optimize then OptimizeMarker + Join('|', waypoints) else Join('|', waypoints)
  }

  /** The parameters that make the cache key: never the credential. */
  function CacheParams(origin: string, waypoints: seq<string>, optimize: bool): (p: Cache.Params)
    requires |waypoints| > 0
    ensures Cache.DistinctKeys(p)
    ensures forall i :: 0 <= i < |p| ==> p[i].0 != "key"
  {
    [("origin", origin),
     ("destination", waypoints[|waypoints| - 1]),
     ("waypoints", WaypointsParam(waypoints, optimize)),
     ("mode", TravelMode)]
  }

  /** The parameters sent: the cache parameters plus the credential, which the
    * HTTP layer drops when it is `None`. */
  function RequestParams(origin: string, waypoints: seq<string>, optimize: bool, apiKey: Option<string>): Cache.Params
    requires |waypoints| > 0
  {
    CacheParams(origin, waypoints, optimize) + (if apiKey.Some? then [("key", apiKey.value)] else [])
  }

  function RouteKey(digest: Cache.Params -> Cache.Key, origin: string, waypoints: seq<string>, optimize: bool): Cache.Key
    requires |waypoints| > 0
  {
    Cache.CacheKey(digest, CacheParams(origin, waypoints, optimize))
  }

  /** The dict that the cache parameters stand for. */
  lemma CacheParamsMap(origin: string, waypoints: seq<string>, optimize: bool)
    requires |waypoints| > 0
    ensures var m := Cache.ToMap(CacheParams(origin, waypoints, optimize));
            "origin" in m && m["origin"] == origin &&
            "waypoints" in m && m["waypoints"] == WaypointsParam(waypoints, optimize)
  {
    var p := CacheParams(origin, waypoints, optimize);
    assert p[1..][1..][1..][1..] == [];
    var m3 := Cache.ToMap(p[1..][1..]);
    assert m3 == Cache.ToMap(p[1..][1..][1..])["waypoints" := WaypointsParam(waypoints, optimize)];
    assert Cache.ToMap(p[1..]) == m3["destination" := waypoints[|waypoints| - 1]];
  }

  /**
   * With an injective digest, requests of the same kind share a cache key
   * exactly when they have the same origin and the same waypoints (when no
   * address contains the `|` separator).
   */
  lemma RouteKeySeparatesRequests(digest: Cache.Params -> Cache.Key, o1: string, w1: seq<string>,
                                  o2: string, w2: seq<string>, optimize: bool)
    requires forall x, y :: digest(x) == digest(y) ==> x == y
    requires |w1| > 0 && |w2| > 0 && FreeOf('|', w1) && FreeOf('|', w2)
    ensures RouteKey(digest, o1, w1, optimize) == RouteKey(digest, o2, w2, optimize) <==> o1 == o2 && w1 == w2
  {
    var p, q := CacheParams(o1, w1, optimize), CacheParams(o2, w2, optimize);
    Cache.CacheKeyDeterminedByPairs(digest, p, q);
    if Cache.ToMap(p) == Cache.ToMap(q) {
      CacheParamsMap(o1, w1, optimize);
      CacheParamsMap(o2, w2, optimize);
      JoinInjective('|', w1, w2);
      if optimize {
        var s1, s2 := WaypointsParam(w1, optimize), WaypointsParam(w2, optimize);
        assert Join('|', w1) == s1[|OptimizeMarker|..] == s2[|OptimizeMarker|..] == Join('|', w2);
      }
    }
  }

  /** With an injective digest, the optimised request never reuses the
    * input-order request's cache entry. */
  lemma RouteKeySeparatesOptimize(digest: Cache.Params -> Cache.Key, origin: string, waypoints: seq<string>)
    requires forall x, y :: digest(x) == digest(y) ==> x == y
    requires |waypoints| > 0
    ensures RouteKey(digest, origin, waypoints, false) != RouteKey(digest, origin, waypoints, true)
  {
    var p, q := CacheParams(origin, waypoints, false), CacheParams(origin, waypoints, true);
    Cache.CacheKeyDeterminedByPairs(digest, p, q);
    CacheParamsMap(origin, waypoints, false);
    CacheParamsMap(origin, waypoints, true);
    assert |WaypointsParam(waypoints, false)| < |WaypointsParam(waypoints, true)|;
  }

  // ---------------------------------------------------------------------------
  // The record built from an OK response
  // ---------------------------------------------------------------------------

  /** Total metres over the legs. */
  function TotalDistance(legs: seq<Leg>): int
    decreases |legs|
  {
    if |legs| == 0 then 0 else TotalDistance(legs[..|legs| - 1]) + legs[|legs| - 1].distance
  }

  /** Total seconds over the legs. */
  function TotalDuration(legs: seq<Leg>): int
    decreases |legs|
  {
    if |legs| == 0 then 0 else TotalDuration(legs[..|legs| - 1]) + legs[|legs| - 1].duration
  }

  /** The totals add up over consecutive stretches of a route and stay
    * non-negative when every leg is. */
  lemma {:induction false} TotalsAppend(a: seq<Leg>, b: seq<Leg>)
    ensures TotalDistance(a + b) == TotalDistance(a) + TotalDistance(b)
    ensures TotalDuration(a + b) == TotalDuration(a) + TotalDuration(b)
    decreases |b|
  {
    if |b| > 0 {
      var b' := b[..|b| - 1];
      assert (a + b)[..|a + b| - 1] == a + b';
      TotalsAppend(a, b');
    } else {
      assert a + b == a;
    }
  }

  lemma {:induction false} TotalsNonNegative(legs: seq<Leg>)
    requires forall i :: 0 <= i < |legs| ==> legs[i].distance >= 0 && legs[i].duration >= 0
    ensures TotalDistance(legs) >= 0 && TotalDuration(legs) >= 0
    decreases |legs|
  {
    if |legs| > 0 {
      TotalsNonNegative(legs[..|legs| - 1]);
    }
  }

  /** The loop that sums `distance.value` and `duration.value` over the legs. */
  method SumLegs(legs: seq<Leg>) returns (distance: int, duration: int)
    ensures distance == TotalDistance(legs) && duration == TotalDuration(legs)
  {
    distance, duration := 0, 0;
    for i := 0 to |legs|
      invariant distance == TotalDistance(legs[..i])
      invariant duration == TotalDuration(legs[..i])
    {
      assert legs[..i + 1][..i] == legs[..i];
      distance := distance + legs[i].distance;
      duration := duration + legs[i].duration;
    }
    assert legs[..|legs|] == legs;
  }

  /** Python's `xs[i]`: a negative position counts from the end. */
  function PyIndex<T>(xs: seq<T>, i: int): (r: Option<T>)
    ensures r.Some? <==> -|xs| <= i < |xs|
    ensures 0 <= i < |xs| ==> r == Some(xs[i])
  {
    if 0 <= i < |xs| then Some(xs[i])
    else if -|xs| <= i < 0 then Some(xs[|xs| + i])
    else None
  }

  /** `[waypoints[idx] for idx in order]`, or `None` for the IndexError. */
  function Reorder(waypoints: seq<string>, order: seq<int>): (r: Option<seq<string>>)
    ensures r.Some? <==> forall j :: 0 <= j < |order| ==> -|waypoints| <= order[j] < |waypoints|
    ensures r.Some? ==> |r.value| == |order|
    ensures r.Some? ==> forall j :: 0 <= j < |order| ==> Some(r.value[j]) == PyIndex(waypoints, order[j])
    decreases |order|
  {
    if |order| == 0 then Some([])
    else
      var n := |order| - 1;
      match Reorder(waypoints, order[..n])
      case None => None
      case Some(prefix) =>
        match PyIndex(waypoints, order[n])
        case None => None
        case Some(w) => Some(prefix + [w])
  }

  /** `route_addresses`: the origin, then the waypoints in the provider's order
    * when that order is non-empty, else in input order. */
  function RouteAddresses(origin: string, waypoints: seq<string>, order: Option<seq<int>>): Option<seq<string>>
  {
    if order.Some? && |order.value| > 0 then
      match Reorder(waypoints, order.value)
      case None => None
      case Some(ws) => Some([origin] + ws)
    else Some([origin] + waypoints)
  }

  /** Reordering one more index appends the waypoint it selects, or fails
    * for the whole order when the index is out of range. */
  lemma ReorderStep(waypoints: seq<string>, idxs: seq<int>, i: nat)
    requires i < |idxs| && Reorder(waypoints, idxs[..i]).Some?
    ensures -|waypoints| <= idxs[i] < |waypoints| ==>
              PyIndex(waypoints, idxs[i]).Some? &&
              Reorder(waypoints, idxs[..i + 1]) ==
                Some(Reorder(waypoints, idxs[..i]).value + [PyIndex(waypoints, idxs[i]).value])
    ensures !(-|waypoints| <= idxs[i] < |waypoints|) ==> Reorder(waypoints, idxs).None?
  {
    assert idxs[..i + 1][..i] == idxs[..i];
  }

  /** The loop that builds `route_addresses`. */
  method BuildAddresses(origin: string, waypoints: seq<string>, order: Option<seq<int>>)
    returns (r: Option<seq<string>>)
    ensures r == RouteAddresses(origin, waypoints, order)
  {
    var routeAddresses := [origin];
    if order.Some? && |order.value| > 0 {
      var idxs := order.value;
      assert idxs[..0] == [] && routeAddresses[1..] == [];
      for i := 0 to |idxs|
        invariant |routeAddresses| >= 1 && routeAddresses[0] == origin
        invariant Reorder(waypoints, idxs[..i]) == Some(routeAddresses[1..])
      {
        var idx := idxs[i];
        ReorderStep(waypoints, idxs, i);
        if !(-|waypoints| <= idx < |waypoints|) {
          return None;
        }
        var w := if idx >= 0 then waypoints[idx] else waypoints[|waypoints| + idx];
        assert (routeAddresses + [w])[1..] == routeAddresses[1..] + [w];
        routeAddresses := routeAddresses + [w];
      }
      assert idxs[..|idxs|] == idxs;
      assert [origin] + routeAddresses[1..] == routeAddresses;
    } else {
      routeAddresses := routeAddresses + waypoints;
    }
    r := Some(routeAddresses);
  }

  /** `[0, 1, ..., n - 1]`. */
  function Indices(n: nat): (s: seq<int>)
    ensures |s| == n && forall i :: 0 <= i < n ==> s[i] == i
  {
    seq(n, i => i)
  }

  /** The provider's order is a permutation of the waypoint positions. */
  predicate IsPermutation(order: seq<int>, n: nat)
  {
    multiset(order) == multiset(Indices(n))
  }

  /** Every position lies in `[0, n)`. */
  predicate InRange(positions: seq<int>, n: nat)
  {
    forall j :: 0 <= j < |positions| ==> 0 <= positions[j] < n
  }

  /** The elements picked by in-range positions. */
  function Pick(ws: seq<string>, positions: seq<int>): (r: seq<string>)
    requires InRange(positions, |ws|)
    ensures |r| == |positions| && forall j :: 0 <= j < |positions| ==> r[j] == ws[positions[j]]
  {
    seq(|positions|, j requires 0 <= j < |positions| => ws[positions[j]])
  }

  /** Removing position `k` removes one occurrence of `b[k]`. */
  lemma MultisetRemoveAt<T>(b: seq<T>, k: nat)
    requires k < |b|
    ensures multiset(b) == multiset(b[..k] + b[k + 1..]) + multiset{b[k]}
  {
    assert b == b[..k] + [b[k]] + b[k + 1..];
  }

  /** The same one-element multiset cancels on both sides. */
  lemma CancelOne(m1: multiset<int>, m2: multiset<int>, x: int)
    requires m1 + multiset{x} == m2 + multiset{x}
    ensures m1 == m2
  {
    forall e ensures m1[e] == m2[e] {
      assert (m1 + multiset{x})[e] == (m2 + multiset{x})[e];
    }
  }

  /** Picking without position `k` picks one occurrence fewer of `ws[b[k]]`. */
  lemma PickRemoveAt(ws: seq<string>, b: seq<int>, k: nat)
    requires InRange(b, |ws|)
    requires k < |b|
    ensures InRange(b[..k] + b[k + 1..], |ws|)
    ensures multiset(Pick(ws, b)) == multiset(Pick(ws, b[..k] + b[k + 1..])) + multiset{ws[b[k]]}
  {
    var rest := b[..k] + b[k + 1..];
    assert forall j :: 0 <= j < |rest| ==> rest[j] == if j < k then b[j] else b[j + 1];
    MultisetRemoveAt(Pick(ws, b), k);
    assert Pick(ws, b)[..k] + Pick(ws, b)[k + 1..] == Pick(ws, rest);
  }

  /** A value in the multiset of a list sits at some position of it. */
  lemma PositionOf(b: seq<int>, x: int) returns (k: nat)
    requires x in multiset(b)
    ensures k < |b| && b[k] == x
  {
    k :| 0 <= k < |b| && b[k] == x;
  }

  /** Removing the same value from two permutations of each other leaves two
    * permutations of each other. */
  lemma RemoveFromBoth(a: seq<int>, b: seq<int>, k: nat)
    requires |a| > 0 && k < |b| && b[k] == a[0]
    requires multiset(a) == multiset(b)
    ensures multiset(a[1..]) == multiset(b[..k] + b[k + 1..])
  {
    MultisetRemoveAt(b, k);
    MultisetRemoveAt(a, 0);
    assert a[..0] + a[1..] == a[1..];
    CancelOne(multiset(a[1..]), multiset(b[..k] + b[k + 1..]), a[0]);
  }

  /** Picking without the first position picks one occurrence fewer of its element. */
  lemma PickRemoveFirst(ws: seq<string>, a: seq<int>)
    requires InRange(a, |ws|) && |a| > 0
    ensures InRange(a[1..], |ws|)
    ensures multiset(Pick(ws, a)) == multiset(Pick(ws, a[1..])) + multiset{ws[a[0]]}
  {
    PickRemoveAt(ws, a, 0);
    assert a[..0] + a[1..] == a[1..];
  }

  /** Picking by two position lists that are permutations of each other picks
    * the same multiset. */
  lemma {:induction false} PickPermutation(ws: seq<string>, a: seq<int>, b: seq<int>)
    requires InRange(a, |ws|) && InRange(b, |ws|)
    requires multiset(a) == multiset(b)
    ensures multiset(Pick(ws, a)) == multiset(Pick(ws, b))
    decreases |a|
  {
    if |a| == 0 {
      assert |b| == |multiset(b)| == |multiset(a)| == 0;
      assert Pick(ws, a) == [] == Pick(ws, b);
    } else {
      var x := a[0];
      var k := PositionOf(b, x);
      var rest := b[..k] + b[k + 1..];
      RemoveFromBoth(a, b, k);
      PickRemoveFirst(ws, a);
      PickRemoveAt(ws, b, k);
      PickPermutation(ws, a[1..], rest);
    }
  }

  /**
   * When the provider's order is a permutation of the waypoint positions, the
   * reordered waypoints are the waypoints permuted by it: nothing lost,
   * nothing repeated, and the one at position `j` is `waypoints[order[j]]`.
   */
  lemma ReorderPermutes(waypoints: seq<string>, order: seq<int>)
    requires IsPermutation(order, |waypoints|)
    ensures Reorder(waypoints, order).Some?
    ensures var r := Reorder(waypoints, order).value;
            |r| == |waypoints| && multiset(r) == multiset(waypoints) &&
            forall j :: 0 <= j < |order| ==> 0 <= order[j] < |waypoints| && r[j] == waypoints[order[j]]
  {
    var n := |waypoints|;
    PermutationInRange(order, n);
    ReorderIsPick(waypoints, order);
    PickPermutation(waypoints, order, Indices(n));
    assert Pick(waypoints, Indices(n)) == waypoints;
  }

  /** A permutation of `[0, n)` has `n` elements, all in range. */
  lemma PermutationInRange(order: seq<int>, n: nat)
    requires IsPermutation(order, n)
    ensures |order| == n && InRange(order, n)
  {
    assert |order| == n by {
      assert |multiset(order)| == |multiset(Indices(n))|;
    }
    forall j | 0 <= j < |order| ensures 0 <= order[j] < n {
      assert order[j] in multiset(Indices(n));
    }
  }

  /** With every index in range, reordering picks the indexed waypoints. */
  lemma ReorderIsPick(waypoints: seq<string>, order: seq<int>)
    requires InRange(order, |waypoints|)
    ensures Reorder(waypoints, order) == Some(Pick(waypoints, order))
  {
    var r := Reorder(waypoints, order).value;
    assert r == Pick(waypoints, order);
  }

  // ---------------------------------------------------------------------------
  // The error raised on a non-OK status
  // ---------------------------------------------------------------------------

  /** `waypoint.get('geocoder_status', 'UNKNOWN')`. */
  function StatusOf(w: GeocodedWaypoint): string
  {
    match w.geocoderStatus
    case Some(s) => s
    case None => UnknownStatus
  }

  /** One address the geocoder rejected, by its 0-based input position. */
  datatype GeocodeFailure = GeocodeFailure(position: nat, address: string, status: string)

  /** The rejected input addresses, matched by position against `all`; entries
    * beyond the input list are skipped. */
  function Failures(geocoded: seq<GeocodedWaypoint>, all: seq<string>): seq<GeocodeFailure>
    decreases |geocoded|
  {
    if |geocoded| == 0 then []
    else
      var i := |geocoded| - 1;
      Failures(geocoded[..i], all) + FailureAt(geocoded, all, i)
  }

  /** The failure at position `i`, if that position is in range and not `OK`. */
  function FailureAt(geocoded: seq<GeocodedWaypoint>, all: seq<string>, i: nat): seq<GeocodeFailure>
    requires i < |geocoded|
  {
    var status := StatusOf(geocoded[i]);
    if i < |all| && status != StatusOk then [GeocodeFailure(i, all[i], status)] else []
  }

  /** Each failure is an in-range position whose status is not `OK`, with its
    * input address and status. */
  predicate OnlyFailures(geocoded: seq<GeocodedWaypoint>, all: seq<string>, fs: seq<GeocodeFailure>)
  {
    forall k :: 0 <= k < |fs| ==>
      fs[k].position < |geocoded| && fs[k].position < |all| &&
      fs[k].address == all[fs[k].position] &&
      fs[k].status == StatusOf(geocoded[fs[k].position]) && fs[k].status != StatusOk
  }

  /** Positions strictly increase along the list. */
  predicate InPositionOrder(fs: seq<GeocodeFailure>)
  {
    forall k, l :: 0 <= k < l < |fs| ==> fs[k].position < fs[l].position
  }

  /** Every in-range position whose status is not `OK` is listed. */
  predicate EveryFailure(geocoded: seq<GeocodedWaypoint>, all: seq<string>, fs: seq<GeocodeFailure>)
  {
    forall i :: 0 <= i < |geocoded| && i < |all| && StatusOf(geocoded[i]) != StatusOk ==>
      exists k :: 0 <= k < |fs| && fs[k].position == i
  }

  lemma {:induction false} FailuresSound(geocoded: seq<GeocodedWaypoint>, all: seq<string>)
    ensures OnlyFailures(geocoded, all, Failures(geocoded, all))
    decreases |geocoded|
  {
    if |geocoded| > 0 {
      var i := |geocoded| - 1;
      FailuresSound(geocoded[..i], all);
      var fs, ps := Failures(geocoded, all), Failures(geocoded[..i], all);
      assert fs == ps + FailureAt(geocoded, all, i);
      assert forall k :: 0 <= k < |ps| ==> ps[k].position < i && geocoded[..i][ps[k].position] == geocoded[ps[k].position];
    }
  }

  lemma {:induction false} FailuresOrdered(geocoded: seq<GeocodedWaypoint>, all: seq<string>)
    ensures InPositionOrder(Failures(geocoded, all))
    decreases |geocoded|
  {
    if |geocoded| > 0 {
      var i := |geocoded| - 1;
      FailuresOrdered(geocoded[..i], all);
      FailuresSound(geocoded[..i], all);
      var fs, ps := Failures(geocoded, all), Failures(geocoded[..i], all);
      assert fs == ps + FailureAt(geocoded, all, i);
      assert forall k :: 0 <= k < |ps| ==> ps[k].position < i;
    }
  }

  lemma {:induction false} FailuresComplete(geocoded: seq<GeocodedWaypoint>, all: seq<string>)
    ensures EveryFailure(geocoded, all, Failures(geocoded, all))
    decreases |geocoded|
  {
    if |geocoded| > 0 {
      var i := |geocoded| - 1;
      var prev := geocoded[..i];
      FailuresComplete(prev, all);
      var fs, ps := Failures(geocoded, all), Failures(prev, all);
      assert fs == ps + FailureAt(geocoded, all, i);
      forall j | 0 <= j < |geocoded| && j < |all| && StatusOf(geocoded[j]) != StatusOk
        ensures exists k :: 0 <= k < |fs| && fs[k].position == j
      {
        if j < i {
          assert prev[j] == geocoded[j];
          var k :| 0 <= k < |ps| && ps[k].position == j;
          assert fs[k].position == j;
        } else {
          assert fs[|fs| - 1].position == j;
        }
      }
    }
  }

  /**
   * The failures are exactly the positions within both lists whose status is
   * not `OK`, in increasing order, each with its input address and status.
   */
  lemma FailuresExact(geocoded: seq<GeocodedWaypoint>, all: seq<string>)
    ensures OnlyFailures(geocoded, all, Failures(geocoded, all))
    ensures InPositionOrder(Failures(geocoded, all))
    ensures EveryFailure(geocoded, all, Failures(geocoded, all))
  {
    FailuresSound(geocoded, all);
    FailuresOrdered(geocoded, all);
    FailuresComplete(geocoded, all);
  }

  /** The two message lines per failure: `  - Address N: ...` (1-based) and its
    * geocoder status. */
  function FailureLines(fs: seq<GeocodeFailure>): (lines: seq<string>)
    ensures |lines| == 2 * |fs|
    decreases |fs|
  {
    if |fs| == 0 then []
    else
      var f := fs[|fs| - 1];
      FailureLines(fs[..|fs| - 1]) +
        ["  - Address " + NatToString(f.position + 1) + ": " + f.address,
         "    Geocoder Status: " + f.status]
  }

  /** The text of the listing line of the waypoint at 1-based position `n`. */
  function WaypointEntry(n: nat, waypoint: string): string
  {
    "  - Waypoint " + NatToString(n) + ": " + waypoint
  }

  /** That line with the line break before it, as the code appends it. */
  function WaypointLine(n: nat, waypoint: string): string
  {
    "\n" + WaypointEntry(n, waypoint)
  }

  /** The lines of the waypoint listing, numbered from 1. */
  function WaypointEntries(waypoints: seq<string>): seq<string>
  {
    seq(|waypoints|, i requires 0 <= i < |waypoints| => WaypointEntry(i + 1, waypoints[i]))
  }

  /** The listing used when the response carries no geocoding results. */
  function WaypointListing(waypoints: seq<string>): string
    decreases |waypoints|
  {
    if |waypoints| == 0 then ""
    else
      var n := |waypoints|;
      WaypointListing(waypoints[..n - 1]) + WaypointLine(n, waypoints[n - 1])
  }

  /** A listing line holds a line break only when its waypoint does. */
  lemma EntryFreeOfNewline(n: nat, waypoint: string)
    requires '\n' !in waypoint
    ensures '\n' !in WaypointEntry(n, waypoint)
  {
    var digits := NatToString(n);
    assert '\n' !in digits by {
      forall k | 0 <= k < |digits| ensures digits[k] != '\n' {
        assert '0' <= digits[k] <= '9';
      }
    }
    assert '\n' !in "  - Waypoint ";
    assert '\n' !in ": ";
  }

  /** The entries of a longer listing extend those of the shorter one. */
  lemma WaypointEntriesSnoc(waypoints: seq<string>)
    requires |waypoints| > 0
    ensures var n := |waypoints|;
            WaypointEntries(waypoints) ==
              WaypointEntries(waypoints[..n - 1]) + [WaypointEntry(n, waypoints[n - 1])]
  {
    var n := |waypoints|;
    var prev := waypoints[..n - 1];
    var es, e := WaypointEntries(prev), WaypointEntry(n, waypoints[n - 1]);
    forall i | 0 <= i < n ensures WaypointEntries(waypoints)[i] == (es + [e])[i] {
      if i < n - 1 {
        assert prev[i] == waypoints[i];
      }
    }
  }

  /** A non-empty listing is a line break followed by its lines joined by line breaks. */
  lemma {:induction false} WaypointListingJoined(waypoints: seq<string>)
    requires |waypoints| > 0
    ensures WaypointListing(waypoints) == "\n" + Join('\n', WaypointEntries(waypoints))
    decreases |waypoints|
  {
    var n := |waypoints|;
    var prev := waypoints[..n - 1];
    var e := WaypointEntry(n, waypoints[n - 1]);
    WaypointEntriesSnoc(waypoints);
    if n == 1 {
      assert prev == [];
      assert WaypointEntries(prev) + [e] == [e];
    } else {
      WaypointListingJoined(prev);
      JoinSnocLine(WaypointListing(prev), WaypointEntries(prev), e);
    }
  }

  /**
   * Read back line by line, a line `lead` followed by the waypoint listing is
   * `lead`, then `  - Waypoint <i>: <waypoint>` for each waypoint in order,
   * numbered from 1, when no waypoint holds a line break.
   */
  lemma WaypointListingLines(lead: string, waypoints: seq<string>)
    requires '\n' !in lead && FreeOf('\n', waypoints)
    ensures Split('\n', lead + WaypointListing(waypoints)) == [lead] + WaypointEntries(waypoints)
  {
    if |waypoints| == 0 {
      assert lead + WaypointListing(waypoints) == lead;
      SplitWhole('\n', lead);
    } else {
      var es := WaypointEntries(waypoints);
      WaypointListingJoined(waypoints);
      forall i | 0 <= i < |es| ensures '\n' !in es[i] {
        EntryFreeOfNewline(i + 1, waypoints[i]);
      }
      SplitJoin('\n', es);
      assert lead + WaypointListing(waypoints) == lead + ['\n'] + Join('\n', es);
      SplitPeel('\n', lead, Join('\n', es));
    }
  }

  /** The input-address listing as three short lines ahead of the origin line. */
  lemma InputListingText(origin: string, listing: string)
    ensures "\n\nInput addresses:" + "\n  - Origin: " + origin + listing ==
            "" + ['\n'] + "" + ['\n'] + "Input addresses:" + ['\n'] + ("  - Origin: " + origin + listing)
  {
    var top := "" + ['\n'] + "" + ['\n'] + "Input addresses:";
    var line := "  - Origin: " + origin;
    assert top == "\n\nInput addresses:";
    assert "\n  - Origin: " + origin == ['\n'] + line;
    assert top + ("\n  - Origin: " + origin) + listing == top + ['\n'] + (line + listing);
  }

  /** The input-address listing, line by line: two blank lines, the header,
    * the origin line, then one line per waypoint. */
  lemma InputListingLines(origin: string, waypoints: seq<string>)
    requires '\n' !in origin && FreeOf('\n', waypoints)
    ensures Split('\n', "\n\nInput addresses:" + "\n  - Origin: " + origin + WaypointListing(waypoints)) ==
            ["", "", "Input addresses:", "  - Origin: " + origin] + WaypointEntries(waypoints)
  {
    var originLine := "  - Origin: " + origin;
    var rest := originLine + WaypointListing(waypoints);
    var lines := [originLine] + WaypointEntries(waypoints);
    assert Split('\n', rest) == lines by {
      assert '\n' !in originLine by {
        assert '\n' !in "  - Origin: ";
      }
      WaypointListingLines(originLine, waypoints);
    }
    var header := "Input addresses:";
    var text := "" + ['\n'] + "" + ['\n'] + header + ['\n'] + rest;
    assert Split('\n', text) == ["", "", header] + lines by {
      assert '\n' !in header;
      SplitPeel3('\n', "", "", header, rest);
    }
    InputListingText(origin, WaypointListing(waypoints));
    assert ["", "", header] + lines == ["", "", header, originLine] + WaypointEntries(waypoints);
  }

  /** The body of the detailed message: the failed addresses, or all input
    * addresses when the response names none. */
  function GeocodeDetail(resp: Response, origin: string, waypoints: seq<string>): string
  {
    if resp.geocodedWaypoints.Some? && |resp.geocodedWaypoints.value| > 0 then
      var fs := Failures(resp.geocodedWaypoints.value, [origin] + waypoints);
      if |fs| > 0 then "\n\nInvalid or not found addresses:\n" + Join('\n', FailureLines(fs)) else ""
    else "\n\nInput addresses:" + "\n  - Origin: " + origin + WaypointListing(waypoints)
  }

  /** The ValueError message: the status, then in the package variant the
    * geocoding detail and the provider's own message. */
  function ProviderMessage(resp: Response, origin: string, waypoints: seq<string>, detailed: bool): string
  {
    if !detailed then ErrorPrefix + resp.status
    else
      ErrorPrefix + resp.status + GeocodeDetail(resp, origin, waypoints) +
        (if resp.errorMessage.Some? then "\n\nAPI Message: " + resp.errorMessage.value else "")
  }

  /** Both variants lead with the status; the single-file one says nothing else. */
  lemma ProviderMessageLeadsWithStatus(resp: Response, origin: string, waypoints: seq<string>, detailed: bool)
    ensures ErrorPrefix + resp.status <= ProviderMessage(resp, origin, waypoints, detailed)
    ensures !detailed ==> ProviderMessage(resp, origin, waypoints, detailed) == ErrorPrefix + resp.status
    ensures detailed && resp.errorMessage.Some? ==>
              var m := ProviderMessage(resp, origin, waypoints, detailed);
              var tail := "\n\nAPI Message: " + resp.errorMessage.value;
              |tail| <= |m| && m[|m| - |tail|..] == tail
  {
    var m := ProviderMessage(resp, origin, waypoints, detailed);
    if detailed {
      var head := ErrorPrefix + resp.status;
      var mid := GeocodeDetail(resp, origin, waypoints);
      var tail := if resp.errorMessage.Some? then "\n\nAPI Message: " + resp.errorMessage.value else "";
      assert m == head + (mid + tail);
      assert m[..|head|] == head;
      assert m[|m| - |tail|..] == tail;
    }
  }

  /** The loop over `geocoded_waypoints` that collects the failure lines. */
  method CollectFailureLines(geocoded: seq<GeocodedWaypoint>, all: seq<string>) returns (failed: seq<string>)
    ensures failed == FailureLines(Failures(geocoded, all))
  {
    failed := [];
    for i := 0 to |geocoded|
      invariant failed == FailureLines(Failures(geocoded[..i], all))
    {
      assert geocoded[..i + 1][..i] == geocoded[..i];
      assert geocoded[..i + 1][i] == geocoded[i];
      ghost var fs := Failures(geocoded[..i + 1], all);
      if i < |all| && StatusOf(geocoded[i]) != StatusOk {
        var status := StatusOf(geocoded[i]);
        assert fs == Failures(geocoded[..i], all) + [GeocodeFailure(i, all[i], status)];
        assert fs[..|fs| - 1] == Failures(geocoded[..i], all);
        assert fs[|fs| - 1] == GeocodeFailure(i, all[i], status);
        failed := failed + ["  - Address " + NatToString(i + 1) + ": " + all[i], "    Geocoder Status: " + status];
        assert failed == FailureLines(fs);
      } else {
        assert fs == Failures(geocoded[..i], all);
      }
    }
    assert geocoded[..|geocoded|] == geocoded;
  }

  /** The listing of every input address, built as the code builds it. */
  method ListInputAddresses(origin: string, waypoints: seq<string>) returns (text: string)
    ensures text == "\n\nInput addresses:" + "\n  - Origin: " + origin + WaypointListing(waypoints)
    ensures '\n' !in origin && FreeOf('\n', waypoints) ==>
              Split('\n', text) == ["", "", "Input addresses:", "  - Origin: " + origin] + WaypointEntries(waypoints)
  {
    text := "\n\nInput addresses:";
    text := text + "\n  - Origin: " + origin;
    var listing := ListWaypoints(waypoints);
    text := text + listing;
    if '\n' !in origin && FreeOf('\n', waypoints) {
      InputListingLines(origin, waypoints);
    }
  }

  /** The loop that lists the waypoints, 1-based. */
  method ListWaypoints(waypoints: seq<string>) returns (listing: string)
    ensures listing == WaypointListing(waypoints)
    ensures FreeOf('\n', waypoints) ==> Split('\n', listing) == [""] + WaypointEntries(waypoints)
  {
    listing := "";
    for i := 0 to |waypoints|
      invariant listing == WaypointListing(waypoints[..i])
    {
      assert waypoints[..i + 1][..i] == waypoints[..i];
      listing := listing + WaypointLine(i + 1, waypoints[i]);
    }
    assert waypoints[..|waypoints|] == waypoints;
    if FreeOf('\n', waypoints) {
      WaypointListingLines("", waypoints);
      assert "" + listing == listing;
    }
  }

  /** The geocoding part of the detailed message. */
  method DescribeGeocoding(resp: Response, origin: string, waypoints: seq<string>) returns (text: string)
    ensures text == GeocodeDetail(resp, origin, waypoints)
  {
    if resp.geocodedWaypoints.Some? && |resp.geocodedWaypoints.value| > 0 {
      var failed := CollectFailureLines(resp.geocodedWaypoints.value, [origin] + waypoints);
      text := if |failed| > 0 then "\n\nInvalid or not found addresses:\n" + Join('\n', failed) else "";
    } else {
      text := ListInputAddresses(origin, waypoints);
    }
  }

  /** The package variant's message, built as the code builds it. */
  method DetailedMessage(resp: Response, origin: string, waypoints: seq<string>) returns (msg: string)
    ensures msg == ProviderMessage(resp, origin, waypoints, true)
  {
    var detail := DescribeGeocoding(resp, origin, waypoints);
    msg := ErrorPrefix + resp.status + detail;
    if resp.errorMessage.Some? {
      msg := msg + "\n\nAPI Message: " + resp.errorMessage.value;
    }
  }

  // ---------------------------------------------------------------------------
  // get_route_with_waypoints and optimize_route, as functions of the state
  // ---------------------------------------------------------------------------

  /** The record for a response to a request that missed the cache. */
  function BuildRecord(resp: Response, origin: string, waypoints: seq<string>, optimize: bool, detailed: bool)
    : Result<RouteRecord, RouteError>
  {
    if resp.status != StatusOk then Err(ProviderError(ProviderMessage(resp, origin, waypoints, detailed)))
    else if |resp.routes| == 0 then Err(IndexError)
    else
      var route := resp.routes[0];
      var order := if optimize && route.waypointOrder.Some? then route.waypointOrder else None;
      match RouteAddresses(origin, waypoints, order)
      case None => Err(IndexError)
      case Some(addresses) =>
        Ok(RouteRecord(addresses, TotalDistance(route.legs), TotalDuration(route.legs), order))
  }

  /**
   * What an `OK` response becomes: totals are the leg sums; the order is kept
   * only for an optimised request whose route carries one; addresses start at
   * the origin and follow the input order unless that order is non-empty, and
   * then follow it as a permutation when it is one.
   */
  lemma BuildRecordOk(resp: Response, origin: string, waypoints: seq<string>, optimize: bool, detailed: bool)
    requires resp.status == StatusOk && |resp.routes| > 0
    ensures var route := resp.routes[0];
            var r := BuildRecord(resp, origin, waypoints, optimize, detailed);
            (r.Ok? ==>
               r.value.distanceM == TotalDistance(route.legs) &&
               r.value.durationS == TotalDuration(route.legs) &&
               r.value.addresses[0] == origin &&
               (r.value.waypointOrder.Some? <==> optimize && route.waypointOrder.Some?)) &&
            (!optimize || route.waypointOrder.None? || route.waypointOrder.value == [] ==>
               r.Ok? && r.value.addresses == [origin] + waypoints) &&
            (optimize && route.waypointOrder.Some? && IsPermutation(route.waypointOrder.value, |waypoints|) ==>
               var order := route.waypointOrder.value;
               r.Ok? && r.value.waypointOrder == Some(order) &&
               |r.value.addresses| == |waypoints| + 1 &&
               multiset(r.value.addresses[1..]) == multiset(waypoints) &&
               forall j :: 0 <= j < |order| ==>
                 0 <= order[j] < |waypoints| && r.value.addresses[j + 1] == waypoints[order[j]])
  {
    var route := resp.routes[0];
    if optimize && route.waypointOrder.Some? && IsPermutation(route.waypointOrder.value, |waypoints|) {
      var order := route.waypointOrder.value;
      ReorderPermutes(waypoints, order);
      if |order| > 0 {
        var ws := Reorder(waypoints, order).value;
        assert ([origin] + ws)[1..] == ws;
      } else {
        assert |waypoints| == 0 by {
          assert |multiset(order)| == |multiset(Indices(|waypoints|))|;
        }
      }
    }
  }

  /** A non-OK status always raises, in the single-file variant with the status alone. */
  lemma BuildRecordNotOk(resp: Response, origin: string, waypoints: seq<string>, optimize: bool, detailed: bool)
    requires resp.status != StatusOk
    ensures var r := BuildRecord(resp, origin, waypoints, optimize, detailed);
            r.Err? && r.error.ProviderError? &&
            (!detailed ==> r.error.message == ErrorPrefix + resp.status) &&
            ErrorPrefix + resp.status <= r.error.message
  {
    ProviderMessageLeadsWithStatus(resp, origin, waypoints, detailed);
  }

  /** The store's files. */
  type Files = map<Cache.Key, Cache.Entry<RouteRecord>>

  /** The result of one call together with the files and the provider requests after it. */
  datatype Outcome<T> = Outcome(result: Result<T, RouteError>, files: Files, requests: seq<Cache.Params>)

  /** `get_route_with_waypoints` as a function of the files and the requests so far. */
  function Fetch(config: Config, initialized: bool, files: Files, requests: seq<Cache.Params>,
                 origin: string, waypoints: seq<string>, optimize: bool, now: int): Outcome<RouteRecord>
  {
    if |waypoints| == 0 then Outcome(Err(IndexError), files, requests)
    else
      var key := RouteKey(config.digest, origin, waypoints, optimize);
      var remaining := Cache.AfterLookup(files, key, now);
      match Cache.Lookup(files, key, now)
      case Hit(record) => Outcome(Ok(record), remaining, requests)
      case Raised => Outcome(Err(CacheReadError), remaining, requests)
      case Miss =>
        var params := RequestParams(origin, waypoints, optimize, config.apiKey);
        var built := BuildRecord(config.provider(params), origin, waypoints, optimize, config.detailedErrors);
        var sent := requests + [params];
        if built.Err? then Outcome(built, remaining, sent)
        else if !initialized then Outcome(Err(CacheDirMissing), remaining, sent)
        else Outcome(built, remaining[key := Cache.Stored(now, built.value)], sent)
  }

  /** A cache hit returns the cached record and sends nothing; a miss sends
    * exactly one request, with the credential. */
  lemma FetchRequests(config: Config, initialized: bool, files: Files, requests: seq<Cache.Params>,
                      origin: string, waypoints: seq<string>, optimize: bool, now: int)
    requires |waypoints| > 0
    ensures var key := RouteKey(config.digest, origin, waypoints, optimize);
            var o := Fetch(config, initialized, files, requests, origin, waypoints, optimize, now);
            (Cache.Lookup(files, key, now).Hit? ==>
               o.result == Ok(Cache.Lookup(files, key, now).data) && o.requests == requests && o.files == files) &&
            (Cache.Lookup(files, key, now).Raised? ==>
               o == Outcome(Err(CacheReadError), files, requests)) &&
            (Cache.Lookup(files, key, now).Miss? ==>
               o.requests == requests + [RequestParams(origin, waypoints, optimize, config.apiKey)])
  {
  }

  /**
   * A second identical call within the TTL of a successful one that missed
   * the cache returns the same record and sends no request.
   */
  lemma FetchTwiceServedFromCache(config: Config, files: Files, requests: seq<Cache.Params>,
                                  origin: string, waypoints: seq<string>, optimize: bool, t: int, now: int)
    requires |waypoints| > 0
    requires Cache.Lookup(files, RouteKey(config.digest, origin, waypoints, optimize), t).Miss?
    requires Fetch(config, true, files, requests, origin, waypoints, optimize, t).result.Ok?
    requires now <= t + Cache.TtlSeconds
    ensures var first := Fetch(config, true, files, requests, origin, waypoints, optimize, t);
            var second := Fetch(config, true, first.files, first.requests, origin, waypoints, optimize, now);
            second == first
  {
    var key := RouteKey(config.digest, origin, waypoints, optimize);
    var first := Fetch(config, true, files, requests, origin, waypoints, optimize, t);
    Cache.SaveThenLookup(Cache.AfterLookup(files, key, t), key, first.result.value, t, now);
  }

  /** Two stops and one 5 km, 10 minute leg: the record holds both stops and the
    * leg's totals, and asking again sends no second request. */
  lemma EndToEndTwoStops(digest: Cache.Params -> Cache.Key, origin: string, destination: string, t: int)
    ensures var ok := Response(StatusOk, [Route([Leg(5000, 600)], None)], None, None);
            var config := Config(Some("k"), digest, _ => ok, true);
            var first := Fetch(config, true, map[], [], origin, [destination], false, t);
            var second := Fetch(config, true, first.files, first.requests, origin, [destination], false, t);
            first.result == Ok(RouteRecord([origin, destination], 5000, 600, None)) &&
            |first.requests| == 1 && second.requests == first.requests && second.result == first.result
  {
    var ok := Response(StatusOk, [Route([Leg(5000, 600)], None)], None, None);
    var config := Config(Some("k"), digest, _ => ok, true);
    var legs := [Leg(5000, 600)];
    assert legs[..0] == [];
    assert TotalDistance(legs) == 5000 && TotalDuration(legs) == 600;
    var key := RouteKey(digest, origin, [destination], false);
    assert Cache.Lookup<RouteRecord>(map[], key, t).Miss?;
    var params := RequestParams(origin, [destination], false, Some("k"));
    assert config.provider(params) == ok;
    assert [origin] + [destination] == [origin, destination];
    assert RouteAddresses(origin, [destination], None) == Some([origin, destination]);
    assert ok.routes[0].legs == legs;
    assert BuildRecord(ok, origin, [destination], false, true) == Ok(RouteRecord([origin, destination], 5000, 600, None));
    FetchTwiceServedFromCache(config, map[], [], origin, [destination], false, t, t);
  }

  /** The credential is present and not empty. */
  predicate HasKey(apiKey: Option<string>)
  {
    apiKey.Some? && apiKey.value != ""
  }

  /** `optimize_route` as a function of the files and the requests so far:
    * the checks, then the input-order fetch, then the optimised one. */
  function Optimize(config: Config, initialized: bool, files: Files, requests: seq<Cache.Params>,
                    addresses: seq<string>, now: int): Outcome<(RouteRecord, RouteRecord)>
  {
    if !HasKey(config.apiKey) then Outcome(Err(ConfigurationError(MissingKeyMessage)), files, requests)
    else if |addresses| < 2 then Outcome(Err(ConfigurationError(TooFewMessage)), files, requests)
    else
      var origin, waypoints := addresses[0], addresses[1..];
      var original := Fetch(config, initialized, files, requests, origin, waypoints, false, now);
      if original.result.Err? then Outcome(Err(original.result.error), original.files, original.requests)
      else
        var optimized := Fetch(config, initialized, original.files, original.requests, origin, waypoints, true, now);
        if optimized.result.Err? then Outcome(Err(optimized.result.error), optimized.files, optimized.requests)
        else Outcome(Ok((original.result.value, optimized.result.value)), optimized.files, optimized.requests)
  }

  /**
   * `optimize_route` rejects a missing credential and fewer than two
   * addresses before any request; otherwise, when neither call is served
   * from the cache, it sends the input-order request first and the optimised
   * one second, both with the first address as origin and the rest as
   * waypoints.
   */
  lemma OptimizeOrder(config: Config, initialized: bool, files: Files, requests: seq<Cache.Params>,
                      addresses: seq<string>, now: int)
    ensures var o := Optimize(config, initialized, files, requests, addresses, now);
            (!HasKey(config.apiKey) || |addresses| < 2 ==> o.result.Err? && o.requests == requests && o.files == files)
    ensures HasKey(config.apiKey) && |addresses| >= 2 ==>
              var o := Optimize(config, initialized, files, requests, addresses, now);
              var origin, waypoints := addresses[0], addresses[1..];
              var first := Fetch(config, initialized, files, requests, origin, waypoints, false, now);
              var k1 := RouteKey(config.digest, origin, waypoints, false);
              var k2 := RouteKey(config.digest, origin, waypoints, true);
              Cache.Lookup(files, k1, now).Miss? && first.result.Ok? &&
              Cache.Lookup(first.files, k2, now).Miss? ==>
                o.requests == requests + [RequestParams(origin, waypoints, false, config.apiKey),
                                          RequestParams(origin, waypoints, true, config.apiKey)]
  {
  }

  // ---------------------------------------------------------------------------
  // The client
  // ---------------------------------------------------------------------------

  /** The module state of the client: its configuration, the cache store, and
    * the requests sent to the provider so far. */
  class Client {
    const config: Config
    const cache: Cache.Store<RouteRecord>
    var requests: seq<Cache.Params>

    ghost predicate Valid()
      reads this, cache
    {
      cache.Valid()
    }

    constructor (config: Config, cache: Cache.Store<RouteRecord>)
      requires cache.Valid()
      ensures Valid() && this.cache == cache && requests == []
      ensures this.config.apiKey == config.apiKey && this.config.detailedErrors == config.detailedErrors
      ensures this.config.digest == config.digest && this.config.provider == config.provider
    {
      this.config := config;
      this.cache := cache;
      requests := [];
    }

    /** `get_route_with_waypoints`. */
    method GetRoute(origin: string, waypoints: seq<string>, optimize: bool, now: int)
      returns (r: Result<RouteRecord, RouteError>)
      requires Valid()
      modifies this, cache
      ensures Valid() && cache.initialized == old(cache.initialized)
      ensures Outcome(r, cache.entries, requests) ==
              Fetch(config, cache.initialized, old(cache.entries), old(requests), origin, waypoints, optimize, now)
    {
      if |waypoints| == 0 {
        return Err(IndexError);
      }
      var waypointsParam := Join('|', waypoints);
      if optimize {
        waypointsParam := OptimizeMarker + waypointsParam;
      }
      var cacheParams := [("origin", origin), ("destination", waypoints[|waypoints| - 1]),
                          ("waypoints", waypointsParam), ("mode", TravelMode)];
      var key := Cache.CacheKey(config.digest, cacheParams);
      var cached := cache.Get(key, now);
      if cached.Hit? {
        return Ok(cached.data);
      }
      if cached.Raised? {
        return Err(CacheReadError);
      }
      var params := cacheParams + (if config.apiKey.Some? then [("key", config.apiKey.value)] else []);
      requests := requests + [params];
      var data := config.provider(params);
      if data.status == StatusOk {
        if |data.routes| == 0 {
          return Err(IndexError);
        }
        var route := data.routes[0];
        var distance, duration := SumLegs(route.legs);
        var order: Option<seq<int>> := None;
        if optimize && route.waypointOrder.Some? {
          order := route.waypointOrder;
        }
        var addresses := BuildAddresses(origin, waypoints, order);
        if addresses.None? {
          return Err(IndexError);
        }
        var result := RouteRecord(addresses.value, distance, duration, order);
        var saved := cache.Save(key, result, now);
        if !saved {
          return Err(CacheDirMissing);
        }
        r := Ok(result);
      } else {
        var message: string;
        if config.detailedErrors {
          message := DetailedMessage(data, origin, waypoints);
        } else {
          message := ErrorPrefix + data.status;
        }
        r := Err(ProviderError(message));
      }
    }

    /** `optimize_route`. */
    method OptimizeRoute(addresses: seq<string>, now: int) returns (r: Result<(RouteRecord, RouteRecord), RouteError>)
      requires Valid()
      modifies this, cache
      ensures Valid() && cache.initialized == old(cache.initialized)
      ensures Outcome(r, cache.entries, requests) ==
              Optimize(config, cache.initialized, old(cache.entries), old(requests), addresses, now)
    {
      if !HasKey(config.apiKey) {
        return Err(ConfigurationError(MissingKeyMessage));
      }
      if |addresses| < 2 {
        return Err(ConfigurationError(TooFewMessage));
      }
      var origin := addresses[0];
      var waypoints := addresses[1..];
      var original := GetRoute(origin, waypoints, false, now);
      if original.Err? {
        return Err(original.error);
      }
      var optimized := GetRoute(origin, waypoints, true, now);
      if optimized.Err? {
        return Err(optimized.error);
      }
      r := Ok((original.value, optimized.value));
    }
  }
}
