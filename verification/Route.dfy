/** A technician's day: scheduled stops in time order, then the others by nearest neighbour, then those
    without coordinates. Distance is any function of two places. */
module Route {
  import opened Prelude

  datatype Place = Place(lat: real, lng: real)

  /** place is there when both coordinates are. */
  datatype Stop = Stop(id: string, start: Option<int>, place: Option<Place>)

  type Distance = (Place, Place) -> real

  function Filter(stops: seq<Stop>, keep: Stop -> bool): (r: seq<Stop>)
    ensures forall s | s in r :: keep(s)
  {
    if stops == [] then [] else (if keep(stops[0]) then [stops[0]] else []) + Filter(stops[1..], keep)
  }

  lemma {:induction false} FilterSplits(stops: seq<Stop>, keep: Stop -> bool, drop: Stop -> bool)
    requires forall s: Stop :: drop(s) <==> !keep(s)
    ensures multiset(Filter(stops, keep)) + multiset(Filter(stops, drop)) == multiset(stops)
  {
    if stops != [] {
      FilterSplits(stops[1..], keep, drop);
      assert stops == [stops[0]] + stops[1..];
    }
  }

  // ---------------------------------------------------------------------------------------------
  // Scheduled stops
  // ---------------------------------------------------------------------------------------------

  predicate IsScheduled(s: Stop) {
    s.start.Some?
  }

  predicate IsFloating(s: Stop) {
    s.start.None?
  }

  predicate IsLocated(s: Stop) {
    s.place.Some?
  }

  predicate IsUnlocated(s: Stop) {
    s.place.None?
  }

  /** The start of a scheduled stop. */
  function Time(s: Stop): int {
    if s.start.Some? then s.start.value else 0
  }

  function InsertByTime(s: Stop, stops: seq<Stop>): (r: seq<Stop>)
    ensures multiset(r) == multiset([s] + stops)
  {
    if stops == [] || Time(s) <= Time(stops[0]) then [s] + stops
    else
      assert [s] + stops == [s, stops[0]] + stops[1..];
      [stops[0]] + InsertByTime(s, stops[1..])
  }

  /** The stable sort by start time. */
  function SortByTime(stops: seq<Stop>): (r: seq<Stop>)
    ensures multiset(r) == multiset(stops)
  {
    if stops == [] then []
    else
      assert stops == [stops[0]] + stops[1..];
      InsertByTime(stops[0], SortByTime(stops[1..]))
  }

  predicate InTimeOrder(stops: seq<Stop>) {
    forall j, k | 0 <= j < k < |stops| :: Time(stops[j]) <= Time(stops[k])
  }

  function At(time: int): Stop -> bool {
    (s: Stop) => s.start == Some(time)
  }

  lemma {:induction false} InsertKeepsOrder(s: Stop, stops: seq<Stop>)
    requires InTimeOrder(stops)
    ensures InTimeOrder(InsertByTime(s, stops))
  {
    if stops != [] && Time(s) > Time(stops[0]) {
      InsertKeepsOrder(s, stops[1..]);
      var rest := InsertByTime(s, stops[1..]);
      forall k | 0 <= k < |rest| ensures Time(stops[0]) <= Time(rest[k]) {
        assert rest[k] in multiset(rest);
        assert rest[k] == s || rest[k] in stops[1..];
      }
    }
  }

  lemma FilterCons(s: Stop, stops: seq<Stop>, keep: Stop -> bool)
    ensures Filter([s] + stops, keep) == (if keep(s) then [s] else []) + Filter(stops, keep)
  {
    assert ([s] + stops)[1..] == stops;
  }

  lemma FilterPasses(s: Stop, x: Stop, stops: seq<Stop>, time: int)
    requires Time(x) < Time(s)
    ensures Filter([x] + ([s] + stops), At(time)) == Filter([s] + ([x] + stops), At(time))
  {
    FilterCons(x, [s] + stops, At(time));
    FilterCons(s, stops, At(time));
    FilterCons(s, [x] + stops, At(time));
    FilterCons(x, stops, At(time));
  }

  lemma {:induction false} InsertIsStable(s: Stop, stops: seq<Stop>, time: int)
    ensures Filter(InsertByTime(s, stops), At(time)) == Filter([s] + stops, At(time))
  {
    if stops != [] && Time(s) > Time(stops[0]) {
      var x, rest := stops[0], stops[1..];
      InsertIsStable(s, rest, time);
      FilterCons(x, InsertByTime(s, rest), At(time));
      FilterCons(x, [s] + rest, At(time));
      FilterPasses(s, x, rest, time);
      assert stops == [x] + rest;
    }
  }

  /** The scheduled stops come in time order, and stops with the same time keep their order. */
  lemma {:induction false} SortIsStable(stops: seq<Stop>, time: int)
    ensures InTimeOrder(SortByTime(stops))
    ensures Filter(SortByTime(stops), At(time)) == Filter(stops, At(time))
  {
    if stops != [] {
      var sorted := SortByTime(stops[1..]);
      SortIsStable(stops[1..], time);
      InsertKeepsOrder(stops[0], sorted);
      InsertIsStable(stops[0], sorted, time);
      assert ([stops[0]] + sorted)[1..] == sorted;
    }
  }

  /** place is that of the last stop that has one. */
  ghost predicate IsLastPlace(stops: seq<Stop>, place: Option<Place>) {
    if place == None then forall k | 0 <= k < |stops| :: stops[k].place == None
    else exists k | 0 <= k < |stops| ::
           stops[k].place == place && forall m | k < m < |stops| :: stops[m].place == None
  }

  lemma {:induction false} LastPlaceIs(stops: seq<Stop>)
    ensures IsLastPlace(stops, LastPlace(stops))
  {
    if stops != [] {
      var n := |stops| - 1;
      LastPlaceIs(stops[..n]);
      if stops[n].place != None {
        assert LastPlace(stops) == stops[n].place;
      } else if LastPlace(stops) != None {
        var k :| 0 <= k < n && stops[..n][k].place == LastPlace(stops)
                 && forall m | k < m < n :: stops[..n][m].place == None;
        assert stops[k].place == LastPlace(stops) && forall m | k < m < |stops| :: stops[m].place == None;
      } else {
        assert forall k | 0 <= k < n :: stops[k] == stops[..n][k];
      }
    }
  }

  function LastPlace(stops: seq<Stop>): Option<Place> {
    if stops == [] then None
    else if IsLocated(stops[|stops| - 1]) then stops[|stops| - 1].place
    else LastPlace(stops[..|stops| - 1])
  }

  // ---------------------------------------------------------------------------------------------
  // Nearest neighbours
  // ---------------------------------------------------------------------------------------------

  /** The place of the i-th stop. */
  function Spot(located: seq<Stop>, i: nat): Place {
    if i < |located| && IsLocated(located[i]) then located[i].place.value else Place(0.0, 0.0)
  }

  /** From here, the stop at i goes before the one at j: it is nearer, or as near and earlier in the list.
      Without a known place the list order decides. */
  predicate Before(km: Distance, located: seq<Stop>, here: Option<Place>, i: nat, j: nat) {
    if here.None? then i <= j
    else
      var a, b := km(here.value, Spot(located, i)), km(here.value, Spot(located, j));
      a < b || (a == b && i <= j)
  }

  predicate Indices(located: seq<Stop>, picks: seq<nat>) {
    && (forall s | s in located :: IsLocated(s))
    && (forall k | 0 <= k < |picks| :: picks[k] < |located|)
    && forall j, k | 0 <= j < k < |picks| :: picks[j] != picks[k]
  }

  /** Where the technician stands before the k-th pick. */
  function HereBefore(located: seq<Stop>, first: Option<Place>, picks: seq<nat>, k: nat): Option<Place> {
    if 0 < k <= |picks| then var p := k - 1; Some(Spot(located, picks[p])) else first
  }

  /** Every pick goes before all later picks, from where the technician then stands. */
  ghost predicate Greedy(km: Distance, located: seq<Stop>, first: Option<Place>, picks: seq<nat>) {
    forall k, m | 0 <= k < m < |picks| :: Before(km, located, HereBefore(located, first, picks, k), picks[k], picks[m])
  }

  function Pick(located: seq<Stop>, picks: seq<nat>): (r: seq<Stop>)
    requires forall k | 0 <= k < |picks| :: picks[k] < |located|
    ensures |r| == |picks| && forall k | 0 <= k < |picks| :: r[k] == located[picks[k]]
  {
    seq(|picks|, k requires 0 <= k < |picks| => located[picks[k]])
  }

  /** Orders that agree up to p agree at p as well: the pick of either goes before the other's. */
  lemma SamePick(km: Distance, located: seq<Stop>, first: Option<Place>, ps: seq<nat>, qs: seq<nat>, p: nat, i: nat,
                 j: nat)
    requires Indices(located, ps) && Indices(located, qs) && |ps| == |qs|
    requires Greedy(km, located, first, ps) && Greedy(km, located, first, qs)
    requires p < |ps| && forall k | 0 <= k < p :: ps[k] == qs[k]
    requires i < |ps| && j < |qs| && ps[i] == qs[p] && qs[j] == ps[p]
    ensures ps[p] == qs[p]
  {
    assert i >= p && j >= p;
    assert HereBefore(located, first, ps, p) == HereBefore(located, first, qs, p);
  }

  ghost function SomeIndex(xs: seq<nat>, x: nat): (i: nat)
    requires x in xs
    ensures i < |xs| && xs[i] == x
  {
    var i :| 0 <= i < |xs| && xs[i] == x;
    i
  }

  lemma NextPick(km: Distance, located: seq<Stop>, first: Option<Place>, ps: seq<nat>, qs: seq<nat>, p: nat)
    requires Indices(located, ps) && Indices(located, qs) && |ps| == |qs| && multiset(ps) == multiset(qs)
    requires Greedy(km, located, first, ps) && Greedy(km, located, first, qs)
    requires p < |ps| && ps[..p] == qs[..p]
    ensures ps[..p + 1] == qs[..p + 1]
  {
    forall k | 0 <= k < p ensures ps[k] == qs[k] {
      assert ps[..p][k] == qs[..p][k];
    }
    assert ps[p] in multiset(qs) && qs[p] in multiset(ps);
    var i, j := SomeIndex(ps, qs[p]), SomeIndex(qs, ps[p]);
    SamePick(km, located, first, ps, qs, p, i, j);
    assert ps[..p + 1] == ps[..p] + [ps[p]] && qs[..p + 1] == qs[..p] + [qs[p]];
  }

  /** The nearest-neighbour order is determined: no two different orders are greedy. */
  lemma GreedyIsUnique(km: Distance, located: seq<Stop>, first: Option<Place>, ps: seq<nat>, qs: seq<nat>)
    requires Indices(located, ps) && Indices(located, qs) && |ps| == |qs| && multiset(ps) == multiset(qs)
    requires Greedy(km, located, first, ps) && Greedy(km, located, first, qs)
    ensures ps == qs
  {
    for p := 0 to |ps|
      invariant ps[..p] == qs[..p]
    {
      NextPick(km, located, first, ps, qs, p);
    }
    assert ps[..|ps|] == ps && qs[..|qs|] == qs;
  }

  /** The index loop over the pool: the first stop at the smallest distance. */
  method Nearest(km: Distance, pool: seq<Stop>, here: Option<Place>) returns (best: nat)
    requires pool != [] && forall k | 0 <= k < |pool| :: IsLocated(pool[k])
    ensures best < |pool|
    ensures forall k | 0 <= k < |pool| :: Before(km, pool, here, best, k)
  {
    best := 0;
    if here.Some? {
      var bestKm: Option<real> := None;
      for i := 0 to |pool|
        invariant best < |pool| && (i > 0 ==> best < i)
        invariant i == 0 <==> bestKm == None
        invariant i > 0 ==> bestKm == Some(km(here.value, Spot(pool, best)))
        invariant forall k | 0 <= k < i :: bestKm.value <= km(here.value, Spot(pool, k))
        invariant forall k | 0 <= k < i && k < best :: bestKm.value < km(here.value, Spot(pool, k))
      {
        var distance := km(here.value, Spot(pool, i));
        if bestKm.None? || distance < bestKm.value {
          bestKm := Some(distance);
          best := i;
        }
      }
    }
  }

  function Scheduled(stops: seq<Stop>): seq<Stop> {
    SortByTime(Filter(stops, IsScheduled))
  }

  function Located(stops: seq<Stop>): seq<Stop> {
    Filter(Filter(stops, IsFloating), IsLocated)
  }

  function Unlocated(stops: seq<Stop>): seq<Stop> {
    Filter(Filter(stops, IsFloating), IsUnlocated)
  }

  /** Among the stops visited and left, every pick went before those visited later and those left. */
  ghost predicate Visiting(km: Distance, located: seq<Stop>, first: Option<Place>, picks: seq<nat>, left: seq<nat>) {
    && Indices(located, picks) && Indices(located, left)
    && |picks| + |left| == |located|
    && (forall j, k | 0 <= j < k < |left| :: left[j] < left[k])
    && (forall j, k | 0 <= j < |picks| && 0 <= k < |left| :: picks[j] != left[k])
    && Greedy(km, located, first, picks)
    && (forall j, k | 0 <= j < |picks| && 0 <= k < |left| ::
          Before(km, located, HereBefore(located, first, picks, j), picks[j], left[k]))
  }

  function Without<T>(s: seq<T>, i: nat): seq<T>
    requires i < |s|
  {
    s[..i] + s[i + 1..]
  }

  lemma WithoutElements<T>(s: seq<T>, i: nat)
    requires i < |s|
    ensures forall k | 0 <= k < |s| - 1 :: Without(s, i)[k] == s[if k < i then k else k + 1]
    ensures multiset(s) == multiset(Without(s, i)) + multiset([s[i]])
  {
    assert s == s[..i] + [s[i]] + s[i + 1..];
  }

  lemma PickMore(located: seq<Stop>, first: Option<Place>, picks: seq<nat>, i: nat, k: nat)
    requires k <= |picks|
    ensures HereBefore(located, first, picks + [i], k) == HereBefore(located, first, picks, k)
  {
  }

  lemma GreedyNext(km: Distance, located: seq<Stop>, first: Option<Place>, picks: seq<nat>, i: nat)
    requires Greedy(km, located, first, picks)
    requires forall j | 0 <= j < |picks| :: Before(km, located, HereBefore(located, first, picks, j), picks[j], i)
    ensures Greedy(km, located, first, picks + [i])
  {
    var picks' := picks + [i];
    forall k, m | 0 <= k < m < |picks'|
      ensures Before(km, located, HereBefore(located, first, picks', k), picks'[k], picks'[m])
    {
      PickMore(located, first, picks, i, k);
    }
  }

  lemma LeftNext(km: Distance, located: seq<Stop>, first: Option<Place>, picks: seq<nat>, left: seq<nat>, i: nat,
                 j: nat)
    requires j <= |picks|
    requires forall k | 0 <= k < |left| && j < |picks| ::
        Before(km, located, HereBefore(located, first, picks, j), picks[j], left[k])
    requires forall k | 0 <= k < |left| :: Before(km, located, HereBefore(located, first, picks, |picks|), i, left[k])
    ensures forall k | 0 <= k < |left| ::
        Before(km, located, HereBefore(located, first, picks + [i], j), (picks + [i])[j], left[k])
  {
    PickMore(located, first, picks, i, j);
  }

  lemma VisitNext(km: Distance, located: seq<Stop>, first: Option<Place>, picks: seq<nat>, left: seq<nat>, best: nat)
    requires Visiting(km, located, first, picks, left) && best < |left|
    requires forall k | 0 <= k < |left| ::
        Before(km, located, HereBefore(located, first, picks, |picks|), left[best], left[k])
    ensures Visiting(km, located, first, picks + [left[best]], Without(left, best))
  {
    var i, rest := left[best], Without(left, best);
    WithoutElements(left, best);
    assert Indices(located, picks + [i]) && Indices(located, rest);
    GreedyNext(km, located, first, picks, i);
    forall j | 0 <= j <= |picks|
      ensures forall k | 0 <= k < |rest| ::
          Before(km, located, HereBefore(located, first, picks + [i], j), (picks + [i])[j], rest[k])
    {
      LeftNext(km, located, first, picks, rest, i, j);
    }
  }

  lemma PoolBefore(km: Distance, located: seq<Stop>, left: seq<nat>, here: Option<Place>, best: nat, k: nat)
    requires Indices(located, left) && best < |left| && k < |left|
    requires forall j, m | 0 <= j < m < |left| :: left[j] < left[m]
    requires Before(km, Pick(located, left), here, best, k)
    ensures Before(km, located, here, left[best], left[k])
  {
  }

  lemma PickWithout(located: seq<Stop>, left: seq<nat>, best: nat)
    requires (forall k | 0 <= k < |left| :: left[k] < |located|) && best < |left|
    ensures forall k | 0 <= k < |left| - 1 :: Without(left, best)[k] < |located|
    ensures Pick(located, Without(left, best)) == Without(Pick(located, left), best)
  {
    WithoutElements(left, best);
    WithoutElements(Pick(located, left), best);
  }

  /** What the loop's variables stand for. */
  ghost predicate Progress(km: Distance, located: seq<Stop>, first: Option<Place>, picks: seq<nat>, left: seq<nat>,
                           pool: seq<Stop>, ordered: seq<Stop>, here: Option<Place>) {
    && Visiting(km, located, first, picks, left)
    && pool == Pick(located, left) && ordered == Pick(located, picks)
    && here == HereBefore(located, first, picks, |picks|)
  }

  lemma MoveStop(ordered: seq<Stop>, pool: seq<Stop>, best: nat)
    requires best < |pool|
    ensures multiset(ordered + [pool[best]]) + multiset(Without(pool, best)) == multiset(ordered) + multiset(pool)
  {
    WithoutElements(pool, best);
  }

  lemma VisitNearest(km: Distance, located: seq<Stop>, first: Option<Place>, picks: seq<nat>, left: seq<nat>, best: nat)
    requires Visiting(km, located, first, picks, left) && best < |left|
    requires forall k | 0 <= k < |left| ::
        Before(km, Pick(located, left), HereBefore(located, first, picks, |picks|), best, k)
    ensures Visiting(km, located, first, picks + [left[best]], Without(left, best))
  {
    var here := HereBefore(located, first, picks, |picks|);
    forall k | 0 <= k < |left| ensures Before(km, located, here, left[best], left[k]) {
      PoolBefore(km, located, left, here, best, k);
    }
    VisitNext(km, located, first, picks, left, best);
  }

  lemma ProgressNext(km: Distance, located: seq<Stop>, first: Option<Place>, picks: seq<nat>, left: seq<nat>,
                     pool: seq<Stop>, ordered: seq<Stop>, here: Option<Place>, best: nat)
    requires Progress(km, located, first, picks, left, pool, ordered, here)
    requires best < |pool| && forall k | 0 <= k < |pool| :: Before(km, pool, here, best, k)
    ensures Progress(km, located, first, picks + [left[best]], Without(left, best),
                     Without(pool, best), ordered + [pool[best]], pool[best].place)
  {
    VisitNearest(km, located, first, picks, left, best);
    PickWithout(located, left, best);
    assert ordered + [pool[best]] == Pick(located, picks + [left[best]]);
  }

  /** Progress, for some indices that are left. */
  ghost predicate Underway(km: Distance, located: seq<Stop>, first: Option<Place>, picks: seq<nat>,
                           pool: seq<Stop>, ordered: seq<Stop>, here: Option<Place>) {
    exists left :: Progress(km, located, first, picks, left, pool, ordered, here)
  }

  lemma UnderwayStart(km: Distance, located: seq<Stop>, first: Option<Place>)
    requires forall s | s in located :: IsLocated(s)
    ensures Underway(km, located, first, [], located, [], first)
  {
    var left: seq<nat> := seq(|located|, (k: nat) => k);
    assert Pick(located, left) == located;
    assert Progress(km, located, first, [], left, located, [], first);
  }

  lemma UnderwayNext(km: Distance, located: seq<Stop>, first: Option<Place>, picks: seq<nat>,
                     pool: seq<Stop>, ordered: seq<Stop>, here: Option<Place>, best: nat) returns (i: nat)
    requires Underway(km, located, first, picks, pool, ordered, here)
    requires best < |pool| && forall k | 0 <= k < |pool| :: Before(km, pool, here, best, k)
    ensures Underway(km, located, first, picks + [i], Without(pool, best), ordered + [pool[best]], pool[best].place)
  {
    var left :| Progress(km, located, first, picks, left, pool, ordered, here);
    i := left[best];
    ProgressNext(km, located, first, picks, left, pool, ordered, here, best);
  }

  lemma UnderwayLocated(km: Distance, located: seq<Stop>, first: Option<Place>, picks: seq<nat>,
                        pool: seq<Stop>, ordered: seq<Stop>, here: Option<Place>)
    requires Underway(km, located, first, picks, pool, ordered, here)
    ensures forall k | 0 <= k < |pool| :: IsLocated(pool[k])
    ensures Indices(located, picks) && |picks| + |pool| == |located| && ordered == Pick(located, picks)
    ensures Greedy(km, located, first, picks)
  {
  }

  /** The nearest-neighbour loop: picks are the indices in the order they are visited. */
  method NearestNeighbours(km: Distance, located: seq<Stop>, first: Option<Place>)
    returns (ordered: seq<Stop>, ghost picks: seq<nat>)
    requires forall s | s in located :: IsLocated(s)
    ensures Indices(located, picks) && |picks| == |located| && ordered == Pick(located, picks)
    ensures multiset(ordered) == multiset(located)
    ensures Greedy(km, located, first, picks)
  {
    ordered, picks := [], [];
    var pool, here := located, first;
    UnderwayStart(km, located, first);
    while pool != []
      invariant Underway(km, located, first, picks, pool, ordered, here)
      invariant multiset(ordered) + multiset(pool) == multiset(located)
      decreases |pool|
    {
      UnderwayLocated(km, located, first, picks, pool, ordered, here);
      var best := Nearest(km, pool, here);
      ghost var i := UnderwayNext(km, located, first, picks, pool, ordered, here, best);
      MoveStop(ordered, pool, best);
      picks, ordered, here := picks + [i], ordered + [pool[best]], pool[best].place;
      pool := Without(pool, best);
    }
    UnderwayLocated(km, located, first, picks, pool, ordered, here);
  }

  // The order of the day, told by the stops' own fields.

  ghost predicate ScheduledFirst(stops: seq<Stop>, scheduled: seq<Stop>) {
    && (forall s | s in scheduled :: s.start.Some?)
    && (forall j, k | 0 <= j < k < |scheduled| :: scheduled[j].start.value <= scheduled[k].start.value)
    && forall time :: Filter(scheduled, At(time)) == Filter(stops, At(time))
  }

  /** In route each stop is, of those not visited before, the nearest to the one before it; of several
      as near, and of all when nothing is known of the start, it is the first in the list. */
  ghost predicate NearestFirst(km: Distance, first: Option<Place>, route: seq<Stop>, picks: seq<nat>) {
    && |picks| == |route| && (forall s | s in route :: s.place.Some?)
    && (forall m | 0 < m < |route| && first == None :: picks[0] < picks[m])
    && (forall m | 0 < m < |route| && first != None ::
          Nearer(km, first.value, route[0], route[m], picks[0] < picks[m]))
    && forall k, m | 0 <= k < m - 1 && m < |route| ::
         Nearer(km, route[k].place.value, route[k + 1], route[m], picks[k + 1] < picks[m])
  }

  predicate Nearer(km: Distance, from: Place, s: Stop, t: Stop, earlier: bool) {
    s.place.Some? && t.place.Some? &&
    var a, b := km(from, s.place.value), km(from, t.place.value);
      a < b || (a == b && earlier)
  }

  lemma {:induction false} FilterTwice(stops: seq<Stop>, keep: Stop -> bool, also: Stop -> bool, both: Stop -> bool)
    requires forall s :: both(s) <==> keep(s) && also(s)
    ensures Filter(Filter(stops, keep), also) == Filter(stops, both)
  {
    if stops != [] {
      var s, rest := stops[0], Filter(stops[1..], keep);
      FilterTwice(stops[1..], keep, also, both);
      FilterCons(s, rest, also);
      assert Filter(stops, keep) == if keep(s) then [s] + rest else rest;
    }
  }

  lemma SortedAreScheduled(stops: seq<Stop>)
    ensures forall s | s in Scheduled(stops) :: s.start.Some?
  {
    forall s | s in Scheduled(stops) ensures s.start.Some? {
      assert s in multiset(Scheduled(stops)) && s in multiset(Filter(stops, IsScheduled));
      assert IsScheduled(s);
    }
  }

  lemma ScheduledAreStable(stops: seq<Stop>, time: int)
    ensures Filter(Scheduled(stops), At(time)) == Filter(stops, At(time))
  {
    SortIsStable(Filter(stops, IsScheduled), time);
    FilterTwice(stops, IsScheduled, At(time), At(time));
  }

  lemma TimesInOrder(stops: seq<Stop>)
    requires InTimeOrder(stops) && forall s | s in stops :: s.start.Some?
    ensures forall j, k | 0 <= j < k < |stops| :: stops[j].start.value <= stops[k].start.value
  {
    forall j, k | 0 <= j < k < |stops| ensures stops[j].start.value <= stops[k].start.value {
      assert Time(stops[j]) <= Time(stops[k]);
    }
  }

  lemma ScheduledIs(stops: seq<Stop>)
    ensures ScheduledFirst(stops, Scheduled(stops))
  {
    var scheduled := Scheduled(stops);
    SortedAreScheduled(stops);
    SortIsStable(Filter(stops, IsScheduled), 0);
    TimesInOrder(scheduled);
    forall time ensures Filter(scheduled, At(time)) == Filter(stops, At(time)) {
      ScheduledAreStable(stops, time);
    }
  }

  lemma NextIsNearest(km: Distance, located: seq<Stop>, first: Option<Place>, picks: seq<nat>, k: nat, m: nat)
    requires Indices(located, picks) && Greedy(km, located, first, picks) && k < m < |picks|
    ensures var from := if k == 0 then first else located[picks[k - 1]].place;
      if from == None then picks[k] < picks[m]
      else Nearer(km, from.value, located[picks[k]], located[picks[m]], picks[k] < picks[m])
  {
    assert IsLocated(located[picks[k]]) && IsLocated(located[picks[m]]);
    assert k > 0 ==> IsLocated(located[picks[k - 1]]);
    assert Before(km, located, HereBefore(located, first, picks, k), picks[k], picks[m]);
  }

  lemma GreedyIsNearestFirst(km: Distance, located: seq<Stop>, first: Option<Place>, picks: seq<nat>)
    requires Indices(located, picks) && Greedy(km, located, first, picks)
    ensures NearestFirst(km, first, Pick(located, picks), picks)
  {
    var route := Pick(located, picks);
    forall s | s in route ensures s.place.Some? {
      assert IsLocated(s);
    }
    forall m | 0 < m < |route|
      ensures if first == None then picks[0] < picks[m]
              else Nearer(km, first.value, route[0], route[m], picks[0] < picks[m])
    {
      NextIsNearest(km, located, first, picks, 0, m);
    }
    forall k, m | 0 <= k < m - 1 && m < |route|
      ensures Nearer(km, route[k].place.value, route[k + 1], route[m], picks[k + 1] < picks[m])
    {
      NextIsNearest(km, located, first, picks, k + 1, m);
    }
  }

  predicate IsFree(s: Stop) {
    s.start == None && s.place != None
  }

  predicate IsNowhere(s: Stop) {
    s.start == None && s.place == None
  }

  ghost predicate IsRoute(km: Distance, stops: seq<Stop>, start: Option<Place>, scheduled: seq<Stop>,
                          ordered: seq<Stop>, unlocated: seq<Stop>, picks: seq<nat>) {
    && ScheduledFirst(stops, scheduled)
    && (forall k | 0 <= k < |picks| :: picks[k] < |Filter(stops, IsFree)|)
    && ordered == Pick(Filter(stops, IsFree), picks)
    && unlocated == Filter(stops, IsNowhere)
    && FromLastPlace(km, start, scheduled, ordered, picks)
  }

  /** The walk starts at the last scheduled place, or at start when there is none. */
  ghost predicate FromLastPlace(km: Distance, start: Option<Place>, scheduled: seq<Stop>, ordered: seq<Stop>,
                                picks: seq<nat>)
  {
    exists last: Option<Place> | IsLastPlace(scheduled, last) ::
      NearestFirst(km, if last.Some? then last else start, ordered, picks)
  }

  lemma PartsAddUp(stops: seq<Stop>)
    ensures multiset(Scheduled(stops)) + multiset(Located(stops)) + multiset(Unlocated(stops)) == multiset(stops)
  {
    FilterSplits(stops, IsScheduled, IsFloating);
    FilterSplits(Filter(stops, IsFloating), IsLocated, IsUnlocated);
  }

  lemma PartsKeepOrder(stops: seq<Stop>)
    ensures Located(stops) == Filter(stops, IsFree) && Unlocated(stops) == Filter(stops, IsNowhere)
  {
    FilterTwice(stops, IsFloating, IsLocated, IsFree);
    FilterTwice(stops, IsFloating, IsUnlocated, IsNowhere);
  }

  lemma WalkStarts(km: Distance, located: seq<Stop>, start: Option<Place>, scheduled: seq<Stop>, picks: seq<nat>)
    requires Indices(located, picks)
    requires Greedy(km, located, if LastPlace(scheduled).Some? then LastPlace(scheduled) else start, picks)
    ensures FromLastPlace(km, start, scheduled, Pick(located, picks), picks)
  {
    var last := LastPlace(scheduled);
    LastPlaceIs(scheduled);
    GreedyIsNearestFirst(km, located, if last.Some? then last else start, picks);
  }

  lemma RouteIs(km: Distance, stops: seq<Stop>, start: Option<Place>, picks: seq<nat>)
    requires Indices(Located(stops), picks)
    requires var last := LastPlace(Scheduled(stops));
      Greedy(km, Located(stops), if last.Some? then last else start, picks)
    ensures IsRoute(km, stops, start, Scheduled(stops), Pick(Located(stops), picks), Unlocated(stops), picks)
  {
    ScheduledIs(stops);
    WalkStarts(km, Located(stops), start, Scheduled(stops), picks);
    PartsKeepOrder(stops);
  }

  /** The route is the scheduled stops in stable time order, the located ones by nearest neighbour from the
      last scheduled place or else from start, and the rest in their order. */
  method OrderStops(km: Distance, stops: seq<Stop>, start: Option<Place>)
    returns (route: seq<Stop>, ghost picks: seq<nat>)
    ensures multiset(route) == multiset(stops)
    ensures Indices(Located(stops), picks) && |picks| == |Located(stops)|
    ensures route == Scheduled(stops) + Pick(Located(stops), picks) + Unlocated(stops)
    ensures var last := LastPlace(Scheduled(stops));
      Greedy(km, Located(stops), if last.Some? then last else start, picks)
    ensures IsRoute(km, stops, start, Scheduled(stops), Pick(Located(stops), picks), Unlocated(stops), picks)
  {
    var scheduled := Scheduled(stops);
    var located := Located(stops);
    var unlocated := Unlocated(stops);
    var lastKnown := LastPlace(scheduled);
    var ordered;
    ordered, picks := NearestNeighbours(km, located, if lastKnown.Some? then lastKnown else start);
    route := scheduled + ordered + unlocated;
    PartsAddUp(stops);
    RouteIs(km, stops, start, picks);
  }
}
