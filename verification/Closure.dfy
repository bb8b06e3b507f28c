// The vouch closures of relay-uws/src/roster.h: everything reachable from a set of devices
// through vouches, as a least fixed point, as a breadth-first ranking and as a loop.
module Closures {

  // Who vouched, and for which device.
  type Edge = (string, string)

  ghost predicate Closed(s: set<string>, edges: set<Edge>) {
    forall e | e in edges && e.0 in s :: e.1 in s
  }

  // `c` is the least set that holds `s` and is closed under `edges`.
  ghost predicate IsClosure(c: set<string>, s: set<string>, edges: set<Edge>) {
    s <= c && Closed(c, edges) && forall t | s <= t && Closed(t, edges) :: c <= t
  }

  function Targets(edges: set<Edge>): set<string> {
    set e | e in edges :: e.1
  }

  function Closure(s: set<string>, edges: set<Edge>): set<string>
    decreases |Targets(edges) - s|
  {
    var next := set e | e in edges && e.0 in s && e.1 !in s :: e.1;
    if next == {} then s
    else
      Progress(s, next, edges);
      Closure(s + next, edges)
  }

  lemma {:induction false} Progress(s: set<string>, next: set<string>, edges: set<Edge>)
    requires next != {} && next <= Targets(edges) && next !! s
    ensures |Targets(edges) - (s + next)| < |Targets(edges) - s|
  {
    var before, after := Targets(edges) - s, Targets(edges) - (s + next);
    assert before == after + next;
    assert |next| > 0;
  }

  lemma {:induction false} ClosureIs(s: set<string>, edges: set<Edge>)
    ensures IsClosure(Closure(s, edges), s, edges)
    decreases |Targets(edges) - s|
  {
    var next := set e | e in edges && e.0 in s && e.1 !in s :: e.1;
    if next == {} {
      forall e | e in edges && e.0 in s ensures e.1 in s {
        assert e.1 in s || e.1 in next;
      }
    } else {
      Progress(s, next, edges);
      ClosureIs(s + next, edges);
      forall t | s <= t && Closed(t, edges) ensures Closure(s, edges) <= t {
        assert s + next <= t;
      }
    }
  }

  lemma {:induction false} ClosedClosure(s: set<string>, edges: set<Edge>)
    requires Closed(s, edges)
    ensures Closure(s, edges) == s
  {
    ClosureIs(s, edges);
  }

  lemma {:induction false} ClosureMonotone(s: set<string>, t: set<string>, e: set<Edge>, f: set<Edge>)
    requires s <= t && e <= f
    ensures Closure(s, e) <= Closure(t, f)
  {
    ClosureIs(s, e);
    ClosureIs(t, f);
    assert Closed(Closure(t, f), e);
  }

  lemma {:induction false} ClosureUnion(s: set<string>, t: set<string>, edges: set<Edge>)
    ensures Closure(s + t, edges) == Closure(s, edges) + Closure(t, edges)
  {
    ClosureIs(s, edges);
    ClosureIs(t, edges);
    ClosureIs(s + t, edges);
    ClosureMonotone(s, s + t, edges, edges);
    ClosureMonotone(t, s + t, edges, edges);
    assert Closed(Closure(s, edges) + Closure(t, edges), edges);
  }

  // Vouches for devices inside the closure add nothing, nor do those by devices outside it.
  lemma {:induction false} ClosureFewer(s: set<string>, e: set<Edge>, f: set<Edge>)
    requires f <= e && forall x | x in e && x.0 in Closure(s, e) :: x in f
    ensures Closure(s, f) == Closure(s, e)
  {
    ClosureMonotone(s, s, f, e);
    ClosureIs(s, e);
    ClosureIs(s, f);
    forall x | x in e && x.0 in Closure(s, f) ensures x.1 in Closure(s, f) {
      assert x in f;
    }
    assert Closed(Closure(s, f), e);
  }

  // A chain of vouches from a device of `s` to `d`.
  ghost predicate Path(p: seq<string>, s: set<string>, edges: set<Edge>, d: string) {
    && p != [] && p[0] in s && p[|p| - 1] == d
    && forall i | 0 <= i < |p| - 1 :: (p[i], p[i + 1]) in edges
  }

  // The closure is what such chains reach, and nothing else.
  lemma {:induction false} ClosureIsReachable(s: set<string>, edges: set<Edge>, d: string)
    ensures d in Closure(s, edges) <==> exists p :: Path(p, s, edges, d)
  {
    ClosureIs(s, edges);
    var c := Closure(s, edges);
    var r := set x | x in c && exists p :: Path(p, s, edges, x);
    forall x | x in s ensures x in r {
      assert Path([x], s, edges, x);
    }
    forall e | e in edges && e.0 in r ensures e.1 in r {
      var p :| Path(p, s, edges, e.0);
      assert Path(p + [e.1], s, edges, e.1);
    }
    assert Closed(r, edges);
    if p :| Path(p, s, edges, d) {
      PathInside(p, s, edges, d, |p| - 1);
    }
  }

  lemma {:induction false} PathInside(p: seq<string>, s: set<string>, edges: set<Edge>, d: string, i: nat)
    requires Path(p, s, edges, d) && i < |p|
    ensures p[i] in Closure(s, edges)
    decreases i
  {
    ClosureIs(s, edges);
    if i > 0 {
      PathInside(p, s, edges, d, i - 1);
      assert (p[i - 1], p[i]) in edges;
    }
  }

  // ---- Breadth first, with the tier and depth each device is first reached at ----

  datatype Place = Place(tier: nat, depth: nat)

  type Places = map<string, Place>

  function Frontier(places: Places, from: set<string>, edges: set<Edge>): set<string> {
    set e | e in edges && e.0 in from && e.1 !in places :: e.1
  }

  function Placed(places: Places, frontier: set<string>, tier: nat, depth: nat): Places {
    places + map d | d in frontier :: Place(tier, depth)
  }

  function Ranked(places: Places, frontier: set<string>, edges: set<Edge>, tier: nat, depth: nat): Places
    requires frontier !! places.Keys
    decreases |Targets(edges) + frontier - places.Keys|
  {
    if frontier == {} then places
    else
      var now := Placed(places, frontier, tier, depth);
      PlacedKeys(places, frontier, tier, depth);
      RankedProgress(places, frontier, edges, now);
      Ranked(now, Frontier(now, frontier, edges), edges, tier, depth + 1)
  }

  lemma {:induction false} PlacedKeys(places: Places, frontier: set<string>, tier: nat, depth: nat)
    ensures Placed(places, frontier, tier, depth).Keys == places.Keys + frontier
  {}

  lemma {:induction false} RankedProgress(places: Places, frontier: set<string>, edges: set<Edge>, now: Places)
    requires frontier != {} && frontier !! places.Keys && now.Keys == places.Keys + frontier
    ensures Frontier(now, frontier, edges) !! now.Keys
    ensures |Targets(edges) + Frontier(now, frontier, edges) - now.Keys| < |Targets(edges) + frontier - places.Keys|
  {
    var before := Targets(edges) + frontier - places.Keys;
    var after := Targets(edges) + Frontier(now, frontier, edges) - now.Keys;
    assert after <= before - frontier;
    assert before == (before - frontier) + frontier;
    assert before - frontier == after + (before - frontier - after);
    assert |frontier| > 0;
  }

  lemma {:induction false} RankedUnfold(places: Places, frontier: set<string>, edges: set<Edge>, tier: nat, depth: nat)
    requires frontier !! places.Keys
    ensures frontier == {} ==> Ranked(places, frontier, edges, tier, depth) == places
    ensures frontier != {} ==>
              var now := Placed(places, frontier, tier, depth);
              && now.Keys == places.Keys + frontier
              && Ranked(places, frontier, edges, tier, depth) ==
                 Ranked(now, Frontier(now, frontier, edges), edges, tier, depth + 1)
  {}

  // Every vouch by a placed device leads to a placed one or to the frontier.
  ghost predicate Explored(places: Places, frontier: set<string>, edges: set<Edge>) {
    forall e | e in edges && e.0 in places :: e.1 in places || e.1 in frontier
  }

  lemma {:induction false} ExploredOn(places: Places, frontier: set<string>, edges: set<Edge>, now: Places)
    requires Explored(places, frontier, edges) && now.Keys == places.Keys + frontier
    ensures Explored(now, Frontier(now, frontier, edges), edges)
  {}

  lemma {:induction false} ClosureStep(seed: set<string>, next: set<string>, edges: set<Edge>)
    requires next <= set e | e in edges && e.0 in seed :: e.1
    ensures Closure(seed + next, edges) == Closure(seed, edges)
  {
    ClosureIs(seed, edges);
    ClosureIs(seed + next, edges);
  }

  lemma {:induction false} RankedKeys(places: Places, frontier: set<string>, edges: set<Edge>, tier: nat, depth: nat)
    requires frontier !! places.Keys && Explored(places, frontier, edges)
    ensures var r := Ranked(places, frontier, edges, tier, depth);
            && r.Keys == Closure(places.Keys + frontier, edges)
            && places.Keys <= r.Keys
            && Explored(r, {}, edges)
    decreases |Targets(edges) + frontier - places.Keys|
  {
    hide Closure, Ranked;
    RankedUnfold(places, frontier, edges, tier, depth);
    var seed := places.Keys + frontier;
    if frontier == {} {
      assert seed == places.Keys;
      ClosedClosure(seed, edges);
    } else {
      var now := Placed(places, frontier, tier, depth);
      var next := Frontier(now, frontier, edges);
      RankedProgress(places, frontier, edges, now);
      ExploredOn(places, frontier, edges, now);
      RankedKeys(now, next, edges, tier, depth + 1);
      hide Explored;
      ClosureStep(seed, next, edges);
    }
  }

  // The roots' tier first, then the asks'.
  function Standings(roots: set<string>, asks: set<string>, edges: set<Edge>): Places {
    var first := Ranked(map[], roots, edges, 0, 0);
    Ranked(first, asks - first.Keys, edges, 1, 0)
  }

  lemma {:induction false} StandingKeys(roots: set<string>, asks: set<string>, edges: set<Edge>)
    ensures Standings(roots, asks, edges).Keys == Closure(roots + asks, edges)
  {
    var none: Places := map[];
    var first := Ranked(none, roots, edges, 0, 0);
    RankedKeys(none, roots, edges, 0, 0);
    assert none.Keys + roots == roots;
    assert Explored(first, asks - first.Keys, edges);
    RankedKeys(first, asks - first.Keys, edges, 1, 0);
    assert first.Keys + (asks - first.Keys) == first.Keys + asks;
    ClosureIs(roots, edges);
    ClosureIs(roots + asks, edges);
    ClosureIs(first.Keys + asks, edges);
    assert Closure(first.Keys + asks, edges) == Closure(roots + asks, edges);
  }

  // ---- What a place says ----

  ghost predicate Parent(places: Places, edges: set<Edge>, p: string, d: string) {
    && p in places && d in places && (p, d) in edges
    && places[p].tier == 0 && places[p].depth + 1 == places[d].depth
  }

  // In the roots' tier a device is a root or has a voucher one step nearer,
  ghost predicate Grounded(places: Places, roots: set<string>, edges: set<Edge>) {
    forall d | d in places && places[d].tier == 0 ::
      if places[d].depth == 0 then d in roots else exists p :: Parent(places, edges, p, d)
  }

  // and whomever it vouches for is at most one step further.
  ghost predicate Stepwise(places: Places, edges: set<Edge>) {
    forall e | e in edges && e.0 in places && places[e.0].tier == 0 ::
      e.1 in places && places[e.1].tier == 0 && places[e.1].depth <= places[e.0].depth + 1
  }

  ghost predicate FirstTier(places: Places, depth: nat) {
    forall d | d in places :: places[d].tier == 0 && places[d].depth < depth
  }

  // Stepwise but for the devices at `depth`, still to be placed.
  ghost predicate Stepping(places: Places, frontier: set<string>, edges: set<Edge>, depth: nat) {
    forall e | e in edges && e.0 in places ::
      if e.1 in places then places[e.1].depth <= places[e.0].depth + 1
      else e.1 in frontier && places[e.0].depth + 1 == depth
  }

  ghost predicate Fed(places: Places, frontier: set<string>, roots: set<string>, edges: set<Edge>, depth: nat) {
    forall d | d in frontier ::
      if depth == 0 then d in roots
      else exists p :: p in places && (p, d) in edges && places[p].depth + 1 == depth
  }

  lemma {:induction false} GroundedOn(places: Places, frontier: set<string>, roots: set<string>, edges: set<Edge>,
                                      depth: nat, now: Places)
    requires now == Placed(places, frontier, 0, depth) && frontier !! places.Keys
    requires Grounded(places, roots, edges) && FirstTier(places, depth) && Fed(places, frontier, roots, edges, depth)
    ensures Grounded(now, roots, edges) && FirstTier(now, depth + 1)
  {
    PlacedAt(places, frontier, 0, depth);
    hide Placed;
    forall d | d in now ensures if now[d].depth == 0 then d in roots else exists p :: Parent(now, edges, p, d) {
      if d in places {
        if now[d].depth != 0 {
          var p :| Parent(places, edges, p, d);
          assert Parent(now, edges, p, d);
        }
      } else if depth != 0 {
        var p :| p in places && (p, d) in edges && places[p].depth + 1 == depth;
        assert Parent(now, edges, p, d);
      }
    }
  }

  lemma {:induction false} PlacedAt(places: Places, frontier: set<string>, tier: nat, depth: nat)
    requires frontier !! places.Keys
    ensures var now := Placed(places, frontier, tier, depth);
            && now.Keys == places.Keys + frontier
            && (forall d | d in places :: now[d] == places[d])
            && forall d | d in frontier :: now[d] == Place(tier, depth)
  {}

  lemma {:induction false} SteppingOn(places: Places, frontier: set<string>, edges: set<Edge>, depth: nat, now: Places)
    requires now == Placed(places, frontier, 0, depth) && frontier !! places.Keys
    requires Stepping(places, frontier, edges, depth) && FirstTier(places, depth)
    ensures Stepping(now, Frontier(now, frontier, edges), edges, depth + 1)
  {
    PlacedAt(places, frontier, 0, depth);
    hide Placed;
  }

  lemma {:induction false} FedOn(places: Places, frontier: set<string>, roots: set<string>, edges: set<Edge>,
                                 depth: nat, now: Places)
    requires now == Placed(places, frontier, 0, depth) && frontier !! places.Keys
    ensures Fed(now, Frontier(now, frontier, edges), roots, edges, depth + 1)
  {
    PlacedAt(places, frontier, 0, depth);
    hide Placed;
  }

  lemma {:induction false} RankedLayers(places: Places, frontier: set<string>, roots: set<string>, edges: set<Edge>,
                                        depth: nat)
    requires frontier !! places.Keys && Grounded(places, roots, edges) && FirstTier(places, depth)
    requires Stepping(places, frontier, edges, depth) && Fed(places, frontier, roots, edges, depth)
    ensures var r := Ranked(places, frontier, edges, 0, depth);
            Grounded(r, roots, edges) && Stepwise(r, edges) && exists k :: FirstTier(r, k)
    decreases |Targets(edges) + frontier - places.Keys|
  {
    hide Ranked, Grounded, Fed, Placed;
    RankedUnfold(places, frontier, edges, 0, depth);
    if frontier != {} {
      var now := Placed(places, frontier, 0, depth);
      GroundedOn(places, frontier, roots, edges, depth, now);
      SteppingOn(places, frontier, edges, depth, now);
      FedOn(places, frontier, roots, edges, depth, now);
      hide Stepping, FirstTier;
      RankedProgress(places, frontier, edges, now);
      RankedLayers(now, Frontier(now, frontier, edges), roots, edges, depth + 1);
    }
  }

  // A later tier leaves the places already given.
  ghost predicate Extends(r: Places, places: Places, tier: nat) {
    && (forall d | d in places :: d in r && r[d] == places[d])
    && (forall d | d in r && d !in places :: r[d].tier == tier)
  }

  lemma {:induction false} RankedExtends(places: Places, frontier: set<string>, edges: set<Edge>, tier: nat, depth: nat)
    requires frontier !! places.Keys
    ensures Extends(Ranked(places, frontier, edges, tier, depth), places, tier)
    decreases |Targets(edges) + frontier - places.Keys|
  {
    hide Ranked, Placed, Extends;
    RankedUnfold(places, frontier, edges, tier, depth);
    if frontier == {} {
      ExtendsSelf(places, tier);
    } else {
      var now := Placed(places, frontier, tier, depth);
      RankedProgress(places, frontier, edges, now);
      RankedExtends(now, Frontier(now, frontier, edges), edges, tier, depth + 1);
      ExtendsPlaced(places, frontier, tier, depth, Ranked(now, Frontier(now, frontier, edges), edges, tier, depth + 1));
    }
  }

  lemma {:induction false} ExtendsSelf(places: Places, tier: nat)
    ensures Extends(places, places, tier)
  {}

  lemma {:induction false} ExtendsPlaced(places: Places, frontier: set<string>, tier: nat, depth: nat, r: Places)
    requires frontier !! places.Keys && Extends(r, Placed(places, frontier, tier, depth), tier)
    ensures Extends(r, places, tier)
  {
    PlacedAt(places, frontier, tier, depth);
    hide Placed;
  }

  lemma {:induction false} LayersExtend(first: Places, st: Places, roots: set<string>, edges: set<Edge>)
    requires Grounded(first, roots, edges) && Stepwise(first, edges) && (exists k :: FirstTier(first, k))
    requires Extends(st, first, 1)
    ensures Grounded(st, roots, edges) && Stepwise(st, edges) && first.Keys == set d | d in st && st[d].tier == 0
  {
    var k :| FirstTier(first, k);
    forall d | d in st && st[d].tier == 0
      ensures if st[d].depth == 0 then d in roots else exists p :: Parent(st, edges, p, d)
    {
      if st[d].depth != 0 {
        var p :| Parent(first, edges, p, d);
        assert Parent(st, edges, p, d);
      }
    }
  }

  // The first tier is the closure of the roots, layer by layer.
  lemma {:induction false} StandingTiers(roots: set<string>, asks: set<string>, edges: set<Edge>)
    ensures var st := Standings(roots, asks, edges);
            && Grounded(st, roots, edges) && Stepwise(st, edges)
            && (set d | d in st && st[d].tier == 0) == Closure(roots, edges)
  {
    var none: Places := map[];
    var first := Ranked(none, roots, edges, 0, 0);
    RankedKeys(none, roots, edges, 0, 0);
    assert none.Keys + roots == roots;
    RankedLayers(none, roots, roots, edges, 0);
    RankedExtends(first, asks - first.Keys, edges, 1, 0);
    hide Ranked, Closure, Grounded, Stepwise, Extends;
    LayersExtend(first, Standings(roots, asks, edges), roots, edges);
  }

  // A frontier is placed at once and stays so.
  lemma {:induction false} FrontierPlaced(places: Places, frontier: set<string>, edges: set<Edge>, tier: nat,
                                          depth: nat, d: string)
    requires frontier !! places.Keys && d in frontier
    ensures var r := Ranked(places, frontier, edges, tier, depth); d in r && r[d] == Place(tier, depth)
  {
    RankedUnfold(places, frontier, edges, tier, depth);
    var now := Placed(places, frontier, tier, depth);
    PlacedAt(places, frontier, tier, depth);
    RankedProgress(places, frontier, edges, now);
    hide Ranked, Placed, Frontier;
    RankedExtends(now, Frontier(now, frontier, edges), edges, tier, depth + 1);
  }

  lemma {:induction false} RootsPlaced(roots: set<string>, asks: set<string>, edges: set<Edge>)
    ensures var st := Standings(roots, asks, edges); forall d | d in roots :: d in st && st[d] == Place(0, 0)
  {
    hide Ranked;
    var none: Places := map[];
    var first := Ranked(none, roots, edges, 0, 0);
    RankedExtends(first, asks - first.Keys, edges, 1, 0);
    forall d | d in roots ensures d in first && first[d] == Place(0, 0) {
      FrontierPlaced(none, roots, edges, 0, 0, d);
    }
  }

  // Whoever is reached and is no start has an edge into it.
  lemma {:induction false} LastEdge(s: set<string>, edges: set<Edge>, d: string)
    requires d in Closure(s, edges) && d !in s
    ensures exists e | e in edges :: e.1 == d
  {
    ClosureIs(s, edges);
    hide Closure;
    var without := Closure(s, edges) - {d};
    assert s <= without;
    var e :| e in edges && e.0 in without && e.1 !in without;
  }
}
