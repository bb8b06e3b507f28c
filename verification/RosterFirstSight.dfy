// relay-uws/src/roster.h, merged_by_first_sight: a merge in which, of too many asks, those
// seen earliest are left.
module RosterFirstSight {
  import opened Base
  import opened Orders
  import opened Rosters
  import opened RosterFacts
  import opened RosterLists
  import opened RosterMerge

  const INT64_MAX: int := 0x7fff_ffff_ffff_ffff

  // seen_key(base, device) -> when the holder first saw that device ask in that base.
  type FirstSeen = map<string, int>

  function SeenKey(base: string, device: string): string {
    base + "|" + device
  }

  function SeenAt(seen: FirstSeen, p: Pending): int {
    var k := SeenKey(p.base, p.device);
    if k in seen then seen[k] else INT64_MAX
  }

  // The order asks give way in: last seen first, and among equals the greater statement.
  function SightKey(seen: FirstSeen, p: Pending): Key {
    [Num(SeenAt(seen, p))] + PendingKey(p)
  }

  // Both rosters' asks in `base`.
  function Asks(a: Roster, b: Roster, base: string): seq<Pending> {
    PendingsOf(a.pendings + b.pendings, base)
  }

  function BySight(asks: seq<Pending>, seen: FirstSeen): seq<Pending> {
    SortUnique(asks, (p: Pending) => SightKey(seen, p))
  }

  function TrimAsks(r: Roster, base: string, kept: seq<Pending>): Roster {
    r.(pendings := Filter(r.pendings, (p: Pending) => p.base != base || p in kept))
  }

  // What is merged in the end: past the asks' ceiling, both rosters with only the asks
  // seen first.
  function Fitted(a: Roster, b: Roster, c: Crypto, seen: FirstSeen): (Roster, Roster) {
    var base := BaseOf(Merged(a, b, c), c);
    var asks := Asks(a, b, base);
    if |asks| <= MAX_PENDING then (a, b)
    else
      var kept := Cap(BySight(asks, seen), MAX_PENDING);
      (TrimAsks(a, base, kept), TrimAsks(b, base, kept))
  }

  function MergedByFirstSight(a: Roster, b: Roster, c: Crypto, seen: FirstSeen): Roster {
    if a.master != "" && b.master != a.master then Merged(a, b, c)
    else
      var (x, y) := Fitted(a, b, c, seen);
      Merged(x, y, c)
  }

  // ---- Which asks a merge leaves ----

  lemma {:induction false} SightInjective(seen: FirstSeen)
    ensures Injective((p: Pending) => SightKey(seen, p))
  {
    KeysInjective();
    forall x, y | SightKey(seen, x) == SightKey(seen, y) ensures x == y {
      assert SightKey(seen, x)[1..] == PendingKey(x) && SightKey(seen, y)[1..] == PendingKey(y);
    }
  }

  lemma {:induction false} AsksFacts(a: Roster, b: Roster, base: string, seen: FirstSeen)
    ensures var asks := Asks(a, b, base);
            && Elems(asks) == (set p | p in Elems(a.pendings) + Elems(b.pendings) && p.base == base)
            && Sorted(asks, PendingKey)
            && Elems(BySight(asks, seen)) == Elems(asks)
            && Sorted(BySight(asks, seen), (p: Pending) => SightKey(seen, p))
            && |BySight(asks, seen)| == |asks|
  {
    KeysInjective();
    SightInjective(seen);
    hide Injective;
    var all := a.pendings + b.pendings;
    FilterIs(all, (p: Pending) => p.base == base);
    SortUniqueFacts(Filter(all, (p: Pending) => p.base == base), PendingKey);
    var asks := Asks(a, b, base);
    SortUniqueFacts(asks, (p: Pending) => SightKey(seen, p));
    SortedSize(asks, PendingKey);
    SortedSize(BySight(asks, seen), (p: Pending) => SightKey(seen, p));
  }

  // Compaction keeps the least asks of the current base, whatever else it cuts.
  lemma {:induction false} CompactedAsks(r: Roster, c: Crypto)
    ensures var m := Compacted(r, c);
            && m.recoveries == Cap(SortUnique(Latest(r.recoveries), RecoveryKey), MAX_RECOVERY_TIES)
            && m.pendings == Cap(PendingsOf(r.pendings, BaseOf(m, c)), MAX_PENDING)
            && m.master == r.master && m.rPub == r.rPub
  {
    hide Ranking, KeptConsents, Standing, Mentioned, SortUnique, Latest, AdmitsPast, OneConsentEach, VouchesOf,
         PendingsOf, RemovalsOf;
    RankingKeeps(Surviving(r, c), Standing(Surviving(r, c), c));
  }

  // What decides the base a merge ends in: the phrase statements, not the asks.
  ghost predicate SamePhrase(a: Roster, b: Roster) {
    a.master == b.master && a.rPub == b.rPub && a.recoveries == b.recoveries
  }

  lemma {:induction false} BaseByPhrase(r: Roster, s: Roster, c: Crypto)
    requires SamePhrase(r, s)
    ensures BaseOf(r, c) == BaseOf(s, c)
  {}

  lemma {:induction false} MergedAsks(a: Roster, b: Roster, c: Crypto)
    requires a.master == "" || b.master == a.master
    ensures Merged(a, b, c).pendings == Cap(Asks(a, b, BaseOf(Merged(a, b, c), c)), MAX_PENDING)
  {
    hide Compacted, BaseOf, PendingsOf, Asks, SortUnique;
    CompactedAsks(Joined(a, b), c);
    JoinedAsks(a, b, BaseOf(Merged(a, b, c), c));
  }

  lemma {:induction false} JoinedAsks(a: Roster, b: Roster, base: string)
    ensures PendingsOf(Joined(a, b).pendings, base) == Asks(a, b, base)
  {
    hide SortUnique, Filter;
    KeysInjective();
    hide Injective;
    var all := a.pendings + b.pendings;
    var once := SortUnique(all, PendingKey);
    SortUniqueFacts(all, PendingKey);
    FilterIs(once, (p: Pending) => p.base == base);
    FilterIs(all, (p: Pending) => p.base == base);
    SortUniqueFacts(Filter(once, (p: Pending) => p.base == base), PendingKey);
    SortUniqueFacts(Filter(all, (p: Pending) => p.base == base), PendingKey);
    hide Sorted;
    assert forall p :: p in once <==> p in all by {
      assert forall p :: (p in once <==> p in Elems(once)) && (p in all <==> p in Elems(all));
    }
    SortedSame(PendingsOf(once, base), Asks(a, b, base), PendingKey);
  }

  lemma {:induction false} TrimmedBase(a: Roster, b: Roster, c: Crypto, base: string, kept: seq<Pending>)
    requires a.master == "" || b.master == a.master
    ensures BaseOf(Merged(TrimAsks(a, base, kept), TrimAsks(b, base, kept), c), c) == BaseOf(Merged(a, b, c), c)
  {
    var x, y := TrimAsks(a, base, kept), TrimAsks(b, base, kept);
    CompactedAsks(Joined(a, b), c);
    CompactedAsks(Joined(x, y), c);
    hide Compacted, BaseOf, SortUnique, Latest, Cap;
    BaseByPhrase(Merged(a, b, c), Merged(x, y, c), c);
  }

  lemma {:induction false} TrimmedAsks(a: Roster, b: Roster, base: string, kept: seq<Pending>)
    requires Elems(kept) <= Elems(Asks(a, b, base))
    ensures var asks := Asks(TrimAsks(a, base, kept), TrimAsks(b, base, kept), base);
            Elems(asks) == Elems(kept) && |asks| == |Elems(kept)|
  {
    var x, y := TrimAsks(a, base, kept), TrimAsks(b, base, kept);
    AsksFacts(a, b, base, map[]);
    AsksFacts(x, y, base, map[]);
    FilterIs(a.pendings, (p: Pending) => p.base != base || p in kept);
    FilterIs(b.pendings, (p: Pending) => p.base != base || p in kept);
    SortedSize(Asks(x, y, base), PendingKey);
    hide Asks, Sorted, Filter;
    forall p ensures p in Elems(Asks(x, y, base)) <==> p in Elems(kept) {}
  }

  // The asks a holder is left with: of both rosters' asks in the base the merge ends in,
  // the ones it saw first, as many as fit.
  lemma {:induction false} FirstSightAsks(a: Roster, b: Roster, c: Crypto, seen: FirstSeen)
    requires a.master == "" || b.master == a.master
    ensures var m, base := MergedByFirstSight(a, b, c, seen), BaseOf(Merged(a, b, c), c);
            && BaseOf(m, c) == base
            && Elems(m.pendings) == Elems(Cap(BySight(Asks(a, b, base), seen), MAX_PENDING))
  {
    var base := BaseOf(Merged(a, b, c), c);
    var asks := Asks(a, b, base);
    var kept := Cap(BySight(asks, seen), MAX_PENDING);
    var x, y := TrimAsks(a, base, kept), TrimAsks(b, base, kept);
    assert x.master == a.master && y.master == b.master;
    hide Merged, BaseOf, Asks, BySight, TrimAsks;
    AsksFacts(a, b, base, seen);
    MergedAsks(a, b, c);
    KeptSize(asks, seen);
    hide Sorted;
    if |asks| > MAX_PENDING {
      TrimmedBase(a, b, c, base, kept);
      MergedAsks(x, y, c);
      assert Elems(kept) <= Elems(asks);
      TrimmedAsks(a, b, base, kept);
    }
  }

  lemma {:induction false} KeptSize(asks: seq<Pending>, seen: FirstSeen)
    ensures |Elems(Cap(BySight(asks, seen), MAX_PENDING))| <= MAX_PENDING
  {
    SightInjective(seen);
    SortUniqueFacts(asks, (p: Pending) => SightKey(seen, p));
    SortedSize(Cap(BySight(asks, seen), MAX_PENDING), (p: Pending) => SightKey(seen, p));
  }

  // ---- First sight protects asks ----

  // A holder's clock: it saw exactly the asks it holds, each at a moment int64_t can hold.
  ghost predicate Clocked(a: Roster, seen: FirstSeen) {
    && seen.Keys == (set p | p in a.pendings :: SeenKey(p.base, p.device))
    && forall k | k in seen :: seen[k] < INT64_MAX
  }

  // However many asks arrive, every ask held stays held, if each of them is held already or
  // names a device not yet seen in the base, and the base stays.
  lemma {:induction false} FirstSightProtects(a: Roster, b: Roster, c: Crypto, seen: FirstSeen)
    requires (a.master == "" || b.master == a.master) && Clocked(a, seen) && |a.pendings| <= MAX_PENDING
    requires forall p | p in a.pendings :: p.base == BaseOf(Merged(a, b, c), c)
    requires forall p | p in b.pendings && p.base == BaseOf(Merged(a, b, c), c) ::
               p in a.pendings || SeenKey(p.base, p.device) !in seen
    ensures Elems(a.pendings) <= Elems(MergedByFirstSight(a, b, c, seen).pendings)
  {
    var base := BaseOf(Merged(a, b, c), c);
    var xs, key := BySight(Asks(a, b, base), seen), (p: Pending) => SightKey(seen, p);
    FirstSightAsks(a, b, c, seen);
    AsksFacts(a, b, base, seen);
    hide Merged, BaseOf, MergedByFirstSight, BySight, Asks;
    var low := Elems(a.pendings);
    ElemsAtMost(a.pendings);
    forall y, z | y in low && z in xs && z !in low ensures KeyLess(key(y), key(z)) {
      assert z in Elems(xs);
      assert SeenAt(seen, y) < SeenAt(seen, z);
      SightLess(seen, y, z);
    }
    forall p | p in low ensures p in Elems(Cap(xs, MAX_PENDING)) {
      assert p in Elems(xs);
      LeastStay(xs, key, low, p, MAX_PENDING);
    }
  }

  lemma {:induction false} SightLess(seen: FirstSeen, y: Pending, z: Pending)
    requires SeenAt(seen, y) < SeenAt(seen, z)
    ensures KeyLess(SightKey(seen, y), SightKey(seen, z))
  {}

  lemma {:induction false} ElemsAtMost<T>(xs: seq<T>)
    ensures |Elems(xs)| <= |xs|
  {
    if xs == [] {
      assert Elems(xs) == {};
    } else {
      ElemsAtMost(xs[1..]);
      assert Elems(xs) == {xs[0]} + Elems(xs[1..]) by { assert xs == [xs[0]] + xs[1..]; }
    }
  }
}
