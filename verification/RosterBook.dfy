// relay-uws/src/roster_book.h: one record for each identity, a roster and when each ask in
// it was first seen, within a budget.
module RosterBooks {
  import opened Base
  import opened Orders
  import opened Closures
  import opened Rosters
  import opened RosterFacts
  import opened RosterLists
  import opened RosterMerge
  import opened RosterFold
  import opened RosterFirstSight
  import opened RosterVerify
  import P = RosterPermanence
  import F = FairShares
  import S = Shelves

  datatype Record = Record(roster: Roster, seen: FirstSeen)

  // The moment each asking device was first seen; only those asking now have one.
  ghost function Sightings(ps: seq<Pending>, seen: FirstSeen, now: int): FirstSeen {
    map k | k in (set p | p in ps :: SeenKey(p.base, p.device)) :: if k in seen then seen[k] else now
  }

  // The record for a master once `shown` is folded into it, every signature checked.
  ghost function Shown(h: Record, shown: Roster, now: int, c: Crypto): Record {
    var merged := MergedByFirstSight(h.roster, Verified(shown, now, c, None), c, h.seen);
    Record(merged, Sightings(merged.pendings, h.seen, now))
  }

  // What a held record always is: statements that verify for its master, all of one base,
  // asks within their ceiling, and a clock of exactly those.
  ghost predicate Sound(h: Record, master: string, c: Crypto) {
    && Genuine(h.roster, c) && P.Kept(h.roster, c) && h.roster.master == master
    && |h.roster.pendings| <= MAX_PENDING
    && (forall p | p in h.roster.pendings :: p.base == BaseOf(h.roster, c))
    && Clocked(h.roster, h.seen)
  }

  function Fresh(master: string): Record {
    Record(Named(master), map[])
  }

  lemma {:induction false} FreshSound(master: string, c: Crypto)
    ensures Sound(Fresh(master), master, c)
  {
    var f := FactsOf(Named(master));
    assert Chosen(f.consents) == f.consents;
    assert Filtered(f, NamerOf(Named(master), c)) == f;
  }

  // ---- What every showing keeps ----

  lemma {:induction false} VerifiedMaster(r: Roster, now: int, c: Crypto)
    ensures Verified(r, now, c, None).master == if c.isKey(r.master) then r.master else ""
  {
    if c.isKey(r.master) { CompactedSorted(Checked(r, now, c, None), c); }
  }

  lemma {:induction false} MergedIs(a: Roster, b: Roster, c: Crypto, seen: FirstSeen)
    requires a.master == b.master
    ensures var p := Fitted(a, b, c, seen);
            MergedByFirstSight(a, b, c, seen) == Merged(p.0, p.1, c) && p.0.master == p.1.master
  {
    hide Merged, BaseOf, Asks, BySight;
  }

  lemma {:induction false} CapSize<T>(xs: seq<T>, cap: nat)
    ensures |Cap(xs, cap)| <= cap && Elems(Cap(xs, cap)) <= Elems(xs)
  {}

  lemma {:induction false} ElemsIn<T>(xs: seq<T>)
    ensures forall x :: x in xs <==> x in Elems(xs)
  {}

  lemma {:induction false} MergedAsksFit(a: Roster, b: Roster, c: Crypto, seen: FirstSeen)
    requires a.master == b.master
    ensures var m := MergedByFirstSight(a, b, c, seen);
            && |m.pendings| <= MAX_PENDING
            && forall p | p in m.pendings :: p.base == BaseOf(m, c)
  {
    hide *;
    var (x, y) := Fitted(a, b, c, seen);
    MergedIs(a, b, c, seen);
    MergedAsks(x, y, c);
    CapSize(Asks(x, y, BaseOf(Merged(x, y, c), c)), MAX_PENDING);
    FirstSightAsks(a, b, c, seen);
    var base := BaseOf(Merged(a, b, c), c);
    AsksFacts(a, b, base, seen);
    CapSize(BySight(Asks(a, b, base), seen), MAX_PENDING);
    ElemsIn(MergedByFirstSight(a, b, c, seen).pendings);
  }

  lemma {:induction false} ClockedOn(was: Roster, r: Roster, seen: FirstSeen, now: int)
    requires now < INT64_MAX && Clocked(was, seen)
    ensures Clocked(r, Sightings(r.pendings, seen, now))
  {}

  lemma {:induction false} MergedKept(a: Roster, b: Roster, c: Crypto, seen: FirstSeen)
    requires a.master == b.master && Genuine(a, c) && Genuine(b, c)
    ensures P.Kept(MergedByFirstSight(a, b, c, seen), c)
  {
    hide Genuine, P.Kept, Compacted, BaseOf, Fitted, Joined, Part;
    var p := Fitted(a, b, c, seen);
    MergedIs(a, b, c, seen);
    FittedPart(a, b, c, seen);
    GenuinePart(p.0, a, c);
    GenuinePart(p.1, b, c);
    JoinedGenuine(p.0, p.1, c);
    GenuineKeyed(Joined(p.0, p.1), c);
    P.CompactedKept(Joined(p.0, p.1), c);
  }

  lemma {:induction false} GenuineKeyed(r: Roster, c: Crypto)
    requires Genuine(r, c)
    ensures Keyed(r)
  {}

  // A showing keeps a record sound, and does not change a recovery key once there is one.
  lemma {:induction false} ShownSound(h: Record, shown: Roster, now: int, c: Crypto)
    requires Sound(h, shown.master, c) && NoEmptyKey(c) && now < INT64_MAX
    ensures Sound(Shown(h, shown, now, c), shown.master, c)
    ensures h.roster.rPub != "" ==> Shown(h, shown, now, c).roster.rPub == h.roster.rPub
  {
    hide Verified, Genuine, P.Kept, BaseOf, MergedByFirstSight, Sightings, Clocked;
    var v := Verified(shown, now, c, None);
    var m := MergedByFirstSight(h.roster, v, c, h.seen);
    ClockedOn(h.roster, m, h.seen, now);
    VerifiedMaster(shown, now, c);
    VerifiedGenuine(shown, now, c);
    if v.master == h.roster.master {
      MergedGenuine(h.roster, v, c, h.seen);
      MergedAsksFit(h.roster, v, c, h.seen);
      MergedKept(h.roster, v, c, h.seen);
    } else {
      OtherMaster(h.roster, v, c, h.seen);
    }
  }

  lemma {:induction false} OtherMaster(a: Roster, b: Roster, c: Crypto, seen: FirstSeen)
    requires a.master != "" && b.master != a.master
    ensures MergedByFirstSight(a, b, c, seen) == a
  {}

  // The cached check a showing makes is the full one.
  lemma {:induction false} ShownCached(h: Record, shown: Roster, now: int, c: Crypto)
    requires Sound(h, shown.master, c)
    ensures Verified(shown, now, c, Some(h.roster)) == Verified(shown, now, c, None)
  {
    hide Verified, Genuine, P.Kept, BaseOf, Clocked;
    CachedIsFull(shown, now, c, h.roster);
  }

  // Nothing shown pushes out an ask the relay holds, if what it asks is held already or
  // names a device the relay has not seen ask in this base.
  lemma {:induction false} ShownProtects(h: Record, shown: Roster, now: int, c: Crypto)
    requires Sound(h, shown.master, c) && c.isKey(shown.master)
    requires var v := Verified(shown, now, c, None);
             && BaseOf(Merged(h.roster, v, c), c) == BaseOf(h.roster, c)
             && forall p | p in v.pendings && p.base == BaseOf(h.roster, c) ::
                  p in h.roster.pendings || SeenKey(p.base, p.device) !in h.seen
    ensures var s := Shown(h, shown, now, c);
            forall p | p in h.roster.pendings :: p in s.roster.pendings && SeenAt(s.seen, p) == SeenAt(h.seen, p)
  {
    hide Verified, Genuine, P.Kept, BaseOf, Merged, MergedByFirstSight;
    var v := Verified(shown, now, c, None);
    VerifiedMaster(shown, now, c);
    FirstSightProtects(h.roster, v, c, h.seen);
    var m := MergedByFirstSight(h.roster, v, c, h.seen);
    ElemsIn(h.roster.pendings);
    ElemsIn(m.pendings);
  }

  // ---- When a showing keeps a removal ----

  // Whether a showing keeps a removal in force, asks past their ceiling cut first.
  ghost predicate Keeps(h: Record, shown: Roster, now: int, x: Removal, c: Crypto) {
    var p := Fitted(h.roster, Verified(shown, now, c, None), c, h.seen);
    P.Keeps(p.0, p.1, x, c)
  }

  lemma {:induction false} FewerAsks(a: Roster, ps: seq<Pending>, x: Removal, c: Crypto)
    requires P.InForce(x, a, c)
    ensures P.InForce(x, a.(pendings := ps), c)
  {
    BaseByPhrase(a.(pendings := ps), a, c);
    FoundedByPhrase(a, ps, c);
    hide BaseOf, Founded;
  }

  lemma {:induction false} FoundedByPhrase(a: Roster, ps: seq<Pending>, c: Crypto)
    ensures Founded(a.(pendings := ps), c) == Founded(a, c)
  {}

  lemma {:induction false} FittedIs(a: Roster, b: Roster, c: Crypto, seen: FirstSeen)
    ensures var p := Fitted(a, b, c, seen);
            && p.0 == a.(pendings := p.0.pendings) && p.1.master == b.master
            && MergedByFirstSight(a, b, c, seen) ==
               if a.master != "" && b.master != a.master then a else Merged(p.0, p.1, c)
  {
    FittedPart(a, b, c, seen);
    hide Compacted, Joined, BaseOf, Asks, BySight;
  }

  lemma {:induction false} ShownKeepsRemoval(h: Record, shown: Roster, now: int, x: Removal, c: Crypto)
    requires P.InForce(x, h.roster, c)
    ensures P.InForce(x, Shown(h, shown, now, c).roster, c) <==> Keeps(h, shown, now, x, c)
  {
    var v := Verified(shown, now, c, None);
    var p := Fitted(h.roster, v, c, h.seen);
    FittedIs(h.roster, v, c, h.seen);
    FewerAsks(h.roster, p.0.pendings, x, c);
    P.MergeKeepsRemoval(p.0, p.1, x, c);
    hide Verified, BaseOf, Compacted, Joined, MergedByFirstSight, P.InForce, Fitted, Surviving, Standing;
  }

  // A record after a run of showings, each with the moment it came.
  ghost function AfterShowings(h: Record, shows: seq<(Roster, int)>, c: Crypto): Record {
    if shows == [] then h
    else
      var last := |shows| - 1;
      Shown(AfterShowings(h, shows[..last], c), shows[last].0, shows[last].1, c)
  }

  ghost predicate AllKeep(h: Record, shows: seq<(Roster, int)>, x: Removal, c: Crypto) {
    forall i | 0 <= i < |shows| :: Keeps(AfterShowings(h, shows[..i], c), shows[i].0, shows[i].1, x, c)
  }

  lemma {:induction false} ShownNext(h: Record, shows: seq<(Roster, int)>, x: Removal, c: Crypto, i: nat)
    requires i < |shows| && P.InForce(x, AfterShowings(h, shows[..i], c).roster, c)
    ensures P.InForce(x, AfterShowings(h, shows[..i + 1], c).roster, c) <==>
            Keeps(AfterShowings(h, shows[..i], c), shows[i].0, shows[i].1, x, c)
  {
    hide P.InForce, Keeps, Shown;
    var next := shows[..i + 1];
    assert next[..|next| - 1] == shows[..i] && next[|next| - 1] == shows[i];
    ShownKeepsRemoval(AfterShowings(h, shows[..i], c), shows[i].0, shows[i].1, x, c);
  }

  lemma {:induction false} ShownInForce(h: Record, shows: seq<(Roster, int)>, x: Removal, c: Crypto, i: nat)
    requires P.InForce(x, h.roster, c) && AllKeep(h, shows, x, c) && i <= |shows|
    ensures P.InForce(x, AfterShowings(h, shows[..i], c).roster, c)
  {
    hide P.InForce, Keeps, Shown;
    if i == 0 {
      assert shows[..i] == [];
    } else {
      hide AfterShowings;
      ShownInForce(h, shows, x, c, i - 1);
      ShownNext(h, shows, x, c, i - 1);
    }
  }

  // The clock the fold reads.
  function ClockOf(h: Record, c: Crypto): Clock {
    var base := BaseOf(h.roster, c);
    map d | d in Asking(h.roster, c) && SeenKey(base, d) in h.seen :: h.seen[SeenKey(base, d)]
  }

  ghost function SightOf(h: Record, now: int, c: Crypto): Sight {
    Sight(h.roster, ClockOf(h, c), now, c)
  }

  // A device a founded device removed stays removed throughout a run of showings exactly when
  // each of them keeps the removal. It then owns the inbox at no moment, whoever asks,
  // consents or vouches and however long anyone waits.
  lemma {:induction false} RemovedForGood(h: Record, shows: seq<(Roster, int)>, x: Removal, c: Crypto)
    requires P.InForce(x, h.roster, c)
    ensures AllKeep(h, shows, x, c) <==>
            forall i | 0 <= i <= |shows| :: P.InForce(x, AfterShowings(h, shows[..i], c).roster, c)
    ensures AllKeep(h, shows, x, c) ==>
              forall i, now | 0 <= i <= |shows| ::
                x.device !in Members(SightOf(AfterShowings(h, shows[..i], c), now, c))
  {
    hide P.InForce, Keeps, AfterShowings, Members, ClockOf;
    if AllKeep(h, shows, x, c) {
      forall i | 0 <= i <= |shows| ensures P.InForce(x, AfterShowings(h, shows[..i], c).roster, c) {
        ShownInForce(h, shows, x, c, i);
      }
      forall i, now | 0 <= i <= |shows|
        ensures x.device !in Members(SightOf(AfterShowings(h, shows[..i], c), now, c))
      {
        P.InForceBars(x, SightOf(AfterShowings(h, shows[..i], c), now, c));
      }
    }
    if forall i | 0 <= i <= |shows| :: P.InForce(x, AfterShowings(h, shows[..i], c).roster, c) {
      forall i | 0 <= i < |shows|
        ensures Keeps(AfterShowings(h, shows[..i], c), shows[i].0, shows[i].1, x, c)
      {
        assert P.InForce(x, AfterShowings(h, shows[..i + 1], c).roster, c);
        ShownNext(h, shows, x, c, i);
      }
    }
  }

  // ---- Nobody speaks for another ----

  lemma {:induction false} RunSound(master: string, shows: seq<(Roster, int)>, c: Crypto)
    requires NoEmptyKey(c) && forall i | 0 <= i < |shows| :: shows[i].0.master == master && shows[i].1 < INT64_MAX
    ensures Sound(AfterShowings(Fresh(master), shows, c), master, c)
  {
    hide Sound, Shown, NoEmptyKey;
    if shows == [] {
      FreshSound(master, c);
    } else {
      var last := |shows| - 1;
      RunSound(master, shows[..last], c);
      ShownSound(AfterShowings(Fresh(master), shows[..last], c), shows[last].0, shows[last].1, c);
    }
  }

  // Whatever is shown, in whatever order: a device that never signed has stated nothing and
  // owns no inbox, and the inbox of a master that never signed is nobody's.
  lemma {:induction false} Unforgeable(master: string, shows: seq<(Roster, int)>, c: Crypto, s: string, now: int)
    requires NoEmptyKey(c) && forall i | 0 <= i < |shows| :: shows[i].0.master == master && shows[i].1 < INT64_MAX
    requires Silent(c, s)
    ensures var h := AfterShowings(Fresh(master), shows, c);
            && Unspoken(h.roster, s) && s !in Members(SightOf(h, now, c))
            && (s == master ==> Members(SightOf(h, now, c)) == {})
  {
    var h := AfterShowings(Fresh(master), shows, c);
    RunSound(master, shows, c);
    hide AfterShowings;
    assert Genuine(h.roster, c) && h.roster.master == master;
    GenuineUnspoken(h.roster, c, s);
    var o := SightOf(h, now, c);
    P.MembersConsented(o);
    hide Genuine, Members, Rooted, ClockOf;
    assert s !in Consented(h.roster);
    if s == master { NobodyStarts(o); }
  }

  // Without claims, recoveries, admissions and asks there is nobody to begin with.
  lemma {:induction false} NobodyStarts(o: Sight)
    requires o.roster.recoveries == [] && o.roster.phraseAdmits == []
    requires o.roster.legacy == [] && o.roster.pendings == []
    ensures Members(o) == {}
  {
    assert BaseRoots(o.roster, o.crypto) == {} && Asking(o.roster, o.crypto) == {};
    assert Seeds(o) == {};
    ClosedClosure({}, LiveLinks(o));
    hide Closure, LiveLinks;
  }

  // ---- The book ----

  datatype Verdict = Verdict(member: bool, changed: bool, state: State)

  const NOTHING_JUDGED := Verdict(false, false, State("", false, false, {}, map[], {}))

  // What a record's entry in the ledger becomes: charged to the share that showed it when
  // it is new or the device turned out a member, and used now in any case.
  ghost function Charged(t: F.Table<string>, tick: nat, master: string, share: nat, weight: nat, member: bool,
                         changed: bool)
    : F.Table<string>
  {
    if master !in t || member then t[master := F.Entry(share, weight, tick + 1)]
    else t[master := F.Entry(t[master].share, if changed then weight else t[master].weight, tick + 1)]
  }

  class RosterBook {
    const shelf: S.Shelf<Record>
    const crypto: Crypto
    // The size of the JSON a roster is written as.
    const jsonBytes: Roster -> nat

    ghost predicate Valid()
      reads shelf, shelf.ledger
    {
      shelf.Valid() && forall m | m in shelf.records :: Sound(shelf.records[m], m, crypto)
    }

    constructor (budget: nat, c: Crypto, bytes: Roster -> nat)
      ensures Valid() && shelf.records == map[] && fresh(shelf) && fresh(shelf.ledger) && crypto == c
    {
      shelf := new S.Shelf(budget);
      crypto, jsonBytes := c, bytes;
    }

    function RecordBytes(master: string, h: Record): nat {
      512 + |master| + jsonBytes(h.roster) * 2 + |h.seen| * 96
    }

    ghost function HeldFor(master: string): Record
      reads shelf
    {
      if master in shelf.records then shelf.records[master] else Fresh(master)
    }

    // The record becomes what `Shown` says, and `device` is judged by the fold of it.
    method Show(master: string, shown: Roster, device: string, share: nat, now: int) returns (out: Verdict)
      requires Valid() && NoEmptyKey(crypto) && now < INT64_MAX
      modifies shelf`records, shelf.ledger
      ensures Valid()
      ensures shown.master != master || !WithinCaps(shown) ==>
                unchanged(shelf) && unchanged(shelf.ledger) && out == NOTHING_JUDGED
      ensures shown.master == master && WithinCaps(shown) ==>
                var was := old(HeldFor(master));
                var h := Shown(was, shown, now, crypto);
                var bytes := 512 + |master| + 2 * jsonBytes(h.roster) + 96 * |h.seen|;
                && Judged(out.state, SightOf(h, now, crypto)) && (out.member <==> device in out.state.members)
                && (out.changed <==> h != was)
                && S.Kept(shelf.records, old(shelf.records)[master := h])
                && S.EvictedTo(Charged(old(shelf.ledger.entries), old(shelf.ledger.tick), master, share, bytes,
                                       out.member, out.changed),
                               shelf.ledger.entries, shelf.budget)
                && F.Total(shelf.ledger.entries) <= shelf.budget
    {
      hide Sound, Shown, F.FairShare.Valid, F.Total, S.EvictedTo, S.Kept, ClockOf, WithinCaps, NoEmptyKey, Judged,
           Members;
      if shown.master != master || !WithinCaps(shown) {
        return NOTHING_JUDGED;
      }
      var isNew := master !in shelf.records;
      var held := if isNew then Fresh(master) else shelf.records[master];
      FreshSound(master, crypto);
      ShownSound(held, shown, now, crypto);
      var h := FoldIn(held, isNew, shown, now);
      var changed := h.roster != held.roster || h.seen != held.seen;
      var state := Fold(Sight(h.roster, ClockOf(h, crypto), now, crypto));
      var member := device in state.members;
      Store(master, h, share, isNew, member, changed);
      out := Verdict(member, changed, state);
    }

    // What is already held skips its signature check.
    method FoldIn(held: Record, isNew: bool, shown: Roster, now: int) returns (h: Record)
      requires Sound(held, shown.master, crypto)
      ensures h == Shown(held, shown, now, crypto)
    {
      hide Sound, Verified, MergedByFirstSight, Sightings;
      ShownCached(held, shown, now, crypto);
      var known := if isNew then None else Some(held.roster);
      var merged := MergedByFirstSight(held.roster, Verified(shown, now, crypto, known), crypto, held.seen);
      var seen := Resight(merged.pendings, held.seen, now);
      h := Record(merged, seen);
    }

    method Resight(ps: seq<Pending>, was: FirstSeen, now: int) returns (seen: FirstSeen)
      ensures seen == Sightings(ps, was, now)
    {
      seen := map[];
      for i := 0 to |ps|
        invariant seen == Sightings(ps[..i], was, now)
      {
        var key := SeenKey(ps[i].base, ps[i].device);
        seen := seen[key := if key in was then was[key] else now];
        assert ps[..i + 1] == ps[..i] + [ps[i]];
      }
      assert ps[..|ps|] == ps;
    }

    method Store(master: string, h: Record, share: nat, isNew: bool, member: bool, changed: bool)
      requires Valid() && isNew == (master !in shelf.records) && Sound(h, master, crypto)
      modifies shelf`records, shelf.ledger
      ensures Valid()
      ensures S.Kept(shelf.records, old(shelf.records)[master := h])
      ensures S.EvictedTo(Charged(old(shelf.ledger.entries), old(shelf.ledger.tick), master, share,
                                  RecordBytes(master, h), member, changed),
                          shelf.ledger.entries, shelf.budget)
      ensures F.Total(shelf.ledger.entries) <= shelf.budget
    {
      hide Sound, F.FairShare.Valid, F.Total, S.EvictedTo;
      var weight := RecordBytes(master, h);
      shelf.records := shelf.records[master := h];
      var ledger := shelf.ledger;
      if isNew || member {
        ledger.Put(master, share, weight);
      } else if changed {
        ledger.Reweigh(master, weight);
        ledger.Touch(master);
      } else {
        ledger.Touch(master);
      }
      assert ledger.entries == Charged(old(ledger.entries), old(ledger.tick), master, share, weight, member, changed);
      shelf.EnforceBudget();
    }
  }
}
