// What the roster's fold promises (relay-uws/src/roster.h, fold; roster_book.h): who can be
// a member, and exactly when a removal by a founded device stays in force.
module RosterPermanence {
  import opened Base
  import opened Orders
  import opened Closures
  import opened Rosters
  import opened RosterFacts
  import opened RosterLists
  import opened RosterMerge
  import opened RosterFold
  import opened RosterRanking
  import opened RosterVerify

  // ---- Who can be a member ----

  lemma {:induction false} ValidInRooted(o: Sight)
    ensures Founded(o.roster, o.crypto) <= Rooted(o) && Valid(o) <= Rooted(o)
  {
    ClosureMonotone(Seeds(o), Seeds(o), LiveLinks(o), Links(o.roster, o.crypto));
    ClosureMonotone(ConsentedRoots(o.roster, o.crypto), Seeds(o), Links(o.roster, o.crypto), Links(o.roster, o.crypto));
  }

  // A member is exactly a device nobody effectively removed to which a chain of vouches
  // that still count leads, from a consented root or an ask that matured.
  lemma {:induction false} MemberByPath(o: Sight, d: string)
    ensures d in Members(o) <==> d !in RemovedDevices(o) && exists p :: Path(p, Seeds(o), LiveLinks(o), d)
  {
    ClosureIsReachable(Seeds(o), LiveLinks(o), d);
  }

  lemma {:induction false} MembersConsented(o: Sight)
    ensures Members(o) <= Rooted(o) <= Consented(o.roster)
  {
    ValidInRooted(o);
    LinksAre(o.roster, o.crypto);
    ClosureIs(Seeds(o), Links(o.roster, o.crypto));
    assert Closed(Consented(o.roster), Links(o.roster, o.crypto));
  }

  // A member belongs without anyone waiting, or descends from an ask first seen at least
  // seven days ago, that no founded device refused, in a base that lets asks wait.
  lemma {:induction false} MemberFoundedOrWaited(o: Sight, d: string)
    requires d in Members(o)
    ensures d in Founded(o.roster, o.crypto) ||
            exists p :: Path(p, Matured(o), Links(o.roster, o.crypto), d) &&
                        o.seen[p[0]] + PENDING_MATURITY_MS <= o.now && !NoWait(o.roster, o.crypto)
  {
    ValidInRooted(o);
    var links := Links(o.roster, o.crypto);
    ClosureUnion(ConsentedRoots(o.roster, o.crypto), Matured(o), links);
    if d !in Founded(o.roster, o.crypto) {
      ClosureIsReachable(Matured(o), links, d);
      var p :| Path(p, Matured(o), links, d);
      assert p[0] in Matured(o);
    }
  }

  // What a founded device removed is no member, whatever matured and whoever else vouched.
  lemma {:induction false} RefusedNeverMember(o: Sight)
    ensures Refused(o.roster, o.crypto) !! Members(o)
  {
    ValidInRooted(o);
    hide Founded, Rooted, Valid, BaseOf, Asking;
    forall d | d in Refused(o.roster, o.crypto) ensures d !in Members(o) {
      var x :| x in o.roster.removals && x.base == BaseOf(o.roster, o.crypto)
               && x.signer in Founded(o.roster, o.crypto) && x.device == d;
      if d in Rooted(o) { assert x in Removals(o); }
    }
  }

  // ---- Founded devices, on facts ----

  ghost function Found(f: Facts): set<string> {
    Closure(Roots(f) * DevicesOf(f.consents), Edges(f))
  }

  lemma {:induction false} FoundGrows(f: Facts, h: Facts)
    requires Within(f.(consents := {}), h.(consents := {})) && DevicesOf(f.consents) <= DevicesOf(h.consents)
    ensures Found(f) <= Found(h)
  {
    assert Roots(f) <= Roots(h) && Edges(f) <= Edges(h);
    ClosureMonotone(Roots(f) * DevicesOf(f.consents), Roots(h) * DevicesOf(h.consents), Edges(f), Edges(h));
  }

  lemma {:induction false} FoundSame(h: Facts, g: Facts)
    requires g == h.(pendings := g.pendings)
    ensures Found(h) == Found(g)
  {}

  // ---- What compaction leaves, ceilings or not ----

  // A roster that holds nothing but its own base's statements.
  ghost predicate Kept(r: Roster, c: Crypto) {
    && Filtered(FactsOf(r), NamerOf(r, c)) == FactsOf(r)
    && Keyed(r)
  }

  // Fewer statements of the same base are still nothing but that base's.
  lemma {:induction false} FilteredPart(f: Facts, g: Facts, id: Namer)
    requires Filtered(g, id) == g && Within(f, g) && f.removals <= g.removals && f.recoveries == g.recoveries
    ensures Filtered(f, id) == f
  {
    var h := Filtered(f, id);
    assert forall p | p in f.admits :: p in Filtered(g, id).admits;
    assert forall v | v in f.vouches :: v in Filtered(g, id).vouches;
    assert forall p | p in f.pendings :: p in Filtered(g, id).pendings;
    assert forall x | x in f.removals :: x in Filtered(g, id).removals;
    assert forall k | k in f.consents :: k in Chosen(g.consents);
    hide IsBase, Tip, Past;
    assert h.consents == f.consents;
    assert h.vouches == f.vouches && h.pendings == f.pendings && h.removals == f.removals;
    assert h.admits == f.admits;
  }

  lemma {:induction false} TiesOnly(rs: seq<Recovery>, cut: seq<Recovery>)
    requires Elems(cut) <= Elems(Latest(rs))
    ensures Tip(Elems(cut)) == Elems(cut)
  {
    LatestElems(rs);
    hide Latest;
    forall x | x in Elems(cut) ensures x in Tip(Elems(cut)) {
      assert forall y | y in Elems(cut) :: y in Tip(Elems(rs)) && x in Tip(Elems(rs));
    }
  }

  lemma {:induction false} ChosenOnce(cs: seq<Consent>)
    ensures Chosen(Elems(OneConsentEach(cs))) == Elems(OneConsentEach(cs))
  {
    ConsentsLeft(cs);
    ChosenAbsorbs(Elems(cs), {});
    assert Chosen(Elems(cs)) + {} == Chosen(Elems(cs)) && Elems(cs) + {} == Elems(cs);
  }

  lemma {:induction false} UnsupersededKept(r: Roster, c: Crypto)
    ensures var u := Unsuperseded(r, c);
            Filtered(FactsOf(u), NamerOf(u, c)) == FactsOf(u)
  {
    var u := Unsuperseded(r, c);
    UnsupersededParts(r, c);
    CurrentBase(u, c);
    KeysInjective();
    SortUniqueFacts(Latest(r.recoveries), RecoveryKey);
    CapFacts(SortUnique(Latest(r.recoveries), RecoveryKey), MAX_RECOVERY_TIES, RecoveryKey);
    assert Elems(u.recoveries) <= Elems(Latest(r.recoveries));
    hide Unsuperseded, Latest, SortUnique, Injective;
    TiesOnly(r.recoveries, u.recoveries);
    var cur := CurrentRecovery(r.(recoveries := u.recoveries), c);
    hide CurrentRecovery, BaseOf;
    AdmitsLeft(r.phraseAdmits, cur);
    ChosenOnce(r.consents);
    OfBase(r, BaseOf(u, c));
    LegacyLeft(if cur.Some? then [] else r.legacy);
    hide AdmitsPast, OneConsentEach, VouchesOf, PendingsOf, RemovalsOf, Tip, Chosen, IsBase, Sorted;
    PartsFiltered(u, cur, NamerOf(u, c));
  }

  lemma {:induction false} PartsFiltered(u: Roster, cur: Option<Current>, id: Namer)
    requires Tip(Elems(u.recoveries)) == Elems(u.recoveries) && Chosen(Elems(u.consents)) == Elems(u.consents)
    requires cur.Some? <==> u.recoveries != []
    requires cur.Some? ==> forall at :: Past(at, Elems(u.recoveries)) <==> at > cur.value.at
    requires forall p | p in Elems(u.phraseAdmits) && cur.Some? :: p.at > cur.value.at
    requires cur.Some? ==> Elems(u.legacy) == {}
    requires var b := RosterFacts.Base(Elems(u.recoveries), id);
             && (forall v | v in Elems(u.vouches) :: v.base == b) && (forall p | p in Elems(u.pendings) :: p.base == b)
             && (forall x | x in Elems(u.removals) :: x.base == b)
    ensures Filtered(FactsOf(u), id) == FactsOf(u)
  {
    NoElems(u.recoveries);
    hide Tip, Chosen, IsBase;
    var f, h := FactsOf(u), Filtered(FactsOf(u), id);
    assert h.admits == f.admits;
    assert h.vouches == f.vouches && h.pendings == f.pendings && h.removals == f.removals;
  }

  // What is left holds nothing but its own base's statements, whatever was cut.
  lemma {:induction false} CompactedKept(r: Roster, c: Crypto)
    requires Keyed(r)
    ensures Kept(Compacted(r, c), c)
    ensures BaseOf(Compacted(r, c), c) == BaseOf(Surviving(r, c), c)
  {
    UnsupersededKept(r, c);
    CompactedPart(r, c);
    var u, s := Unsuperseded(r, c), Surviving(r, c);
    assert s.recoveries == u.recoveries && s.master == u.master && s.rPub == u.rPub;
    SurvivingWithin(r, c);
    hide Unsuperseded, Filtered, CurrentRecovery;
    TrimmedPart(s, Standing(s, c));
    hide Surviving, Standing, Trimmed;
    var m := Compacted(r, c);
    FilteredPart(FactsOf(m), FactsOf(u), NamerOf(u, c));
    SamePhraseBase(m, s, c);
    NoElems(r.recoveries);
    NoElems(r.phraseAdmits);
    NoElems(m.recoveries);
    NoElems(m.phraseAdmits);
  }

  lemma {:induction false} SamePhraseBase(m: Roster, s: Roster, c: Crypto)
    requires m.recoveries == s.recoveries && m.master == s.master && m.rPub == s.rPub
    ensures BaseOf(m, c) == BaseOf(s, c)
  {}

  lemma {:induction false} SurvivingWithin(r: Roster, c: Crypto)
    ensures var f, g := FactsOf(Surviving(r, c)), FactsOf(Unsuperseded(r, c));
            Within(f, g) && f.removals <= g.removals && f.recoveries == g.recoveries
  {
    hide Unsuperseded;
  }

  // ---- Removals in force ----

  // A removal of the current base by a founded device.
  ghost predicate InForce(x: Removal, r: Roster, c: Crypto) {
    x in r.removals && x.base == BaseOf(r, c) && x.signer in Founded(r, c)
  }

  lemma {:induction false} KeptRoots(r: Roster, c: Crypto)
    requires Kept(r, c)
    ensures BaseRoots(r, c) == Roots(FactsOf(r))
  {
    var f := FactsOf(r);
    CurrentBase(r, c);
    assert forall p | p in r.phraseAdmits :: p in f.admits && p in Filtered(f, NamerOf(r, c)).admits;
    NoElems(r.legacy);
  }

  lemma {:induction false} FoundedFacts(r: Roster, c: Crypto)
    requires Kept(r, c)
    ensures Founded(r, c) == Found(FactsOf(r))
  {
    var f := FactsOf(r);
    CurrentBase(r, c);
    LinksAre(r, c);
    ConsentedIs(r);
    KeptRoots(r, c);
    assert forall v | v in r.vouches :: v in f.vouches && v in Filtered(f, NamerOf(r, c)).vouches;
    hide Closure, BaseOf, CurrentRecovery, BaseRoots, Consented, Filtered, Roots, DevicesOf;
    assert Links(r, c) == Edges(f);
    assert ConsentedRoots(r, c) == Roots(f) * DevicesOf(f.consents);
  }

  // What merging a roster into a kept one starts from.
  lemma {:induction false} JoinedHolds(a: Roster, b: Roster)
    ensures var f, u := FactsOf(a), FactsOf(Joined(a, b));
            Within(f, u) && f.removals <= u.removals
    ensures a.rPub != "" ==> Joined(a, b).rPub == a.rPub
  {
    KeysInjective();
    hide Injective, SortUnique;
    SortedConcat(a.recoveries, b.recoveries, RecoveryKey);
    SortedConcat(a.phraseAdmits, b.phraseAdmits, PhraseKey);
    SortedConcat(a.consents, b.consents, ConsentKey);
    SortedConcat(a.vouches, b.vouches, VouchKey);
    SortedConcat(a.pendings, b.pendings, PendingKey);
    SortedConcat(a.legacy, b.legacy, LegacyKey);
    SortedConcat(a.removals, b.removals, RemovalKey);
  }

  // A merge that leaves the base as it is, with room for the phrase's and the master's own
  // statements. Consents, vouches, asks and removals may be cut.
  ghost predicate KeepsBase(a: Roster, b: Roster, c: Crypto) {
    var j := Joined(a, b);
    && a.master == b.master && a.master != ""
    && RoomForPhrase(j, c) && Distinct(Elems(j.recoveries), NamerOf(j, c))
    && BaseOf(Merged(a, b, c), c) == BaseOf(a, c)
  }

  lemma {:induction false} KeptUnder(a: Roster, c: Crypto, rPub: string)
    requires Kept(a, c) && (a.rPub == "" || a.rPub == rPub)
    ensures var f, id := FactsOf(a), Naming(a.master, rPub, c);
            Filtered(f, id) == f && RosterFacts.Base(f.recoveries, id) == BaseOf(a, c)
  {
    CurrentBase(a, c);
    if a.rPub == "" {
      var f := FactsOf(a);
      assert f.recoveries == {};
      assert Filtered(f, NamerOf(a, c)) == Filtered(f, Naming(a.master, rPub, c));
    }
  }

  lemma {:induction false} JoinedKey(a: Roster, b: Roster)
    ensures Joined(a, b).rPub == "" ==> a.rPub == "" && Joined(a, b).recoveries == a.recoveries
                                        && Joined(a, b).phraseAdmits == a.phraseAdmits
  {}

  // On facts: what a part holds of the base it shares with the whole is founded there too.
  lemma {:induction false} FoundedGrows(f: Facts, u: Facts, id: Namer, g: Facts)
    requires Filtered(f, id) == f && Within(f, u) && f.removals <= u.removals && Distinct(u.recoveries, id)
    requires RosterFacts.Base(f.recoveries, id) == RosterFacts.Base(u.recoveries, id)
    requires g == Filtered(u, id).(pendings := g.pendings)
    ensures Found(f) <= Found(g) && f.removals <= g.removals
  {
    var h := Filtered(u, id);
    PartsGrow(f, u, id);
    assert forall x | x in f.removals :: x in Filtered(f, id).removals;
    assert f.removals <= g.removals;
    hide Filtered, Distinct;
    FoundGrows(f, h);
    hide Found;
    FoundSame(h, g);
  }

  lemma {:induction false} FirstTierIs(s: Roster, c: Crypto)
    requires Clean(s)
    ensures FirstTierOf(Standing(s, c)) == Found(FactsOf(s))
  {
    StandingShape(s, c);
    RootsFacts(s, c);
    hide Standing, Closure, BaseRoots, Roots, Edges, VouchEdges, Consented, DevicesOf, Grounded, Stepwise, Clean;
  }

  // What a removal in force becomes once the rosters are joined: one by a founded device.
  lemma {:induction false} InForceJoined(a: Roster, b: Roster, x: Removal, c: Crypto)
    requires Kept(a, c) && InForce(x, a, c) && KeepsBase(a, b, c)
    ensures var s := Surviving(Joined(a, b), c);
            x in s.removals && x.base == BaseOf(s, c) && x.signer in FirstTierOf(Standing(s, c))
  {
    var j := Joined(a, b);
    JoinedHolds(a, b);
    JoinedKey(a, b);
    KeptUnder(a, c, j.rPub);
    CompactedKept(j, c);
    assert j.master == a.master && Merged(a, b, c) == Compacted(j, c);
    SurvivorFacts(j, c);
    CurrentKept(j, c);
    FoundedFacts(a, c);
    var s := Surviving(j, c);
    SurvivingBase(j, c);
    hide Joined, Compacted, Merged, BaseOf, Filtered, Unsuperseded, CurrentRecovery, Standing, Founded, Surviving, Kept,
         Found, Stand, Latest, SortUnique;
    FoundedGrows(FactsOf(a), FactsOf(j), NamerOf(j, c), FactsOf(s));
    FirstTierIs(s, c);
    hide *;
    TakeRemoval(x, a, s);
  }

  lemma {:induction false} TakeRemoval(x: Removal, a: Roster, s: Roster)
    requires x in a.removals && FactsOf(a).removals <= FactsOf(s).removals
    ensures x in s.removals
  {
    assert x in FactsOf(a).removals;
  }

  lemma {:induction false} SurvivingBase(r: Roster, c: Crypto)
    ensures BaseOf(Surviving(r, c), c) == BaseOf(Unsuperseded(r, c), c)
  {
    hide Unsuperseded;
  }

  // ---- Exactly which removals stay in force ----

  lemma {:induction false} SurvivingRemovals(r: Roster, c: Crypto, x: Removal)
    ensures var s := Surviving(r, c); x in s.removals <==> x in r.removals && x.base == BaseOf(s, c)
  {
    UnsupersededParts(r, c);
    SurvivingBase(r, c);
    var u := Unsuperseded(r, c);
    OfBase(r, BaseOf(u, c));
    assert Surviving(r, c).removals == u.removals;
    hide Unsuperseded, Surviving, BaseOf, RemovalsOf, CurrentRecovery;
    assert x in u.removals <==> x in Elems(u.removals);
  }

  // A removal is in force in a compacted roster exactly when it was stated, is of the
  // current base and what ranks before it and before what its signer rests on leaves room.
  lemma {:induction false} InForceExactly(r: Roster, x: Removal, c: Crypto)
    ensures var s := Surviving(r, c);
            InForce(x, Compacted(r, c), c) <==>
              x in r.removals && x.base == BaseOf(s, c) && Lasts(x, s, Standing(s, c))
  {
    var s := Surviving(r, c);
    SurvivingRemovals(r, c, x);
    RemovalSurvives(r, x, c);
    FoundedExactly(r, x.signer, c);
    TrimmedIs(s, Standing(s, c), c);
    hide Surviving, Standing, Trimmed, Founded, BaseOf, Ahead, TreeReaches, Outranking, BaseRoots, KeptConsents,
         Ranking;
  }

  // And who is refused there.
  lemma {:induction false} RefusedExactly(r: Roster, c: Crypto)
    ensures var s := Surviving(r, c);
            Refused(Compacted(r, c), c) ==
              set x | x in r.removals && x.base == BaseOf(s, c) && Lasts(x, s, Standing(s, c)) :: x.device
  {
    hide Surviving, Standing, Compacted, Founded, BaseOf, Lasts;
    var m, s := Compacted(r, c), Surviving(r, c);
    forall x: Removal
      ensures x in m.removals && x.base == BaseOf(m, c) && x.signer in Founded(m, c) <==>
              x in r.removals && x.base == BaseOf(s, c) && Lasts(x, s, Standing(s, c))
    {
      InForceExactly(r, x, c);
    }
  }

  // Whether a merge keeps a removal in force: the masters differ, so nothing is merged, or
  // the base is still the removal's and there is room for it.
  ghost predicate Keeps(a: Roster, b: Roster, x: Removal, c: Crypto) {
    var s := Surviving(Joined(a, b), c);
    || (a.master != "" && b.master != a.master)
    || (x.base == BaseOf(s, c) && Lasts(x, s, Standing(s, c)))
  }

  lemma {:induction false} JoinedRemovals(a: Roster, b: Roster, x: Removal)
    ensures x in Joined(a, b).removals <==> x in a.removals || x in b.removals
  {
    KeysInjective();
    SortedConcat(a.removals, b.removals, RemovalKey);
    hide SortUnique, Injective, Sorted;
    assert x in Joined(a, b).removals <==> x in Elems(Joined(a, b).removals);
    assert x in a.removals <==> x in Elems(a.removals);
    assert x in b.removals <==> x in Elems(b.removals);
  }

  // A merge of rosters of one master has in force what either states and there is room for.
  lemma {:induction false} MergedInForce(a: Roster, b: Roster, x: Removal, c: Crypto)
    requires a.master == "" || b.master == a.master
    ensures InForce(x, Merged(a, b, c), c) <==> (x in a.removals || x in b.removals) && Keeps(a, b, x, c)
  {
    hide Joined, Compacted, BaseOf, Surviving, Standing, Lasts, InForce;
    JoinedRemovals(a, b, x);
    InForceExactly(Joined(a, b), x, c);
  }

  lemma {:induction false} MergeKeepsRemoval(a: Roster, b: Roster, x: Removal, c: Crypto)
    requires InForce(x, a, c)
    ensures InForce(x, Merged(a, b, c), c) <==> Keeps(a, b, x, c)
  {
    hide Joined, Compacted, BaseOf, Surviving, Standing, Lasts, Founded;
    if a.master == "" || b.master == a.master { MergedInForce(a, b, x, c); }
  }

  ghost function RemovedBy(s: Roster, ds: set<string>): set<string> {
    set x | x in s.removals && x.signer in ds :: x.device
  }

  lemma {:induction false} LastsWhileFit(r: Roster, x: Removal, c: Crypto)
    requires var s := Surviving(r, c); FoundedFit(s, Standing(s, c))
    ensures var s := Surviving(r, c);
            InForce(x, Compacted(r, c), c) <==> x in s.removals && x.signer in FirstTierOf(Standing(s, c))
  {
    hide BaseOf, Surviving, Standing, FoundedFit, Ahead, TreeReaches, Outranking, Compacted, InForce;
    var s := Surviving(r, c);
    InForceExactly(r, x, c);
    SurvivingRemovals(r, c, x);
    if x in s.removals && x.signer in FirstTierOf(Standing(s, c)) { FitLasts(x, s, c); }
  }

  // While founded devices and their removals fit, a merge refuses exactly whom the devices
  // the roots reach have removed.
  lemma {:induction false} RefusedWhileFit(a: Roster, b: Roster, c: Crypto)
    requires a.master == "" || b.master == a.master
    requires var s := Surviving(Joined(a, b), c); FoundedFit(s, Standing(s, c))
    ensures var s := Surviving(Joined(a, b), c);
            Refused(Merged(a, b, c), c) == RemovedBy(s, FirstTierOf(Standing(s, c)))
  {
    hide Joined, Compacted, Founded, BaseOf, Surviving, Standing, FoundedFit, FirstTierOf;
    forall x: Removal { LastsWhileFit(Joined(a, b), x, c); }
  }

  // So a merge that keeps the base, with room for what founds a device, keeps everyone
  // removed.
  lemma {:induction false} MergeKeepsRefusals(a: Roster, b: Roster, c: Crypto)
    requires Kept(a, c) && KeepsBase(a, b, c)
    requires var s := Surviving(Joined(a, b), c); FoundedFit(s, Standing(s, c))
    ensures Refused(a, c) <= Refused(Merged(a, b, c), c)
  {
    hide Joined, Merged, BaseOf, Surviving, Standing, Lasts, Kept, Founded, RoomForPhrase, Distinct, FoundedFit,
         KeepsBase, FirstTierOf;
    forall d | d in Refused(a, c) ensures d in Refused(Merged(a, b, c), c) {
      var x :| InForce(x, a, c) && x.device == d;
      InForceJoined(a, b, x, c);
      FitLasts(x, Surviving(Joined(a, b), c), c);
      MergeKeepsRemoval(a, b, x, c);
    }
  }

  // ---- Over a whole run of merges ----

  // The rosters held while `shown` are merged in one after another.
  ghost function Held(a: Roster, shown: seq<Roster>, c: Crypto): Roster {
    if shown == [] then a else Merged(Held(a, shown[..|shown| - 1], c), shown[|shown| - 1], c)
  }

  ghost predicate AllKeep(a: Roster, shown: seq<Roster>, x: Removal, c: Crypto) {
    forall i | 0 <= i < |shown| :: Keeps(Held(a, shown[..i], c), shown[i], x, c)
  }

  lemma {:induction false} HeldNext(a: Roster, shown: seq<Roster>, x: Removal, c: Crypto, i: nat)
    requires i < |shown| && InForce(x, Held(a, shown[..i], c), c)
    ensures InForce(x, Held(a, shown[..i + 1], c), c) <==> Keeps(Held(a, shown[..i], c), shown[i], x, c)
  {
    hide InForce, Keeps, Merged;
    var next := shown[..i + 1];
    assert next[..|next| - 1] == shown[..i] && next[|next| - 1] == shown[i];
    MergeKeepsRemoval(Held(a, shown[..i], c), shown[i], x, c);
  }

  lemma {:induction false} HeldInForce(a: Roster, shown: seq<Roster>, x: Removal, c: Crypto, i: nat)
    requires InForce(x, a, c) && AllKeep(a, shown, x, c) && i <= |shown|
    ensures InForce(x, Held(a, shown[..i], c), c)
  {
    hide InForce, Keeps, Merged;
    if i == 0 {
      assert shown[..i] == [];
    } else {
      hide Held;
      HeldInForce(a, shown, x, c, i - 1);
      HeldNext(a, shown, x, c, i - 1);
    }
  }

  // A device a founded device removed stays removed throughout a run of merges exactly when
  // each of them keeps the removal. It is then never a member, whatever an observer saw when
  // and however far the clock runs on.
  lemma {:induction false} RemovedForGood(a: Roster, shown: seq<Roster>, x: Removal, c: Crypto)
    requires InForce(x, a, c)
    ensures AllKeep(a, shown, x, c) <==> forall i | 0 <= i <= |shown| :: InForce(x, Held(a, shown[..i], c), c)
    ensures AllKeep(a, shown, x, c) ==>
              forall i, seen, now | 0 <= i <= |shown| ::
                x.device !in Members(Sight(Held(a, shown[..i], c), seen, now, c))
  {
    hide InForce, Keeps, Held, Members;
    if AllKeep(a, shown, x, c) {
      forall i | 0 <= i <= |shown| ensures InForce(x, Held(a, shown[..i], c), c) { HeldInForce(a, shown, x, c, i); }
      forall i, seen, now | 0 <= i <= |shown|
        ensures x.device !in Members(Sight(Held(a, shown[..i], c), seen, now, c))
      {
        InForceBars(x, Sight(Held(a, shown[..i], c), seen, now, c));
      }
    }
    if forall i | 0 <= i <= |shown| :: InForce(x, Held(a, shown[..i], c), c) {
      forall i | 0 <= i < |shown| ensures Keeps(Held(a, shown[..i], c), shown[i], x, c) {
        assert InForce(x, Held(a, shown[..i], c), c) && InForce(x, Held(a, shown[..i + 1], c), c);
        HeldNext(a, shown, x, c, i);
      }
    }
  }

  lemma {:induction false} InForceBars(x: Removal, o: Sight)
    requires InForce(x, o.roster, o.crypto)
    ensures x.device !in Members(o)
  {
    hide Founded, Members, BaseOf;
    RefusedNeverMember(o);
    assert x.device in Refused(o.roster, o.crypto);
  }
}
