// Where the ceilings of relay-uws/src/roster.h (compacted) decide: rosters on which a
// property proved while there is room fails.
module RosterLimits {
  import opened Base
  import opened Orders
  import opened Closures
  import opened Rosters
  import opened RosterFacts
  import opened RosterLists
  import opened RosterMerge
  import opened RosterFold
  import opened RosterFirstSight
  import opened RosterVerify
  import opened RosterRanking
  import opened RosterPermanence
  import B = RosterBooks

  // ---- A removal with as many before it as the ceiling ----

  function Nth(i: nat): string {
    seq(i + 1, _ => 'q')
  }

  // Two devices the master claimed before there was a phrase. One removed the other.
  function Claims(removals: seq<Removal>): Roster {
    Roster("m", "", [], [], [Consent("a", ""), Consent("b", "")], [], [],
           [LegacyClaim("a", ""), LegacyClaim("b", "")], removals)
  }

  const REMOVAL := Removal(LEGACY_BASE, "a", "b", [], "")

  // The other's own removals, of devices nobody knows.
  function Spree(n: nat): (xs: seq<Removal>)
    ensures |xs| == n && forall i | 0 <= i < n :: xs[i] == Removal(LEGACY_BASE, Nth(i), "a", [], "")
  {
    if n == 0 then [] else Spree(n - 1) + [Removal(LEGACY_BASE, Nth(n - 1), "a", [], "")]
  }

  lemma {:induction false} OneMoreElem<T>(xs: seq<T>, x: T)
    requires x !in xs
    ensures |Elems(xs + [x])| == |Elems(xs)| + 1
  {
    assert Elems(xs + [x]) == Elems(xs) + {x};
  }

  lemma {:induction false} SpreeSize(n: nat)
    ensures |Elems(Spree(n))| == n
    ensures forall y | y in Spree(n) :: y.signer == "a" && y.base == LEGACY_BASE && y.device != "a" && |y.device| <= n
  {
    if n == 0 {
      assert Elems(Spree(n)) == {};
    } else {
      SpreeSize(n - 1);
      var less, last := Spree(n - 1), Removal(LEGACY_BASE, Nth(n - 1), "a", [], "");
      assert Spree(n) == less + [last];
      hide Spree;
      assert last.device[0] == 'q' && |last.device| == n;
      hide Nth;
      OneMoreElem(less, last);
    }
  }

  function Showing(): Roster {
    Named("m").(consents := [Consent("a", "")], legacy := [LegacyClaim("a", "")],
                removals := SortUnique(Spree(MAX_REMOVALS), RemovalKey))
  }

  lemma {:induction false} ShowingIs()
    ensures Elems(Showing().removals) == Elems(Spree(MAX_REMOVALS)) && Sorted(Showing().removals, RemovalKey)
    ensures |Showing().removals| == MAX_REMOVALS
  {
    KeysInjective();
    hide Spree, Injective, SortUnique;
    SortUniqueFacts(Spree(MAX_REMOVALS), RemovalKey);
    SortedSize(Showing().removals, RemovalKey);
    SpreeSize(MAX_REMOVALS);
  }

  ghost predicate Plain(a: Roster, b: Roster) {
    && Together(a, b) && a.rPub == "" && b.rPub == "" && Keyed(a) && Keyed(b)
    && |Elems(a.legacy) + Elems(b.legacy)| <= MAX_LEGACY
  }

  lemma {:induction false} PlainRoom(j: Roster, c: Crypto)
    requires j.recoveries == [] && j.phraseAdmits == [] && |Elems(j.legacy)| <= MAX_LEGACY
    ensures RoomForPhrase(j, c) && BaseOf(j, c) == LEGACY_BASE && BaseOf(Surviving(j, c), c) == LEGACY_BASE
  {
    LegacyLeft(j.legacy);
    SortedSize(SortUnique(j.legacy, LegacyKey), LegacyKey);
    hide OneConsentEach, VouchesOf, PendingsOf, RemovalsOf, Sorted;
    var u := Unsuperseded(j, c);
    assert u.recoveries == [] && u.legacy == SortUnique(j.legacy, LegacyKey) && u.phraseAdmits == [];
  }

  lemma {:induction false} NoRecoveries(a: Roster, b: Roster, c: Crypto)
    requires Plain(a, b)
    ensures var j := Joined(a, b);
            && FactsOf(j) == Join(FactsOf(a), FactsOf(b)) && RoomForPhrase(j, c) && Elems(j.recoveries) == {}
            && BaseOf(j, c) == LEGACY_BASE && BaseOf(Surviving(j, c), c) == LEGACY_BASE
            && Merged(a, b, c) == Compacted(j, c)
  {
    JoinedFacts(a, b);
    var j := Joined(a, b);
    assert j.recoveries == [] && j.phraseAdmits == [];
    hide Joined, Compacted, SortedLists, RoomForPhrase, BaseOf, Surviving;
    assert Elems(j.legacy) == FactsOf(j).legacy;
    PlainRoom(j, c);
  }

  // What survives of the two joined: everything.
  lemma {:induction false} BothSurvive(a: Roster, b: Roster, c: Crypto)
    requires Plain(a, b)
    ensures var s := Surviving(Joined(a, b), c);
            && Elems(s.legacy) == Elems(a.legacy) + Elems(b.legacy)
            && Elems(s.recoveries) == {} && Elems(s.phraseAdmits) == {}
            && Consented(s) == Consented(a) + Consented(b) && Clean(s) && Own(s, c)
            && Elems(s.vouches) == (set v | v in Elems(a.vouches) + Elems(b.vouches) && v.base == LEGACY_BASE)
            && Elems(s.removals) == (set x | x in Elems(a.removals) + Elems(b.removals) && x.base == LEGACY_BASE)
            && Elems(s.pendings) <= (set p | p in Elems(a.pendings) + Elems(b.pendings) && p.base == LEGACY_BASE)
  {
    NoRecoveries(a, b, c);
    var j := Joined(a, b);
    SurvivorFacts(j, c);
    SurvivingOwn(j, c);
    ConsentedIs(a);
    ConsentedIs(b);
    ConsentedIs(Surviving(j, c));
    FilteredJoin(FactsOf(a), FactsOf(b), NamerOf(j, c));
    hide Joined, Surviving, Filtered, Join, Own, Clean, Consented, DevicesOf, Stand, Standing, Chosen, Unsuperseded;
    assert Elems(a.recoveries) == {} && Elems(b.recoveries) == {};
    assert Elems(a.recoveries) + Elems(b.recoveries) == {};
    assert Elems(a.phraseAdmits) == {} && Elems(b.phraseAdmits) == {};
  }

  lemma {:induction false} TwoClaims()
    ensures var a, b := Claims([REMOVAL]), Showing();
            && Plain(a, b)
            && Elems(a.legacy) + Elems(b.legacy) == {LegacyClaim("a", ""), LegacyClaim("b", "")}
            && Consented(a) == {"a", "b"} && Consented(b) == {"a"} && Elems(a.vouches) + Elems(b.vouches) == {}
            && Elems(a.removals) == {REMOVAL}
  {
    hide Spree, SortUnique;
    var a, b := Claims([REMOVAL]), Showing();
    var claims := {LegacyClaim("a", ""), LegacyClaim("b", "")};
    assert Elems(a.legacy) == claims && Elems(b.legacy) == {LegacyClaim("a", "")};
    assert claims + Elems(b.legacy) == claims && |claims| == 2;
    assert a.consents[0] in a.consents && a.consents[1] in a.consents && b.consents[0] in b.consents;
  }

  // Both devices are roots, and nobody else stands before an ask.
  lemma {:induction false} BothRooted(s: Roster, c: Crypto)
    requires Clean(s) && Elems(s.recoveries) == {} && Elems(s.phraseAdmits) == {} && Elems(s.vouches) == {}
    requires Elems(s.legacy) == {LegacyClaim("a", ""), LegacyClaim("b", "")} && Consented(s) == {"a", "b"}
    ensures var stand := Standing(s, c);
            && "a" in stand && stand["a"] == Place(0, 0) && "b" in stand && stand["b"] == Place(0, 0)
            && FirstTierOf(stand) == {"a", "b"} && BaseRoots(s, c) == {"a", "b"}
  {
    StandingShape(s, c);
    RootsFacts(s, c);
    hide Standing, Stepwise, Clean, BaseRoots, Consented;
    var f := FactsOf(s);
    assert Roots(f) == {"a", "b"} by {
      assert LegacyClaim("a", "") in f.legacy && LegacyClaim("b", "") in f.legacy;
    }
    assert Edges(f) == {};
    ClosedClosure({"a", "b"}, {});
    var stand := Standing(s, c);
    hide Closure, Roots, Edges;
    assert {"a", "b"} * {"a", "b"} == {"a", "b"};
    assert forall d | d in {"a", "b"} :: d in stand && stand[d].tier == 0;
    assert forall d | d in stand && stand[d].tier == 0 :: stand[d].depth == 0;
  }

  lemma {:induction false} NameFirst(stand: Places, x: Removal, y: Removal)
    requires "a" in stand && stand["a"] == Place(0, 0) && "b" in stand && stand["b"] == Place(0, 0)
    requires y.signer == "a" && x.signer == "b"
    ensures KeyLess(RemovalRank(stand)(y), RemovalRank(stand)(x))
  {
    var p, q := RankKey(stand, "a") + RemovalKey(y), RankKey(stand, "b") + RemovalKey(x);
    assert p[0] == q[0] == Num(0) && p[1..][0] == q[1..][0] == Num(0);
    assert p[1..][1..][0] == Str("a") && q[1..][1..][0] == Str("b");
    assert StrLess("a", "b");
    assert KeyLess(p[1..][1..], q[1..][1..]);
    assert KeyLess(p[1..], q[1..]);
  }

  lemma {:induction false} AllBefore(s: Roster, stand: Places, xs: seq<Removal>)
    requires "a" in stand && stand["a"] == Place(0, 0) && "b" in stand && stand["b"] == Place(0, 0)
    requires forall y | y in xs :: y.signer == "a" && y in s.removals
    ensures |Elems(xs)| <= |Outranking(s, stand, REMOVAL)|
  {
    hide KeyLess, RemovalRank;
    forall y | y in Elems(xs) ensures y in Outranking(s, stand, REMOVAL) { NameFirst(stand, REMOVAL, y); }
    SubsetSize(Elems(xs), Outranking(s, stand, REMOVAL));
  }

  lemma {:induction false} ClaimsInForce(c: Crypto)
    ensures Kept(Claims([REMOVAL]), c) && InForce(REMOVAL, Claims([REMOVAL]), c)
            && BaseOf(Claims([REMOVAL]), c) == LEGACY_BASE
  {
    var a := Claims([REMOVAL]);
    assert a.recoveries == [];
    assert Elems(a.recoveries) == {} && Elems(a.phraseAdmits) == {};
    assert Elems(a.vouches) == {} && Elems(a.pendings) == {};
    assert Elems(a.removals) == {REMOVAL};
    CurrentBase(a, c);
    assert Kept(a, c) by {
      var f := FactsOf(a);
      assert Elems(a.consents) == {Consent("a", ""), Consent("b", "")};
      assert Chosen(f.consents) == f.consents;
      hide Chosen;
      assert Filtered(f, NamerOf(a, c)) == f;
    }
    assert "b" in ConsentedRoots(a, c) by {
      assert a.legacy[1] in a.legacy && a.consents[1] in a.consents;
    }
    ClosureIs(ConsentedRoots(a, c), Links(a, c));
  }

  function Both(): Roster {
    Joined(Claims([REMOVAL]), Showing())
  }

  lemma {:induction false} Survivors(c: Crypto)
    ensures var s := Surviving(Both(), c);
            && Clean(s) && Own(s, c) && Consented(s) == {"a", "b"}
            && Elems(s.removals) == {REMOVAL} + Elems(Spree(MAX_REMOVALS))
            && Elems(s.recoveries) == {} && Elems(s.phraseAdmits) == {} && Elems(s.vouches) == {}
            && Elems(s.legacy) == {LegacyClaim("a", ""), LegacyClaim("b", "")}
  {
    var a, b := Claims([REMOVAL]), Showing();
    hide Claims, Showing, Spree, Joined, Surviving, Consented, Own, Plain, Clean, Sorted;
    TwoClaims();
    BothSurvive(a, b, c);
    SpreeSize(MAX_REMOVALS);
    ShowingIs();
    var s := Surviving(Both(), c);
    assert Elems(s.vouches) == {};
    assert Consented(s) == {"a", "b"};
    assert Elems(s.removals) == {REMOVAL} + Elems(Spree(MAX_REMOVALS));
  }

  lemma {:induction false} Lost(c: Crypto)
    ensures forall y | y in Compacted(Both(), c).removals :: y.device != "a"
  {
    hide Both, Spree, Surviving, Own, Clean, Compacted, Standing, BaseRoots, FirstTierOf, Outranking, Consented;
    Survivors(c);
    SpreeSize(MAX_REMOVALS);
    var s := Surviving(Both(), c);
    BothRooted(s, c);
    assert forall y | y in Spree(MAX_REMOVALS) :: y in Elems(s.removals);
    AllBefore(s, Standing(s, c), Spree(MAX_REMOVALS));
    RemovalSurvives(Both(), REMOVAL, c);
    forall y | y in Compacted(Both(), c).removals ensures y.device != "a" {
      RemovalSurvives(Both(), y, c);
      assert y in Elems(s.removals);
    }
  }

  lemma {:induction false} BackAgain(c: Crypto, seen: Clock, now: int)
    ensures "a" in Members(Sight(Compacted(Both(), c), seen, now, c))
  {
    hide Both, Spree, Surviving, Own, Clean, Compacted, Standing, BaseRoots, Consented, Members;
    Survivors(c);
    var s := Surviving(Both(), c);
    BothRooted(s, c);
    Lost(c);
    var stand := Standing(s, c);
    hide FirstTierOf, Ahead;
    OnlyFoundedAhead(s, stand, "a");
    SubsetSize(Ahead(stand, "a"), {"a", "b"});
    assert |{"a", "b"}| == 2;
    UnremovedRoot(Both(), c, seen, now);
  }

  lemma {:induction false} UnremovedRoot(j: Roster, c: Crypto, seen: Clock, now: int)
    requires var s := Surviving(j, c);
             && Own(s, c) && "a" in BaseRoots(s, c) && "a" in Standing(s, c)
             && |Ahead(Standing(s, c), "a")| < MAX_CONSENTS
    requires forall y | y in Compacted(j, c).removals :: y.device != "a"
    ensures "a" in Members(Sight(Compacted(j, c), seen, now, c))
  {
    var s := Surviving(j, c);
    var o := Sight(Compacted(j, c), seen, now, c);
    hide Surviving, Standing, Trimmed, Own, Ahead, BaseRoots, BaseOf, Consented, Matured, LiveLinks, Rooted, Asking,
         Effective;
    TrimmedIs(s, Standing(s, c), c);
    StillConsents(s, c, "a");
    ClosureIs(Seeds(o), LiveLinks(o));
    assert "a" in Seeds(o);
    assert "a" !in RemovedDevices(o);
  }

  lemma {:induction false} MergedLegacy(a: Roster, b: Roster, c: Crypto)
    requires Plain(a, b)
    ensures BaseOf(Merged(a, b, c), c) == LEGACY_BASE
    ensures Distinct(Elems(Joined(a, b).recoveries), NamerOf(Joined(a, b), c))
  {
    NoRecoveries(a, b, c);
    var s := Surviving(Joined(a, b), c);
    hide Surviving, Joined, Merged, Trimmed, Standing, BaseOf, Join, FactsOf, Plain, RoomForPhrase;
    TrimmedIs(s, Standing(s, c), c);
  }

  // ---- The same as showings to a relay ----

  // Every statement verifies. There is no recovery key.
  const ACCEPTING := Crypto((id, sig, msg) => true, (key, sig, msg) => false, id => true, msg => "")

  // Claims, consents and removals by who is claimed, within the ceilings.
  ghost predicate Bare(r: Roster) {
    && r == Named("m").(consents := r.consents, legacy := r.legacy, removals := r.removals)
    && SortedLists(r) && |r.legacy| <= MAX_LEGACY && |r.consents| <= MAX_UNNAMED_CONSENTS
    && |r.removals| <= MAX_REMOVALS
    && (forall x, y | x in r.consents && y in r.consents && x.device == y.device :: x == y)
    && forall x | x in r.removals ::
         && x.base == LEGACY_BASE && x.keepVouched == []
         && Consent(x.signer, "") in r.consents && LegacyClaim(x.signer, "") in r.legacy
  }

  lemma {:induction false} Claimed(f: Facts, d: string)
    requires LegacyClaim(d, "") in f.legacy
    ensures d in Roots(f)
  {}

  lemma {:induction false} SignerStands(f: Facts, d: string)
    requires LegacyClaim(d, "") in f.legacy && Consent(d, "") in f.consents
    ensures d in Stand(f)
  {
    ClosureIs((Roots(f) + Asked(f)) * DevicesOf(f.consents), Edges(f));
    hide Closure;
    Claimed(f, d);
    assert Consent(d, "").device in DevicesOf(f.consents);
  }

  lemma {:induction false} BareCanonical(r: Roster, c: Crypto)
    requires Bare(r)
    ensures Canonical(r, c) && WithinCaps(r)
  {
    var f := FactsOf(r);
    assert f == Facts({}, {}, Elems(r.consents), {}, {}, Elems(r.legacy), Elems(r.removals));
    assert Chosen(f.consents) == f.consents;
    hide Chosen;
    assert Filtered(f, NamerOf(r, c)) == f;
    hide Filtered, SortedLists;
    forall x | x in f.removals ensures x.signer in Stand(f) { SignerStands(f, x.signer); }
    hide Stand;
    assert ByStanding(f) == f;
  }

  lemma {:induction false} NoneLeft<T>(xs: seq<T>)
    ensures Elems(xs) == {} ==> xs == []
  {
    if xs != [] { assert xs[0] in Elems(xs); }
  }

  lemma {:induction false} FilterFewer<T>(xs: seq<T>, keep: T -> bool)
    ensures |Filter(xs, keep)| <= |xs|
  {
    if xs != [] { FilterFewer(xs[1..], keep); }
  }

  // What is left of the consents is no more than was stated.
  lemma {:induction false} FewConsents(s: Roster, stand: Places)
    requires |Elems(s.consents)| <= MAX_UNNAMED_CONSENTS
    ensures var mentioned := Mentioned(Ranking(s, stand));
            var consents := RankedConsents(s.consents, stand, mentioned);
            && |consents| <= MAX_CONSENTS
            && |Filter(consents, (k: Consent) => ConsentClass(k, stand, mentioned) == 2)| <= MAX_UNNAMED_CONSENTS
  {
    var mentioned := Mentioned(Ranking(s, stand));
    ClassInjective(stand, mentioned);
    hide Mentioned, Ranking, Injective;
    var key := ConsentRank(stand, mentioned);
    SortUniqueFacts(s.consents, key);
    SortedSize(RankedConsents(s.consents, stand, mentioned), key);
    hide RankedConsents;
    FilterFewer(RankedConsents(s.consents, stand, mentioned),
                (k: Consent) => ConsentClass(k, stand, mentioned) == 2);
  }

  lemma {:induction false} FewToTrim(s: Roster, stand: Places)
    requires |Elems(s.consents)| <= MAX_UNNAMED_CONSENTS && Elems(s.vouches) == {}
    requires |Elems(s.removals)| <= MAX_REMOVALS
    ensures RoomToTrim(s, stand)
  {
    FewConsents(s, stand);
    RankedElems(s, stand);
    RankedRemovalsAre(s, stand);
    hide RankedVouches, RankedRemovals, RankedConsents, Ranking, Mentioned, Sorted, Filter;
    var vs, xs := RankedVouches(s.vouches, stand), RankedRemovals(s.removals, stand);
    assert Elems(vs) == {};
    NoneLeft(vs);
    SortedSize(xs, RemovalRank(stand));
    SubsetSize(Elems(xs), Elems(s.removals));
  }

  lemma {:induction false} BareSizes(r: Roster)
    requires Bare(r)
    ensures |Elems(r.legacy)| <= MAX_LEGACY && |Elems(r.consents)| <= MAX_UNNAMED_CONSENTS
    ensures |Elems(r.removals)| <= MAX_REMOVALS
    ensures r.recoveries == [] && r.phraseAdmits == [] && r.vouches == [] && r.pendings == []
  {
    hide Sorted;
    SortedSize(r.legacy, LegacyKey);
    SortedSize(r.consents, ConsentKey);
    SortedSize(r.removals, RemovalKey);
  }

  lemma {:induction false} BareRoom(r: Roster, c: Crypto)
    requires Bare(r)
    ensures NoCeiling(r, c)
  {
    hide Surviving, Standing, RoomToTrim, RoomForPhrase, Unsuperseded, BaseOf, Sorted, KeyLess;
    var s := Surviving(r, c);
    BareSizes(r);
    hide Bare;
    PlainRoom(r, c);
    SurvivorsFewer(r, c);
    SubsetSize(Elems(s.consents), Elems(r.consents));
    SubsetSize(Elems(s.removals), Elems(r.removals));
    FewToTrim(s, Standing(s, c));
  }

  lemma {:induction false} SurvivorsFewer(r: Roster, c: Crypto)
    requires r.vouches == [] && r.pendings == []
    ensures var s := Surviving(r, c);
            && Elems(s.consents) <= Elems(r.consents) && Elems(s.removals) <= Elems(r.removals)
            && Elems(s.vouches) == {} && Unsuperseded(r, c).pendings == []
  {
    UnsupersededParts(r, c);
    var u, s := Unsuperseded(r, c), Surviving(r, c);
    OfBase(r, BaseOf(u, c));
    ConsentsLeft(r.consents);
    assert s.consents == u.consents && s.removals == u.removals && s.vouches == u.vouches;
    hide Unsuperseded, BaseOf, OneConsentEach, VouchesOf, PendingsOf, RemovalsOf, Sorted, Surviving, CurrentRecovery;
    assert Elems(u.pendings) == {};
    NoneLeft(u.pendings);
  }

  lemma {:induction false} FilterAll<T>(xs: seq<T>, keep: T -> bool)
    requires forall x | x in xs :: keep(x)
    ensures Filter(xs, keep) == xs
  {
    if xs != [] { FilterAll(xs[1..], keep); }
  }

  lemma {:induction false} BareChecked(r: Roster, now: int)
    requires Bare(r)
    ensures Checked(r, now, ACCEPTING, None) == r
  {
    var c := ACCEPTING;
    hide SortedLists;
    FilterAll(r.consents, ConsentTest("m", c, []));
    forall x | x in r.legacy ensures LegacyTest("m", c, [])(x) { assert c.isKey(x.device); }
    FilterAll(r.legacy, LegacyTest("m", c, []));
    FilterAll(r.removals, RemovalTest("m", c, []));
  }

  lemma {:induction false} BareStays(r: Roster, c: Crypto)
    requires Bare(r)
    ensures Compacted(r, c) == r
  {
    hide *;
    BareCanonical(r, c);
    BareRoom(r, c);
    CanonicalStays(r, c);
  }

  // A relay that checks such a roster takes it as it is.
  lemma {:induction false} BareVerified(r: Roster, now: int)
    requires Bare(r)
    ensures Verified(r, now, ACCEPTING, None) == r
  {
    hide Bare, Checked, Compacted;
    BareChecked(r, now);
    BareStays(r, ACCEPTING);
  }

  lemma {:induction false} ClaimsBare()
    ensures Bare(Claims([REMOVAL]))
  {
    var r := Claims([REMOVAL]);
    assert StrLess("a", "b");
    assert KeyLess(ConsentKey(r.consents[0]), ConsentKey(r.consents[1]));
    assert KeyLess(LegacyKey(r.legacy[0]), LegacyKey(r.legacy[1]));
    hide KeyLess, StrLess;
    assert r.consents[1] == Consent("b", "") && r.legacy[1] == LegacyClaim("b", "");
  }

  lemma {:induction false} ShowingBare()
    ensures Bare(Showing())
  {
    ShowingIs();
    hide Spree, SortUnique, KeyLess;
    var r := Showing();
    assert r.consents[0] == Consent("a", "") && r.legacy[0] == LegacyClaim("a", "");
    forall x | x in r.removals ensures x.base == LEGACY_BASE && x.keepVouched == [] && x.signer == "a" {
      assert x in Elems(r.removals);
      assert x in Spree(MAX_REMOVALS);
    }
  }

  lemma {:induction false} NoAsks(a: Roster, b: Roster, c: Crypto, seen: FirstSeen)
    requires a.pendings == [] && b.pendings == []
    ensures MergedByFirstSight(a, b, c, seen) == Merged(a, b, c)
  {
    hide Merged, BaseOf;
    AsksFacts(a, b, BaseOf(Merged(a, b, c), c), seen);
  }

  lemma {:induction false} SortAgain<T(!new)>(xs: seq<T>, key: T -> Key)
    requires Injective(key) && Sorted(xs, key)
    ensures SortUnique([] + xs, key) == xs
  {
    hide SortUnique, Sorted, Injective;
    assert [] + xs == xs;
    SortUniqueFacts(xs, key);
    SortedSame(SortUnique(xs, key), xs, key);
  }

  lemma {:induction false} MergedNew(r: Roster, c: Crypto)
    requires Bare(r)
    ensures Merged(Named("m"), r, c) == r
  {
    BareStays(r, c);
    KeysInjective();
    hide Compacted, Sorted, SortUnique, Injective;
    SortAgain(r.consents, ConsentKey);
    SortAgain(r.vouches, VouchKey);
    SortAgain(r.pendings, PendingKey);
    SortAgain(r.legacy, LegacyKey);
    SortAgain(r.removals, RemovalKey);
    assert Joined(Named("m"), r) == r;
  }

  lemma {:induction false} FirstShown(r: Roster, now: int)
    requires Bare(r)
    ensures B.Shown(B.Fresh("m"), r, now, ACCEPTING) == B.Record(r, map[])
  {
    hide Compacted, SortedLists, Verified, MergedByFirstSight, ACCEPTING, Merged;
    BareVerified(r, now);
    NoAsks(Named("m"), r, ACCEPTING, map[]);
    MergedNew(r, ACCEPTING);
  }

  // A relay takes the first device's removal of the other. It loses it, and has the other as a
  // member again, once shown as many removals as the ceiling holds that the other made, each
  // ranked before by its name alone.
  lemma {:induction false} RemovalOutranked(first: int, second: int, later: int)
    ensures var c := ACCEPTING;
            var h := B.Shown(B.Fresh("m"), Claims([REMOVAL]), first, c);
            var g := B.Shown(h, Showing(), second, c);
            && InForce(REMOVAL, h.roster, c)
            && WithinCaps(Claims([REMOVAL])) && WithinCaps(Showing()) && Canonical(Showing(), c)
            && Verified(Showing(), second, c, None) == Showing()
            && BaseOf(g.roster, c) == REMOVAL.base && REMOVAL !in g.roster.removals
            && REMOVAL.device in Members(B.SightOf(g, later, c))
  {
    var a, b, c := Claims([REMOVAL]), Showing(), ACCEPTING;
    ClaimsBare();
    ShowingBare();
    FirstShown(a, first);
    BareVerified(b, second);
    BareCanonical(a, c);
    BareCanonical(b, c);
    ClaimsInForce(c);
    TwoClaims();
    NoRecoveries(a, b, c);
    MergedLegacy(a, b, c);
    NoAsks(a, b, c, map[]);
    Lost(c);
    var g := B.Shown(B.Record(a, map[]), b, second, c);
    BackAgain(c, B.ClockOf(g, c), later);
    hide *;
  }

  // ---- Past a ceiling the order of merges matters ----

  const ASK := Pending(LEGACY_BASE, "z", "")
  const VERDICT := Removal(LEGACY_BASE, "k", "z", [], "")

  function Crowd(n: nat): (ps: seq<Pending>)
    ensures |ps| == n && forall i | 0 <= i < n :: ps[i] == Pending(LEGACY_BASE, Nth(i), "")
  {
    if n == 0 then [] else Crowd(n - 1) + [Pending(LEGACY_BASE, Nth(n - 1), "")]
  }

  // As many asks as the ceiling holds; a device that asks and has removed another; and the
  // master's claim that the device is its own.
  function Crowded(): Roster { Named("m").(pendings := SortUnique(Crowd(MAX_PENDING), PendingKey)) }
  function Asker(): Roster { Named("m").(pendings := [ASK], consents := [Consent("z", "")], removals := [VERDICT]) }
  function Claiming(): Roster { Named("m").(legacy := [LegacyClaim("z", "")]) }

  lemma {:induction false} CrowdSize(n: nat)
    ensures |Elems(Crowd(n))| == n
    ensures forall p | p in Crowd(n) ::
              p.base == LEGACY_BASE && p.device != [] && p.device[0] == 'q' && |p.device| <= n
  {
    if n == 0 {
      assert Elems(Crowd(n)) == {};
    } else {
      CrowdSize(n - 1);
      var less, last := Crowd(n - 1), Pending(LEGACY_BASE, Nth(n - 1), "");
      assert Crowd(n) == less + [last];
      hide Crowd;
      assert last.device[0] == 'q' && |last.device| == n;
      hide Nth;
      OneMoreElem(less, last);
    }
  }

  lemma {:induction false} CrowdedIs()
    ensures Elems(Crowded().pendings) == Elems(Crowd(MAX_PENDING)) && Sorted(Crowded().pendings, PendingKey)
  {
    KeysInjective();
    hide Crowd, Injective;
    SortUniqueFacts(Crowd(MAX_PENDING), PendingKey);
  }

  // Each asks before the other, in the order the asks are cut in.
  lemma {:induction false} AskLess(p: Pending)
    requires p.base == LEGACY_BASE && p.device != [] && p.device[0] == 'q'
    ensures KeyLess(PendingKey(p), PendingKey(ASK))
  {
    var x, y := PendingKey(p), PendingKey(ASK);
    assert x[1..][0] == Str(p.device) && y[1..][0] == Str("z");
    assert StrLess(p.device, "z");
    assert KeyLess(x[1..], y[1..]);
  }

  lemma {:induction false} AskCut(c: Crypto)
    ensures ASK !in Surviving(Joined(Crowded(), Asker()), c).pendings
  {
    var a, b := Crowded(), Asker();
    var j := Joined(a, b);
    OrderPlain();
    NoRecoveries(a, b, c);
    CrowdedIs();
    CrowdSize(MAX_PENDING);
    UnsupersededParts(j, c);
    var u, s := Unsuperseded(j, c), Surviving(j, c);
    assert BaseOf(u, c) == BaseOf(s, c) == LEGACY_BASE;
    OfBase(j, LEGACY_BASE);
    hide Unsuperseded, Crowd, SortUnique, BaseOf, CurrentRecovery, PendingsOf, Joined, RoomForPhrase, Compacted, Join;
    var xs := u.pendings;
    assert Elems(j.pendings) == FactsOf(j).pendings == Elems(a.pendings) + {ASK} by {
      assert FactsOf(j) == Join(FactsOf(a), FactsOf(b));
      JoinedPendings(a, b);
    }
    hide FactsOf, Crowded, Asker, Sorted;
    assert forall p :: p in xs <==> p in Elems(xs);
    assert forall p :: p in j.pendings <==> p in Elems(j.pendings);
    forall p | p in Elems(Crowd(MAX_PENDING)) ensures p in Lesser(xs, PendingKey, ASK) { AskLess(p); }
    SubsetSize(Elems(Crowd(MAX_PENDING)), Lesser(xs, PendingKey, ASK));
    CapExact(xs, PendingKey, ASK, MAX_PENDING);
  }

  lemma {:induction false} JoinedPendings(a: Roster, b: Roster)
    ensures Join(FactsOf(a), FactsOf(b)).pendings == Elems(a.pendings) + Elems(b.pendings)
    ensures Elems(Asker().pendings) == {ASK}
  {}

  lemma {:induction false} OrderPlain()
    ensures Plain(Crowded(), Asker()) && Plain(Asker(), Claiming())
    ensures Elems(Asker().removals) == {VERDICT} && Consented(Asker()) == {"z"} && Elems(Asker().vouches) == {}
    ensures Consented(Crowded()) == {} && Consented(Claiming()) == {} && Elems(Crowded().removals) == {}
    ensures Elems(Crowded().legacy) == {} && Elems(Crowded().vouches) == {} && Elems(Asker().legacy) == {}
    ensures Elems(Claiming().legacy) == {LegacyClaim("z", "")} && Elems(Claiming().vouches) == {}
    ensures Elems(Claiming().removals) == {} && Keyed(Crowded()) && Keyed(Claiming()) && Crowded().rPub == ""
  {
    hide Crowd, SortUnique;
    var claim := LegacyClaim("z", "");
    assert Elems(Claiming().legacy) == {claim} && Elems(Asker().legacy) == {} && Elems(Crowded().legacy) == {};
    var none: set<LegacyClaim> := {};
    assert none + {claim} == {claim} && none + none == none && |{claim}| == 1;
  }

  lemma {:induction false} NoAskOfIts(c: Crypto)
    ensures var s := Surviving(Joined(Crowded(), Asker()), c);
            forall p | p in s.pendings :: p.device != "z"
  {
    hide Crowd, Crowded, Asker, Joined, Surviving, Plain, Own, Consented, Clean, Sorted;
    var a, b := Crowded(), Asker();
    OrderPlain();
    BothSurvive(a, b, c);
    AskCut(c);
    CrowdedIs();
    CrowdSize(MAX_PENDING);
    JoinedPendings(a, b);
    var s := Surviving(Joined(a, b), c);
    forall p | p in s.pendings ensures p.device != "z" {
      assert p in Elems(s.pendings);
      assert p == ASK || p in Crowd(MAX_PENDING);
    }
  }

  lemma {:induction false} CutSurvivors(c: Crypto)
    ensures var s := Surviving(Joined(Crowded(), Asker()), c);
            && Clean(s) && Elems(s.recoveries) == {} && Elems(s.phraseAdmits) == {} && Elems(s.legacy) == {}
            && Elems(s.vouches) == {} && Consented(s) == {"z"}
  {
    hide Crowd, Crowded, Asker, Joined, Surviving, Plain, Own, Consented, Clean;
    OrderPlain();
    BothSurvive(Crowded(), Asker(), c);
    var s := Surviving(Joined(Crowded(), Asker()), c);
    assert Elems(s.vouches) == {};
    assert Elems(s.legacy) == {};
    assert Consented(s) == {"z"};
  }

  // Its ask cut, the device no longer stands, and its removal goes with it.
  lemma {:induction false} VerdictLost(c: Crypto)
    ensures VERDICT !in Merged(Crowded(), Asker(), c).removals
  {
    assert VERDICT.signer == "z";
    hide *;
    var j := Joined(Crowded(), Asker());
    var s := Surviving(j, c);
    CutSurvivors(c);
    NoAskOfIts(c);
    StandingFacts(s, c);
    NobodyStands(s);
    RemovalSurvives(j, VERDICT, c);
    MergedMaster(Crowded(), Asker(), c);
    MergedJoined(Crowded(), Asker(), c);
  }

  lemma {:induction false} NobodyStands(s: Roster)
    requires Elems(s.recoveries) == {} && Elems(s.phraseAdmits) == {} && Elems(s.legacy) == {} && Elems(s.vouches) == {}
    requires Consented(s) == {"z"} && forall p | p in s.pendings :: p.device != "z"
    ensures "z" !in Stand(FactsOf(s))
  {
    var f := FactsOf(s);
    ConsentedIs(s);
    assert Roots(f) == {} && Edges(f) == {};
    assert "z" !in Asked(f);
    var seeds := (Roots(f) + Asked(f)) * DevicesOf(f.consents);
    ClosedClosure(seeds, {});
  }

  lemma {:induction false} LostForGood(c: Crypto)
    ensures VERDICT !in Merged(Merged(Crowded(), Asker(), c), Claiming(), c).removals
  {
    hide Crowd, Crowded, Asker, Compacted;
    var ab, d := Merged(Crowded(), Asker(), c), Claiming();
    VerdictLost(c);
    MergedMaster(Crowded(), Asker(), c);
    var j := Joined(ab, d);
    CompactedPart(j, c);
    KeysInjective();
    hide Merged, Injective;
    SortedConcat(ab.removals, d.removals, RemovalKey);
    hide SortUnique;
    var m := Compacted(j, c);
    assert forall x | x in m.removals :: x in Elems(m.removals);
    MergedJoined(ab, d, c);
  }

  lemma {:induction false} MergedMaster(a: Roster, b: Roster, c: Crypto)
    ensures Crowded().master == Asker().master == Claiming().master == "m"
    ensures a.master == b.master ==>
              && Merged(a, b, c).master == a.master && Merged(a, b, c).rPub == Joined(a, b).rPub
  {
    hide Compacted, Crowd, SortUnique;
    CompactedSorted(Joined(a, b), c);
  }

  lemma {:induction false} MergedJoined(a: Roster, b: Roster, c: Crypto)
    requires a.master == b.master
    ensures Merged(a, b, c) == Compacted(Joined(a, b), c)
  {
    hide Compacted, Joined;
  }

  lemma {:induction false} ClaimedSurvivors(c: Crypto)
    ensures var s := Surviving(Joined(Asker(), Claiming()), c);
            && Clean(s) && Consented(s) == {"z"} && Elems(s.legacy) == {LegacyClaim("z", "")}
            && Elems(s.recoveries) == {} && Elems(s.phraseAdmits) == {} && Elems(s.removals) == {VERDICT}
  {
    hide Asker, Claiming, Crowded, Joined, Surviving, Plain, Own, Consented, Clean;
    OrderPlain();
    BothSurvive(Asker(), Claiming(), c);
    var s := Surviving(Joined(Asker(), Claiming()), c);
    assert Elems(s.legacy) == {LegacyClaim("z", "")};
    assert Elems(s.removals) == {VERDICT};
    assert Consented(s) == {"z"};
  }

  lemma {:induction false} ClaimedPlain()
    ensures Keyed(Joined(Asker(), Claiming())) && Joined(Asker(), Claiming()).rPub == ""
  {}

  // Claimed first, the device is founded and its removal in force.
  lemma {:induction false} VerdictInForce(c: Crypto)
    ensures var bd := Merged(Asker(), Claiming(), c);
            && Kept(bd, c) && InForce(VERDICT, bd, c) && BaseOf(bd, c) == LEGACY_BASE && Keyed(bd) && bd.rPub == ""
            && bd.master == "m" && Elems(bd.legacy) <= {LegacyClaim("z", "")} && Consented(bd) <= {"z"}
            && Elems(bd.removals) <= {VERDICT}
  {
    var b, d := Asker(), Claiming();
    var j := Joined(b, d);
    assert Kept(Compacted(j, c), c) && Keyed(Compacted(j, c)) by {
      hide Compacted, Joined;
      ClaimedPlain();
      CompactedKept(j, c);
    }
    hide *;
    OrderPlain();
    ClaimedPlain();
    MergedLegacy(b, d, c);
    MergedMaster(b, d, c);
    MergedJoined(b, d, c);
    ClaimedSurvivors(c);
    ClaimedLasts(Surviving(j, c), c);
    SurvivingRemovals(j, c, VERDICT);
    InForceExactly(j, VERDICT, c);
    TrimmedFewer(j, c);
  }

  lemma {:induction false} TrimmedFewer(j: Roster, c: Crypto)
    ensures var m, s := Compacted(j, c), Surviving(j, c);
            Elems(m.legacy) <= Elems(s.legacy) && Consented(m) <= Consented(s) && Elems(m.removals) <= Elems(s.removals)
  {
    var s := Surviving(j, c);
    hide Surviving, Standing, Trimmed;
    TrimmedPart(s, Standing(s, c));
    var m := Compacted(j, c);
    forall k | k in m.consents ensures k in s.consents {
      assert k in Elems(m.consents);
      assert k in Elems(s.consents);
    }
  }

  lemma {:induction false} ClaimedLasts(s: Roster, c: Crypto)
    requires Clean(s) && Consented(s) == {"z"} && Elems(s.legacy) == {LegacyClaim("z", "")}
    requires Elems(s.recoveries) == {} && Elems(s.phraseAdmits) == {}
    requires Elems(s.removals) == {VERDICT}
    ensures VERDICT in s.removals && Lasts(VERDICT, s, Standing(s, c))
  {
    StandingShape(s, c);
    RootsFacts(s, c);
    hide Standing, Stepwise, Grounded, Clean, BaseRoots, VouchEdges, Lasts;
    var f, stand := FactsOf(s), Standing(s, c);
    assert "z" in BaseRoots(s, c) by { Claimed(f, "z"); }
    var roots, edges := BaseRoots(s, c) * Consented(s), VouchEdges(s.vouches, Consented(s));
    ClosureIs(roots, edges);
    hide Closure;
    assert "z" in roots;
    assert "z" in Closure(roots, edges);
    assert "z" in stand && stand["z"].tier == 0;
    assert VERDICT in s.removals by { assert VERDICT in Elems(s.removals); }
    FewFit(s, stand);
    FitLasts(VERDICT, s, c);
  }

  lemma {:induction false} FewFit(s: Roster, stand: Places)
    requires stand.Keys <= {"z"} && Elems(s.removals) <= {VERDICT}
    ensures FoundedFit(s, stand)
  {
    var made := set x | x in s.removals && x.signer in FirstTierOf(stand);
    assert made <= {VERDICT} by { assert forall x | x in s.removals :: x in Elems(s.removals); }
    SubsetSize(FirstTierOf(stand), {"z"});
    SubsetSize(made, {VERDICT});
  }

  lemma {:induction false} KeptInTheEnd(c: Crypto)
    ensures VERDICT in Merged(Crowded(), Merged(Asker(), Claiming(), c), c).removals
  {
    var a, bd := Crowded(), Merged(Asker(), Claiming(), c);
    OrderPlain();
    VerdictInForce(c);
    MergedMaster(a, a, c);
    hide Asker, Claiming, Crowd, Crowded, Joined, Surviving, Compacted, Consented, RoomForPhrase, BaseOf, Standing,
         Merged, Kept, Founded, FactsOf, Distinct, Own, Clean, Join, Lasts, FoundedFit;
    LegacyFew(bd, a);
    NoRecoveries(bd, a, c);
    MergedLegacy(bd, a, c);
    BothSurvive(bd, a, c);
    hide Plain;
    InForceJoined(bd, a, VERDICT, c);
    var s := Surviving(Joined(bd, a), c);
    StandingShape(s, c);
    hide Closure, Stepwise, Grounded, BaseRoots;
    assert Elems(s.removals) <= {VERDICT};
    FewFit(s, Standing(s, c));
    FitLasts(VERDICT, s, c);
    MergeKeepsRemoval(bd, a, VERDICT, c);
    MergeCommutes(bd, a, c);
  }

  lemma {:induction false} LegacyFew(bd: Roster, a: Roster)
    requires Keyed(bd) && Keyed(a) && bd.rPub == "" && a.rPub == "" && bd.master == a.master == "m"
    requires Elems(bd.legacy) <= {LegacyClaim("z", "")} && Elems(a.legacy) == {}
    ensures Plain(bd, a)
  {
    SubsetSize(Elems(bd.legacy) + Elems(a.legacy), {LegacyClaim("z", "")});
    assert |{LegacyClaim("z", "")}| == 1;
  }

  lemma {:induction false} OrderCanonical(c: Crypto)
    ensures Canonical(Crowded(), c) && Canonical(Asker(), c) && Canonical(Claiming(), c)
  {
    CrowdedIs();
    CrowdSize(MAX_PENDING);
    hide Crowd;
    CrowdedCanonical(c);
    AskingCanonical(c);
    assert Canonical(Claiming(), c) by {
      var f := FactsOf(Claiming());
      assert f == Facts({}, {}, {}, {}, {}, {LegacyClaim("z", "")}, {});
      assert Chosen(f.consents) == {};
      assert Filtered(f, NamerOf(Claiming(), c)) == f;
    }
  }

  lemma {:induction false} CrowdedCanonical(c: Crypto)
    ensures Canonical(Crowded(), c)
  {
    CrowdedIs();
    CrowdSize(MAX_PENDING);
    hide Crowd, SortUnique;
    var r := Crowded();
    var f := FactsOf(r);
    assert f == Facts({}, {}, {}, {}, Elems(Crowd(MAX_PENDING)), {}, {});
    assert Chosen(f.consents) == {};
    assert Filtered(f, NamerOf(r, c)).pendings == f.pendings;
    assert Filtered(f, NamerOf(r, c)) == f;
  }

  lemma {:induction false} AskingCanonical(c: Crypto)
    ensures Canonical(Asker(), c)
  {
    var r := Asker();
    var f := FactsOf(r);
    assert f == Facts({}, {}, {Consent("z", "")}, {}, {ASK}, {}, {VERDICT});
    assert Chosen(f.consents) == f.consents;
    assert Filtered(f, NamerOf(r, c)) == f;
    ClosureIs((Roots(f) + Asked(f)) * DevicesOf(f.consents), Edges(f));
    assert "z" in Asked(f) by { assert ASK in f.pendings; }
    assert "z" in DevicesOf(f.consents) by { assert Consent("z", "") in f.consents; }
    assert "z" in Stand(f);
    assert ByStanding(f) == f;
  }

  // Rosters a holder can keep, of one master, whose merge depends on which two meet first
  // once the asks are past their ceiling: who stands decides what is cut.
  lemma {:induction false} MergeOrderMatters(c: Crypto)
    ensures var a, b, d := Crowded(), Asker(), Claiming();
            && Canonical(a, c) && Canonical(b, c) && Canonical(d, c)
            && Together(a, b) && Together(b, d) && Together(a, d)
            && Merged(Merged(a, b, c), d, c) != Merged(a, Merged(b, d, c), c)
  {
    hide Crowd, SortUnique, Canonical, Merged;
    OrderCanonical(c);
    LostForGood(c);
    KeptInTheEnd(c);
  }
}
