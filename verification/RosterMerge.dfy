// The laws of the roster merge (relay-uws/src/roster.h, merged), on the rosters themselves.
module RosterMerge {
  import opened Base
  import opened Orders
  import opened Closures
  import opened Rosters
  import opened RosterFacts
  import opened RosterLists

  // No phrase statement without the key it is under.
  ghost predicate Keyed(r: Roster) {
    r.rPub == "" ==> r.recoveries == [] && r.phraseAdmits == []
  }

  // A roster as a holder keeps it: lists sorted, nothing left that compaction would drop.
  ghost predicate Canonical(r: Roster, c: Crypto) {
    SortedLists(r) && Settled(FactsOf(r), NamerOf(r, c)) && Keyed(r)
  }

  // Rosters of one master, under one recovery key or none on one side.
  ghost predicate Together(a: Roster, b: Roster) {
    a.master == b.master && a.master != "" && (a.rPub == b.rPub || a.rPub == "" || b.rPub == "")
  }

  function KeyOf(a: Roster, b: Roster): string {
    if b.rPub != "" then b.rPub else a.rPub
  }

  lemma {:induction false} SortedConcat<T(!new)>(a: seq<T>, b: seq<T>, key: T -> Key)
    requires Injective(key)
    ensures Sorted(SortUnique(a + b, key), key) && Elems(SortUnique(a + b, key)) == Elems(a) + Elems(b)
  {
    SortUniqueFacts(a + b, key);
    assert Elems(a + b) == Elems(a) + Elems(b);
  }

  lemma {:induction false} JoinedFacts(a: Roster, b: Roster)
    requires Keyed(a) && Keyed(b) && Together(a, b)
    ensures FactsOf(Joined(a, b)) == Join(FactsOf(a), FactsOf(b))
    ensures SortedLists(a) && SortedLists(b) ==> SortedLists(Joined(a, b))
    ensures Joined(a, b).master == a.master && Joined(a, b).rPub == KeyOf(a, b)
  {
    KeysInjective();
    hide Injective, SortUnique;
    SortedConcat(a.recoveries, b.recoveries, RecoveryKey);
    SortedConcat(a.phraseAdmits, b.phraseAdmits, PhraseKey);
    SortedConcat(a.consents, b.consents, ConsentKey);
    SortedConcat(a.vouches, b.vouches, VouchKey);
    SortedConcat(a.pendings, b.pendings, PendingKey);
    SortedConcat(a.legacy, b.legacy, LegacyKey);
    SortedConcat(a.removals, b.removals, RemovalKey);
    hide Sorted;
    if b.rPub == "" {
      assert Elems(b.recoveries) == {} && Elems(b.phraseAdmits) == {};
      assert Elems(a.recoveries) + {} == Elems(a.recoveries);
      assert Elems(a.phraseAdmits) + {} == Elems(a.phraseAdmits);
    }
  }

  // ---- Commutativity ----

  lemma {:induction false} SortUniqueSame<T(!new)>(a: seq<T>, b: seq<T>, key: T -> Key)
    requires Injective(key) && Elems(a) == Elems(b)
    ensures SortUnique(a, key) == SortUnique(b, key)
  {
    SortUniqueFacts(a, key);
    SortUniqueFacts(b, key);
    hide Injective;
    SortedSame(SortUnique(a, key), SortUnique(b, key), key);
  }

  lemma {:induction false} AdmitsSame(a: seq<PhraseAdmit>, b: seq<PhraseAdmit>, cur: Option<Current>)
    requires Elems(a) == Elems(b)
    ensures AdmitsPast(a, cur) == AdmitsPast(b, cur)
  {
    AdmitsLeft(a, cur);
    AdmitsLeft(b, cur);
    hide AdmitsPast;
    assert forall p :: p in a <==> p in Elems(a);
    assert forall p :: p in b <==> p in Elems(b);
    SortedSame(AdmitsPast(a, cur), AdmitsPast(b, cur), PhraseKey);
  }

  // What order the phrase's statements came in does not matter.
  lemma {:induction false} CompactedByFacts(r: Roster, s: Roster, c: Crypto)
    requires s == r.(recoveries := s.recoveries, phraseAdmits := s.phraseAdmits)
    requires Elems(r.recoveries) == Elems(s.recoveries) && Elems(r.phraseAdmits) == Elems(s.phraseAdmits)
    ensures Compacted(r, c) == Compacted(s, c)
  {
    KeysInjective();
    LatestElems(r.recoveries);
    LatestElems(s.recoveries);
    hide Latest, Injective, SortUnique;
    SortUniqueSame(Latest(r.recoveries), Latest(s.recoveries), RecoveryKey);
    var rs := Cap(SortUnique(Latest(r.recoveries), RecoveryKey), MAX_RECOVERY_TIES);
    var cur := CurrentRecovery(r.(recoveries := rs), c);
    assert CurrentRecovery(s.(recoveries := rs), c) == cur;
    hide CurrentRecovery, AdmitsPast, OneConsentEach, VouchesOf, PendingsOf, RemovalsOf;
    AdmitsSame(r.phraseAdmits, s.phraseAdmits, cur);
    assert Unsuperseded(r, c) == Unsuperseded(s, c);
  }

  // Which side is shown first does not matter, whatever the lists hold, ceilings or not.
  lemma {:induction false} MergeCommutes(a: Roster, b: Roster, c: Crypto)
    requires Keyed(a) && Keyed(b) && Together(a, b)
    ensures Merged(a, b, c) == Merged(b, a, c)
  {
    JoinedFacts(a, b);
    JoinedFacts(b, a);
    var x, y := Joined(a, b), Joined(b, a);
    KeysInjective();
    hide Compacted, SortUnique, Injective;
    BothWays(a.consents, b.consents, ConsentKey);
    BothWays(a.vouches, b.vouches, VouchKey);
    BothWays(a.pendings, b.pendings, PendingKey);
    BothWays(a.legacy, b.legacy, LegacyKey);
    BothWays(a.removals, b.removals, RemovalKey);
    JoinLaws(FactsOf(a), FactsOf(b), FactsOf(a));
    assert y == x.(recoveries := y.recoveries, phraseAdmits := y.phraseAdmits);
    hide Joined, Join;
    CompactedByFacts(x, y, c);
  }

  lemma {:induction false} BothWays<T(!new)>(a: seq<T>, b: seq<T>, key: T -> Key)
    requires Injective(key)
    ensures SortUnique(a + b, key) == SortUnique(b + a, key)
  {
    assert Elems(a + b) == Elems(b + a);
    SortUniqueSame(a + b, b + a, key);
  }

  // A roster with no phrase statement is settled whatever the key.
  lemma {:induction false} SettledUnder(r: Roster, c: Crypto, rPub: string)
    requires Canonical(r, c) && (r.rPub == "" || r.rPub == rPub)
    ensures Settled(FactsOf(r), Naming(r.master, rPub, c))
  {
    if r.rPub == "" {
      var f := FactsOf(r);
      assert f.recoveries == {};
      assert Filtered(f, NamerOf(r, c)) == Filtered(f, Naming(r.master, rPub, c));
    }
  }

  // What compaction leaves, holders can keep.
  lemma {:induction false} CompactedCanonical(r: Roster, c: Crypto)
    requires NoCeiling(r, c) && Keyed(r)
    ensures Canonical(Compacted(r, c), c)
    ensures FactsOf(Compacted(r, c)) == Compact(FactsOf(r), NamerOf(r, c))
  {
    CompactedIs(r, c);
    CompactedSorted(r, c);
    hide Compacted, NoCeiling;
    var m := Compacted(r, c);
    CompactSettles(FactsOf(r), NamerOf(r, c));
    if m.rPub == "" {
      NoElems(r.recoveries);
      NoElems(r.phraseAdmits);
      assert FactsOf(m).recoveries == {} && FactsOf(m).admits == {};
      NoElems(m.recoveries);
      NoElems(m.phraseAdmits);
    }
  }

  // What a merge holds: the joint facts, compacted.
  lemma {:induction false} MergedFacts(a: Roster, b: Roster, c: Crypto)
    requires Canonical(a, c) && Canonical(b, c) && Together(a, b) && NoCeiling(Joined(a, b), c)
    ensures var m := Merged(a, b, c);
            && FactsOf(m) == Compact(Join(FactsOf(a), FactsOf(b)), Naming(a.master, KeyOf(a, b), c))
            && Canonical(m, c) && m.master == a.master && m.rPub == KeyOf(a, b)
  {
    JoinedFacts(a, b);
    var j := Joined(a, b);
    NoElems(j.recoveries);
    NoElems(j.phraseAdmits);
    assert j.rPub == "" ==> FactsOf(j).recoveries == {} && FactsOf(j).admits == {};
    CompactedCanonical(j, c);
    CompactedSorted(j, c);
  }

  lemma {:induction false} NoElems<T>(xs: seq<T>)
    ensures Elems(xs) == {} <==> xs == []
  {
    if xs != [] { assert xs[0] in Elems(xs); }
  }

  // Compacting a roster as a holder keeps it changes nothing while nothing is cut.
  lemma {:induction false} CanonicalStays(a: Roster, c: Crypto)
    requires Canonical(a, c) && NoCeiling(a, c)
    ensures Compacted(a, c) == a
  {
    CompactedIs(a, c);
    CompactedSorted(a, c);
    hide NoCeiling, Compacted, SortedLists, FactsOf;
    SameFacts(Compacted(a, c), a);
  }

  // Showing the same roster again changes nothing.
  lemma {:induction false} MergeIdempotent(a: Roster, c: Crypto)
    requires Canonical(a, c) && a.master != "" && NoCeiling(a, c)
    ensures Merged(a, a, c) == a
  {
    JoinedFacts(a, a);
    JoinLaws(FactsOf(a), FactsOf(a), FactsOf(a));
    SameFacts(Joined(a, a), a);
    CanonicalStays(a, c);
  }

  // The same under the key three rosters are under.
  lemma {:induction false} PairFacts(a: Roster, b: Roster, c: Crypto, k: string)
    requires Canonical(a, c) && Canonical(b, c) && Together(a, b) && NoCeiling(Joined(a, b), c)
    requires KeyOf(a, b) == "" || KeyOf(a, b) == k
    ensures var m := Merged(a, b, c);
            && FactsOf(m) == Compact(Join(FactsOf(a), FactsOf(b)), Naming(a.master, k, c))
            && Canonical(m, c) && m.master == a.master && m.rPub == KeyOf(a, b)
  {
    MergedFacts(a, b, c);
    if KeyOf(a, b) == "" {
      var j := Join(FactsOf(a), FactsOf(b));
      assert j.recoveries == {};
      assert Filtered(j, Naming(a.master, k, c)) == Filtered(j, Naming(a.master, KeyOf(a, b), c));
    }
  }

  function KeyOfThree(a: Roster, b: Roster, d: Roster): string {
    if d.rPub != "" then d.rPub else KeyOf(a, b)
  }

  // In whatever order three rosters meet, the holder ends up with the same one.
  lemma {:induction false} MergeAssociates(a: Roster, b: Roster, d: Roster, c: Crypto)
    requires Canonical(a, c) && Canonical(b, c) && Canonical(d, c)
    requires Together(a, b) && Together(b, d) && Together(a, d)
    requires Distinct(Elems(a.recoveries) + Elems(b.recoveries) + Elems(d.recoveries),
                      Naming(a.master, KeyOfThree(a, b, d), c))
    requires NoCeiling(Joined(a, b), c) && NoCeiling(Joined(b, d), c)
    requires NoCeiling(Joined(Merged(a, b, c), d), c) && NoCeiling(Joined(a, Merged(b, d, c)), c)
    ensures Merged(Merged(a, b, c), d, c) == Merged(a, Merged(b, d, c), c)
  {
    var k := KeyOfThree(a, b, d);
    var id := Naming(a.master, k, c);
    SettledUnder(a, c, k);
    SettledUnder(b, c, k);
    SettledUnder(d, c, k);
    CompactAssociates(FactsOf(a), FactsOf(b), FactsOf(d), id);
    hide Merged, Joined, NoCeiling, Compact, Join, Settled, Distinct, FactsOf;
    PairFacts(a, b, c, k);
    PairFacts(b, d, c, k);
    var ab, bd := Merged(a, b, c), Merged(b, d, c);
    PairFacts(ab, d, c, k);
    PairFacts(a, bd, c, k);
    SameFacts(Merged(ab, d, c), Merged(a, bd, c));
  }

  lemma {:induction false} WinnersFacts(a: Roster, b: Roster, c: Crypto)
    requires Canonical(a, c) && Canonical(b, c) && Together(a, b) && NoCeiling(Joined(a, b), c)
    requires Distinct(Elems(a.recoveries) + Elems(b.recoveries), Naming(a.master, KeyOf(a, b), c))
    ensures var m, f, g, id := Merged(a, b, c), FactsOf(a), FactsOf(b), Naming(a.master, KeyOf(a, b), c);
            && FactsOf(m) == Filtered(Join(f, g), id)
            && BaseOf(m, c) == RosterFacts.Base(f.recoveries + g.recoveries, id)
  {
    var k := KeyOf(a, b);
    MergedFacts(a, b, c);
    SettledUnder(a, c, k);
    SettledUnder(b, c, k);
    hide Merged, Joined, NoCeiling, Settled, Canonical;
    WinnersSurvive(FactsOf(a), FactsOf(b), Naming(a.master, k, c));
    CurrentBase(Merged(a, b, c), c);
    TipTwice(Elems(a.recoveries) + Elems(b.recoveries), Naming(a.master, k, c));
  }

  lemma {:induction false} FilteredJoin(f: Facts, g: Facts, id: Namer)
    ensures var m, rs := Filtered(Join(f, g), id), f.recoveries + g.recoveries;
            var b := RosterFacts.Base(rs, id);
            && m.recoveries == Tip(rs)
            && m.admits == (set p | p in f.admits + g.admits && Past(p.at, rs))
            && m.legacy == (if rs == {} then f.legacy + g.legacy else {})
            && m.consents == Chosen(f.consents + g.consents)
            && m.vouches == (set v | v in f.vouches + g.vouches && v.base == b)
            && m.pendings == (set p | p in f.pendings + g.pendings && p.base == b)
            && m.removals == (set x | x in f.removals + g.removals && x.base == b)
            && DevicesOf(m.consents) == DevicesOf(f.consents) + DevicesOf(g.consents)
  {
    ChosenDevices(f.consents + g.consents);
    hide IsBase, Chosen, Tip, Past;
    assert DevicesOf(f.consents + g.consents) == DevicesOf(f.consents) + DevicesOf(g.consents);
  }

  lemma {:induction false} FactsParts(r: Roster)
    ensures var f := FactsOf(r);
            && f.recoveries == Elems(r.recoveries) && f.admits == Elems(r.phraseAdmits)
            && f.consents == Elems(r.consents) && f.vouches == Elems(r.vouches) && f.legacy == Elems(r.legacy)
            && f.pendings == Elems(r.pendings) && f.removals == Elems(r.removals)
  {}

  // What wins: the latest recoveries' base. Every statement either side held in it is still
  // there, and no statement of any other base is.
  lemma {:induction false} MergeKeepsWinners(a: Roster, b: Roster, c: Crypto)
    requires Canonical(a, c) && Canonical(b, c) && Together(a, b) && NoCeiling(Joined(a, b), c)
    requires Distinct(Elems(a.recoveries) + Elems(b.recoveries), Naming(a.master, KeyOf(a, b), c))
    ensures var m, rs := Merged(a, b, c), Elems(a.recoveries) + Elems(b.recoveries);
            && BaseOf(m, c) == RosterFacts.Base(rs, Naming(a.master, KeyOf(a, b), c))
            && Elems(m.recoveries) == Tip(rs)
            && Elems(m.phraseAdmits) == (set p | p in Elems(a.phraseAdmits) + Elems(b.phraseAdmits) && Past(p.at, rs))
            && Elems(m.legacy) == (if rs == {} then Elems(a.legacy) + Elems(b.legacy) else {})
            && Elems(m.vouches) == (set v | v in Elems(a.vouches) + Elems(b.vouches) && v.base == BaseOf(m, c))
            && Elems(m.pendings) == (set p | p in Elems(a.pendings) + Elems(b.pendings) && p.base == BaseOf(m, c))
            && Elems(m.removals) == (set x | x in Elems(a.removals) + Elems(b.removals) && x.base == BaseOf(m, c))
            && Elems(m.consents) == Chosen(Elems(a.consents) + Elems(b.consents))
            && Consented(m) == Consented(a) + Consented(b)
  {
    WinnersFacts(a, b, c);
    var f, g := FactsOf(a), FactsOf(b);
    hide *;
    FilteredJoin(f, g, Naming(a.master, KeyOf(a, b), c));
    ConsentedIs(Merged(a, b, c));
    ConsentedIs(a);
    ConsentedIs(b);
    FactsParts(Merged(a, b, c));
    FactsParts(a);
    FactsParts(b);
  }

  lemma {:induction false} ConsentedIs(r: Roster)
    ensures Consented(r) == DevicesOf(FactsOf(r).consents)
  {}
}
