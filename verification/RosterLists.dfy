// The lists of a compacted roster and the facts they stand for: what Compacted does to a
// roster (Roster.dfy) is what Compact does to its facts (RosterFacts.dfy) wherever no
// ceiling cuts.
module RosterLists {
  import opened Base
  import opened Orders
  import opened Closures
  import opened Rosters
  import opened RosterFacts

  ghost function FactsOf(r: Roster): Facts {
    Facts(Elems(r.recoveries), Elems(r.phraseAdmits), Elems(r.consents), Elems(r.vouches), Elems(r.pendings),
          Elems(r.legacy), Elems(r.removals))
  }

  ghost function Naming(m: string, rPub: string, c: Crypto): Namer {
    (x: Recovery) => BaseId(m, rPub, x, c)
  }

  ghost function NamerOf(r: Roster, c: Crypto): Namer {
    Naming(r.master, r.rPub, c)
  }

  ghost predicate SortedLists(r: Roster) {
    && Sorted(r.recoveries, RecoveryKey) && Sorted(r.phraseAdmits, PhraseKey) && Sorted(r.consents, ConsentKey)
    && Sorted(r.vouches, VouchKey) && Sorted(r.pendings, PendingKey) && Sorted(r.legacy, LegacyKey)
    && Sorted(r.removals, RemovalKey)
  }

  // Sorted lists with the same facts are the same roster.
  lemma {:induction false} SameFacts(a: Roster, b: Roster)
    requires SortedLists(a) && SortedLists(b) && FactsOf(a) == FactsOf(b)
    requires a.master == b.master && a.rPub == b.rPub
    ensures a == b
  {
    SortedSame(a.recoveries, b.recoveries, RecoveryKey);
    SortedSame(a.phraseAdmits, b.phraseAdmits, PhraseKey);
    SortedSame(a.consents, b.consents, ConsentKey);
    SortedSame(a.vouches, b.vouches, VouchKey);
    SortedSame(a.pendings, b.pendings, PendingKey);
    SortedSame(a.legacy, b.legacy, LegacyKey);
    SortedSame(a.removals, b.removals, RemovalKey);
  }

  // ---- The current base ----

  lemma {:induction false} LatestElems(rs: seq<Recovery>)
    ensures Elems(Latest(rs)) == Tip(Elems(rs))
    ensures rs != [] ==> forall x | x in Tip(Elems(rs)) :: x.at == LatestAt(rs)
  {
    if rs != [] {
      LatestAtIs(rs);
      forall x ensures x in Latest(rs) <==> x in rs && x.at == LatestAt(rs) {
        FilterElems(rs, (y: Recovery) => y.at == LatestAt(rs), x);
      }
    }
  }

  lemma {:induction false} LeastIdIs(ids: seq<string>)
    requires ids != []
    ensures LeastId(ids) in ids
    ensures forall i | i in ids :: LeastId(ids) == i || StrLess(LeastId(ids), i)
  {
    StrTotal();
    hide StrLess;
    if |ids| > 1 {
      LeastIdIs(ids[1..]);
      assert ids == [ids[0]] + ids[1..];
    }
  }

  lemma {:induction false} CurrentBase(r: Roster, c: Crypto)
    ensures BaseOf(r, c) == RosterFacts.Base(Elems(r.recoveries), NamerOf(r, c))
    ensures r.recoveries == [] <==> Elems(r.recoveries) == {}
    ensures var cur := CurrentRecovery(r, c);
            cur.Some? ==>
              && cur.value.keep == (set x, k | x in Tip(Elems(r.recoveries)) && k in x.keep :: k)
              && cur.value.at == LatestAt(r.recoveries)
              && (cur.value.noWait <==> exists x | x in Tip(Elems(r.recoveries)) :: x.noWait)
              && forall at :: Past(at, Elems(r.recoveries)) <==> at > cur.value.at
  {
    var rs, id := Elems(r.recoveries), NamerOf(r, c);
    if r.recoveries == [] {
      assert rs == {};
    } else {
      assert r.recoveries[0] in rs;
      LatestElems(r.recoveries);
      LatestExists(r.recoveries);
      LatestAtIs(r.recoveries);
      var tip := Latest(r.recoveries);
      var ids := Ids(tip, r.master, r.rPub, c);
      LeastIdIs(ids);
      var b := LeastId(ids);
      assert IsBase(b, rs, id) by {
        var i :| 0 <= i < |ids| && ids[i] == b;
        assert tip[i] in Tip(rs) && id(tip[i]) == b;
        forall x | x in Tip(rs) ensures b == id(x) || StrLess(b, id(x)) {
          assert x in tip;
          var j :| 0 <= j < |tip| && tip[j] == x;
          assert ids[j] == id(x) && ids[j] in ids;
        }
      }
      BaseUnique(b, RosterFacts.Base(rs, id), rs, id);
    }
  }

  // ---- Consents ----

  // In a sorted list the first consent of a device has its least signature.
  lemma {:induction false} ConsentOrder(a: Consent, b: Consent)
    ensures KeyLess(ConsentKey(a), ConsentKey(b)) <==>
            StrLess(a.device, b.device) || (a.device == b.device && StrLess(a.sig, b.sig))
  {
    var x, y := ConsentKey(a), ConsentKey(b);
    assert x[1..] == [Str(a.sig)] && y[1..] == [Str(b.sig)];
    assert x[1..][1..] == [] && y[1..][1..] == [];
    assert Lex(x[1..], y[1..], AtomLess) <==> StrLess(a.sig, b.sig);
  }

  ghost predicate Before(a: Consent, b: Consent) {
    StrLess(a.device, b.device) || (a.device == b.device && StrLess(a.sig, b.sig))
  }

  ghost predicate Ascend(cs: seq<Consent>) {
    forall i, j | 0 <= i < j < |cs| :: Before(cs[i], cs[j])
  }

  lemma {:induction false} SortedAscend(cs: seq<Consent>)
    ensures Sorted(cs, ConsentKey) <==> Ascend(cs)
  {
    forall i, j | 0 <= i < j < |cs| ensures KeyLess(ConsentKey(cs[i]), ConsentKey(cs[j])) <==> Before(cs[i], cs[j]) {
      ConsentOrder(cs[i], cs[j]);
    }
  }

  lemma {:induction false} FirstPerDeviceIs(cs: seq<Consent>)
    requires Ascend(cs)
    ensures Elems(FirstPerDevice(cs)) == Chosen(Elems(cs))
    ensures Ascend(FirstPerDevice(cs))
    decreases |cs|
  {
    hide StrLess, Chosen;
    if |cs| <= 1 {
      OneChosen(cs);
    } else if cs[0].device == cs[1].device {
      var less := [cs[0]] + cs[2..];
      StrTotal();
      FirstPerDeviceIs(less);
      hide FirstPerDevice;
      assert Elems(cs) == Elems(less) + {cs[1]} by {
        assert cs == [cs[0]] + ([cs[1]] + cs[2..]);
      }
      assert Before(cs[0], cs[1]);
      assert cs[0] in less;
      OutChosen(Elems(less), cs[1], cs[0]);
    } else {
      FirstPerDeviceIs(cs[1..]);
      NewDevice(cs);
      assert FirstPerDevice(cs) == [cs[0]] + FirstPerDevice(cs[1..]);
      hide FirstPerDevice;
      HeadAscends(cs[0], cs[1..], FirstPerDevice(cs[1..]));
    }
  }

  lemma {:induction false} OneChosen(cs: seq<Consent>)
    requires |cs| <= 1
    ensures Elems(cs) == Chosen(Elems(cs))
  {}

  // A device that ends with its first consent.
  lemma {:induction false} NewDevice(cs: seq<Consent>)
    requires Ascend(cs) && |cs| > 1 && cs[0].device != cs[1].device
    ensures Chosen(Elems(cs)) == {cs[0]} + Chosen(Elems(cs[1..]))
    ensures forall k | k in cs[1..] :: StrLess(cs[0].device, k.device)
  {
    StrTotal();
    hide StrLess;
    var rest := cs[1..];
    assert cs == [cs[0]] + rest;
    forall k | k in rest ensures StrLess(cs[0].device, k.device) {
      var i :| 0 <= i < |rest| && rest[i] == k;
      assert Before(cs[0], cs[i + 1]) && Before(cs[0], cs[1]);
      if i > 0 { assert Before(cs[1], cs[i + 1]); }
    }
  }

  lemma {:induction false} HeadAscends(h: Consent, rest: seq<Consent>, kept: seq<Consent>)
    requires Ascend(kept) && Elems(kept) == Chosen(Elems(rest))
    requires forall k | k in rest :: StrLess(h.device, k.device)
    ensures Ascend([h] + kept) && Elems([h] + kept) == {h} + Elems(kept)
  {
    hide StrLess;
    forall j | 0 <= j < |kept| ensures Before(h, kept[j]) {
      assert kept[j] in Elems(kept);
      assert kept[j] in rest;
    }
  }

  lemma {:induction false} OutChosen(s: set<Consent>, worse: Consent, better: Consent)
    requires better in s && better.device == worse.device && better != worse && StrLess(better.sig, worse.sig)
    ensures Chosen(s + {worse}) == Chosen(s)
  {
    StrTotal();
    hide StrLess;
    forall k | k in Chosen(s) ensures k in Chosen(s + {worse}) {
      if k.device == worse.device { assert k == better || StrLess(k.sig, better.sig); }
    }
  }

  // ---- Compaction ----

  lemma {:induction false} CapFacts<T(!new)>(xs: seq<T>, cap: nat, key: T -> Key)
    requires Sorted(xs, key)
    ensures Sorted(Cap(xs, cap), key) && Elems(Cap(xs, cap)) <= Elems(xs)
    ensures |xs| <= cap ==> Cap(xs, cap) == xs
  {}

  lemma {:induction false} FilterIs<T(!new)>(xs: seq<T>, keep: T -> bool)
    ensures Elems(Filter(xs, keep)) == set x | x in xs && keep(x)
  {
    forall x ensures x in Filter(xs, keep) <==> x in xs && keep(x) {
      FilterElems(xs, keep, x);
    }
  }

  // What the source calls `cur` and `base` while it compacts.
  lemma {:induction false} CurrentKept(r: Roster, c: Crypto)
    requires |SortUnique(Latest(r.recoveries), RecoveryKey)| <= MAX_RECOVERY_TIES
    ensures var u := Unsuperseded(r, c);
            && Elems(u.recoveries) == Tip(Elems(r.recoveries)) && Sorted(u.recoveries, RecoveryKey)
            && BaseOf(u, c) == RosterFacts.Base(Elems(r.recoveries), NamerOf(r, c)) == BaseOf(r, c)
            && (u.recoveries == [] <==> Elems(r.recoveries) == {})
            && var cur := CurrentRecovery(r.(recoveries := u.recoveries), c);
               cur == CurrentRecovery(u, c) &&
               (cur.Some? ==> forall at :: Past(at, Elems(r.recoveries)) <==> at > cur.value.at)
  {
    KeysInjective();
    hide Injective;
    SortUniqueFacts(Latest(r.recoveries), RecoveryKey);
    LatestElems(r.recoveries);
    TipTwice(Elems(r.recoveries), NamerOf(r, c));
    CurrentBase(r, c);
    CurrentBase(Unsuperseded(r, c), c);
  }

  lemma {:induction false} OfBase(r: Roster, base: string)
    ensures Elems(VouchesOf(r.vouches, base)) == set v | v in r.vouches && v.base == base
    ensures Elems(PendingsOf(r.pendings, base)) == set p | p in r.pendings && p.base == base
    ensures Elems(RemovalsOf(r.removals, base)) == set x | x in r.removals && x.base == base
    ensures Sorted(PendingsOf(r.pendings, base), PendingKey)
  {
    KeysInjective();
    FilterIs(r.vouches, (v: Vouch) => v.base == base);
    FilterIs(r.pendings, (p: Pending) => p.base == base);
    FilterIs(r.removals, (x: Removal) => x.base == base);
    SortUniqueFacts(Filter(r.pendings, (p: Pending) => p.base == base), PendingKey);
  }

  lemma {:induction false} AdmitsLeft(ps: seq<PhraseAdmit>, cur: Option<Current>)
    ensures Elems(AdmitsPast(ps, cur)) == set p | p in ps && (cur.Some? ==> p.at > cur.value.at)
    ensures Sorted(AdmitsPast(ps, cur), PhraseKey)
  {
    KeysInjective();
    if cur.Some? {
      FilterIs(ps, (p: PhraseAdmit) => p.at > cur.value.at);
      SortUniqueFacts(Filter(ps, (p: PhraseAdmit) => p.at > cur.value.at), PhraseKey);
    } else {
      SortUniqueFacts(ps, PhraseKey);
    }
  }

  lemma {:induction false} ConsentsLeft(cs: seq<Consent>)
    ensures Elems(OneConsentEach(cs)) == Chosen(Elems(cs)) && Sorted(OneConsentEach(cs), ConsentKey)
  {
    KeysInjective();
    SortUniqueFacts(cs, ConsentKey);
    SortedAscend(SortUnique(cs, ConsentKey));
    FirstPerDeviceIs(SortUnique(cs, ConsentKey));
    SortedAscend(OneConsentEach(cs));
  }

  lemma {:induction false} UnsupersededParts(r: Roster, c: Crypto)
    ensures var u := Unsuperseded(r, c);
            var cur := CurrentRecovery(r.(recoveries := u.recoveries), c);
            && cur == CurrentRecovery(u, c)
            && u.phraseAdmits == AdmitsPast(r.phraseAdmits, cur) && u.consents == OneConsentEach(r.consents)
            && u.vouches == VouchesOf(r.vouches, BaseOf(u, c)) && u.pendings == PendingsOf(r.pendings, BaseOf(u, c))
            && u.legacy == SortUnique(if cur.Some? then [] else r.legacy, LegacyKey)
            && u.removals == RemovalsOf(r.removals, BaseOf(u, c))
            && u.master == r.master && u.rPub == r.rPub
            && (cur.Some? <==> u.recoveries != [])
  {}

  // What is left once the current base is known.
  lemma {:induction false} SurvivingFacts(r: Roster, c: Crypto)
    requires |SortUnique(Latest(r.recoveries), RecoveryKey)| <= MAX_RECOVERY_TIES
    ensures FactsOf(Unsuperseded(r, c)) == Filtered(FactsOf(r), NamerOf(r, c))
  {
    CurrentKept(r, c);
    UnsupersededParts(r, c);
    hide Unsuperseded, AdmitsPast, OneConsentEach, VouchesOf, PendingsOf, RemovalsOf, CurrentRecovery, BaseOf, Latest,
         SortUnique, Chosen, Tip, Past;
    var u, f := Unsuperseded(r, c), Filtered(FactsOf(r), NamerOf(r, c));
    var cur := CurrentRecovery(r.(recoveries := u.recoveries), c);
    AdmitsLeft(r.phraseAdmits, cur);
    ConsentsLeft(r.consents);
    OfBase(r, BaseOf(u, c));
    LegacyLeft(if cur.Some? then [] else r.legacy);
    assert Elems(u.phraseAdmits) == f.admits;
    assert Elems(u.vouches) == f.vouches && Elems(u.pendings) == f.pendings && Elems(u.removals) == f.removals;
    assert Elems(u.legacy) == f.legacy;
  }

  lemma {:induction false} LegacyLeft(ls: seq<LegacyClaim>)
    ensures Elems(SortUnique(ls, LegacyKey)) == Elems(ls) && Sorted(SortUnique(ls, LegacyKey), LegacyKey)
  {
    KeysInjective();
    SortUniqueFacts(ls, LegacyKey);
  }

  lemma {:induction false} TipTwice(rs: set<Recovery>, id: Namer)
    ensures Tip(Tip(rs)) == Tip(rs) && RosterFacts.Base(Tip(rs), id) == RosterFacts.Base(rs, id)
    ensures Tip(rs) == {} <==> rs == {}
    ensures forall at :: Past(at, Tip(rs)) <==> Past(at, rs)
  {
    if rs != {} {
      var x := TipExists(rs);
      assert forall y | y in rs :: y.at <= x.at;
    }
    SameTip(Tip(rs), rs, id);
  }

  // ---- Standing ----

  // Nothing superseded: what a base's roots and vouches are, on facts.
  ghost predicate Clean(s: Roster) {
    && Tip(Elems(s.recoveries)) == Elems(s.recoveries) && (s.recoveries != [] ==> s.legacy == [])
    && forall p | p in s.phraseAdmits :: Past(p.at, Elems(s.recoveries))
  }

  lemma {:induction false} RootsFacts(s: Roster, c: Crypto)
    requires Clean(s)
    ensures BaseRoots(s, c) == Roots(FactsOf(s)) && Consented(s) == DevicesOf(FactsOf(s).consents)
    ensures VouchEdges(s.vouches, Consented(s)) == Edges(FactsOf(s))
  {
    var f, cons := FactsOf(s), Consented(s);
    CurrentBase(s, c);
    assert BaseRoots(s, c) == Roots(f);
    hide CurrentRecovery, BaseRoots;
    assert cons == DevicesOf(f.consents);
    assert VouchEdges(s.vouches, cons) == Edges(f);
  }

  lemma {:induction false} StandingFacts(s: Roster, c: Crypto)
    requires Clean(s)
    ensures Standing(s, c).Keys == Stand(FactsOf(s))
  {
    var f, cons := FactsOf(s), Consented(s);
    RootsFacts(s, c);
    hide BaseRoots, Clean, VouchEdges, Consented, Roots, Edges, DevicesOf;
    var asks := set p | p in s.pendings :: p.device;
    assert asks == Asked(f);
    StandingKeys(BaseRoots(s, c) * cons, asks * cons, Edges(f));
    assert BaseRoots(s, c) * cons + asks * cons == (Roots(f) + Asked(f)) * cons;
  }

  lemma {:induction false} TreeFirstElems(vs: seq<Vouch>, stand: Places, best: set<string>)
    ensures var (tree, rest) := TreeFirst(vs, stand, best);
            Elems(tree) + Elems(rest) == Elems(vs) && |tree| + |rest| == |vs|
    decreases |vs|
  {
    if vs != [] {
      var v := vs[0];
      assert Elems(vs) == {v} + Elems(vs[1..]) by { assert vs == [v] + vs[1..]; }
      if v.device in stand && v.device !in best {
        TreeFirstElems(vs[1..], stand, best + {v.device});
        var (tree, rest) := TreeFirst(vs[1..], stand, best + {v.device});
        assert Elems([v] + tree) == {v} + Elems(tree);
      } else {
        TreeFirstElems(vs[1..], stand, best);
        var (tree, rest) := TreeFirst(vs[1..], stand, best);
        assert Elems([v] + rest) == {v} + Elems(rest);
      }
    }
  }

  lemma {:induction false} RankInjective(stand: Places)
    ensures Injective((v: Vouch) => RankKey(stand, v.signer) + VouchKey(v))
    ensures Injective((x: Removal) => RankKey(stand, x.signer) + RemovalKey(x))
  {
    KeysInjective();
    forall v: Vouch, w: Vouch | RankKey(stand, v.signer) + VouchKey(v) ==
        RankKey(stand, w.signer) + VouchKey(w) ensures v == w {
      SuffixSame(RankKey(stand, v.signer), VouchKey(v), RankKey(stand, w.signer), VouchKey(w));
    }
    forall x: Removal, y: Removal | RankKey(stand, x.signer) + RemovalKey(x) ==
        RankKey(stand, y.signer) + RemovalKey(y) ensures x == y {
      SuffixSame(RankKey(stand, x.signer), RemovalKey(x), RankKey(stand, y.signer), RemovalKey(y));
    }
  }

  lemma {:induction false} SuffixSame(a: Key, b: Key, c: Key, d: Key)
    requires a + b == c + d && |b| == |d|
    ensures b == d
  {
    assert b == (a + b)[|a|..] && d == (c + d)[|c|..];
  }

  lemma {:induction false} RankedElems(s: Roster, stand: Places)
    ensures Elems(RankedVouches(s.vouches, stand)) == set v | v in s.vouches && v.signer in stand
    ensures Elems(RankedRemovals(s.removals, stand)) == set x | x in s.removals && x.signer in stand
  {
    RankInjective(stand);
    hide Injective;
    var vs := Filter(s.vouches, (v: Vouch) => v.signer in stand);
    FilterIs(s.vouches, (v: Vouch) => v.signer in stand);
    FilterIs(s.removals, (x: Removal) => x.signer in stand);
    var ranked := SortUnique(vs, (v: Vouch) => RankKey(stand, v.signer) + VouchKey(v));
    SortUniqueFacts(vs, (v: Vouch) => RankKey(stand, v.signer) + VouchKey(v));
    SortUniqueFacts(Filter(s.removals, (x: Removal) => x.signer in stand),
                    (x: Removal) => RankKey(stand, x.signer) + RemovalKey(x));
    TreeFirstElems(ranked, stand, {});
    var (tree, rest) := TreeFirst(ranked, stand, {});
    assert Elems(tree + rest) == Elems(tree) + Elems(rest);
  }

  // While no ceiling cuts, only vouches and removals of devices that do not stand go.
  lemma {:induction false} RankingFacts(s: Roster, stand: Places)
    requires |RankedVouches(s.vouches, stand)| <= MAX_VOUCHES && |RankedRemovals(s.removals, stand)| <= MAX_REMOVALS
    ensures var n := Ranking(s, stand);
            && Elems(n.vouches) == (set v | v in s.vouches && v.signer in stand) && Sorted(n.vouches, VouchKey)
            && Elems(n.removals) == (set x | x in s.removals && x.signer in stand) && Sorted(n.removals, RemovalKey)
  {
    KeysInjective();
    RankedElems(s, stand);
    hide RankedVouches, RankedRemovals, Injective;
    SortUniqueFacts(RankedVouches(s.vouches, stand), VouchKey);
    SortUniqueFacts(RankedRemovals(s.removals, stand), RemovalKey);
  }

  // ---- Consents, ranked and cut ----

  lemma {:induction false} ClassInjective(stand: Places, mentioned: set<string>)
    ensures Injective((k: Consent) =>
              [Num(ConsentClass(k, stand, mentioned))] + RankKey(stand, k.device) + ConsentKey(k))
  {
    KeysInjective();
    forall a: Consent, b: Consent |
      [Num(ConsentClass(a, stand, mentioned))] + RankKey(stand, a.device) + ConsentKey(a) ==
      [Num(ConsentClass(b, stand, mentioned))] + RankKey(stand, b.device) + ConsentKey(b)
      ensures a == b
    {
      SuffixSame([Num(ConsentClass(a, stand, mentioned))] + RankKey(stand, a.device), ConsentKey(a),
                 [Num(ConsentClass(b, stand, mentioned))] + RankKey(stand, b.device), ConsentKey(b));
    }
  }

  lemma {:induction false} FewUnnamedAll(cs: seq<Consent>, stand: Places, mentioned: set<string>, taken: nat)
    requires taken + |Filter(cs, (k: Consent) => ConsentClass(k, stand, mentioned) == 2)| <= MAX_UNNAMED_CONSENTS
    ensures FewUnnamed(cs, stand, mentioned, taken) == cs
  {
    if cs != [] {
      assert cs == [cs[0]] + cs[1..];
      FewUnnamedAll(cs[1..], stand, mentioned, if ConsentClass(cs[0], stand, mentioned) == 2 then taken + 1 else taken);
    }
  }

  lemma {:induction false} ConsentsKept(cs: seq<Consent>, stand: Places, mentioned: set<string>)
    requires var ranked := RankedConsents(cs, stand, mentioned);
             && |ranked| <= MAX_CONSENTS
             && |Filter(ranked, (k: Consent) => ConsentClass(k, stand, mentioned) == 2)| <= MAX_UNNAMED_CONSENTS
    ensures Elems(KeptConsents(cs, stand, mentioned)) == Elems(cs)
  {
    KeysInjective();
    ClassInjective(stand, mentioned);
    hide Injective;
    SortUniqueFacts(cs, (k: Consent) =>
      [Num(ConsentClass(k, stand, mentioned))] + RankKey(stand, k.device) + ConsentKey(k));
    var ranked := RankedConsents(cs, stand, mentioned);
    FewUnnamedAll(ranked, stand, mentioned, 0);
    SortUniqueFacts(ranked, ConsentKey);
  }

  // ---- Compacted ----

  lemma {:induction false} CompactedSorted(r: Roster, c: Crypto)
    ensures SortedLists(Compacted(r, c))
    ensures Compacted(r, c).master == r.master && Compacted(r, c).rPub == r.rPub
  {
    KeysInjective();
    hide Injective, Standing, Mentioned, RankedVouches, RankedRemovals, RankedConsents, FewUnnamed;
    UnsupersededParts(r, c);
    var u, s := Unsuperseded(r, c), Surviving(r, c);
    var stand := Standing(s, c);
    var cur := CurrentRecovery(r.(recoveries := u.recoveries), c);
    SortUniqueFacts(Latest(r.recoveries), RecoveryKey);
    CapFacts(SortUnique(Latest(r.recoveries), RecoveryKey), MAX_RECOVERY_TIES, RecoveryKey);
    assert Sorted(u.recoveries, RecoveryKey);
    hide Unsuperseded, CurrentRecovery, SortUnique;
    AdmitsLeft(r.phraseAdmits, cur);
    CapFacts(u.phraseAdmits, MAX_PHRASE_ADMITS, PhraseKey);
    OfBase(r, BaseOf(u, c));
    CapFacts(u.pendings, MAX_PENDING, PendingKey);
    LegacyLeft(if cur.Some? then [] else r.legacy);
    CapFacts(u.legacy, MAX_LEGACY, LegacyKey);
    SortUniqueFacts(Cap(RankedVouches(s.vouches, stand), MAX_VOUCHES), VouchKey);
    SortUniqueFacts(Cap(RankedRemovals(s.removals, stand), MAX_REMOVALS), RemovalKey);
    var mentioned := Mentioned(Ranking(s, stand));
    SortUniqueFacts(Cap(FewUnnamed(RankedConsents(s.consents, stand, mentioned), stand, mentioned, 0), MAX_CONSENTS),
                    ConsentKey);
  }

  lemma {:induction false} TrimmedFacts(s: Roster, stand: Places)
    requires RoomToTrim(s, stand) && stand.Keys == Stand(FactsOf(s))
    ensures FactsOf(Trimmed(s, stand)) == ByStanding(FactsOf(s)) && Trimmed(s, stand).pendings == s.pendings
  {
    RankingFacts(s, stand);
    RankingKeeps(s, stand);
    ConsentsKept(s.consents, stand, Mentioned(Ranking(s, stand)));
    hide Stand, Ranking, RankedVouches, RankedRemovals, Mentioned, KeptConsents, RankedConsents, RoomToTrim;
    var t, f := Trimmed(s, stand), FactsOf(s);
    assert t.vouches == Ranking(s, stand).vouches && t.removals == Ranking(s, stand).removals;
    assert Elems(t.consents) == f.consents;
    assert Elems(t.vouches) == set v | v in f.vouches && v.signer in Stand(f);
    assert Elems(t.removals) == set x | x in f.removals && x.signer in Stand(f);
  }

  // What survives and who stands among it, asks perhaps cut.
  lemma {:induction false} SurvivorFacts(r: Roster, c: Crypto)
    requires RoomForPhrase(r, c)
    ensures var f, s := Filtered(FactsOf(r), NamerOf(r, c)), Surviving(r, c);
            && FactsOf(s) == f.(pendings := Elems(s.pendings)) && Elems(s.pendings) <= f.pendings
            && (|Unsuperseded(r, c).pendings| <= MAX_PENDING ==> Elems(s.pendings) == f.pendings)
            && Clean(s) && Standing(s, c).Keys == Stand(FactsOf(s))
  {
    SurvivingFacts(r, c);
    UnsupersededParts(r, c);
    NothingLegacy(r, c);
    FilteredTwice(FactsOf(r), NamerOf(r, c));
    var u, s := Unsuperseded(r, c), Surviving(r, c);
    OfBase(r, BaseOf(u, c));
    CapFacts(u.pendings, MAX_PENDING, PendingKey);
    hide Unsuperseded, Filtered, Standing, Stand, CurrentRecovery, BaseOf;
    assert forall p | p in s.phraseAdmits :: p in Filtered(FactsOf(r), NamerOf(r, c)).admits;
    StandingFacts(s, c);
  }

  // Compaction, asks aside: the current base's statements, and of their vouches and
  // removals those by devices that stand.
  lemma {:induction false} CompactedFacts(r: Roster, c: Crypto)
    requires RoomBesideAsks(r, c)
    ensures var f, asks := Filtered(FactsOf(r), NamerOf(r, c)), Elems(Compacted(r, c).pendings);
            && FactsOf(Compacted(r, c)) == ByStanding(f.(pendings := asks))
            && asks <= f.pendings && (NoCeiling(r, c) ==> asks == f.pendings)
  {
    SurvivorFacts(r, c);
    var s := Surviving(r, c);
    hide Surviving, Unsuperseded, Standing, Trimmed, Filtered, ByStanding, RoomToTrim;
    TrimmedFacts(s, Standing(s, c));
  }

  lemma {:induction false} RankingKeeps(s: Roster, stand: Places)
    ensures var n := Ranking(s, stand);
            n == s.(vouches := n.vouches, removals := n.removals)
  {}

  lemma {:induction false} NothingLegacy(r: Roster, c: Crypto)
    ensures Surviving(r, c).recoveries != [] ==> Surviving(r, c).legacy == []
  {
    UnsupersededParts(r, c);
    LegacyLeft([]);
    assert SortUnique<LegacyClaim>([], LegacyKey) == [];
  }

  lemma {:induction false} CompactedIs(r: Roster, c: Crypto)
    requires NoCeiling(r, c)
    ensures FactsOf(Compacted(r, c)) == Compact(FactsOf(r), NamerOf(r, c))
  {
    CompactedFacts(r, c);
  }
}
