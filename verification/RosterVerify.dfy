// relay-uws/src/roster.h, verified: skipping the signature check of what is already held
// changes nothing, because everything held was checked.
module RosterVerify {
  import opened Base
  import opened Orders
  import opened Closures
  import opened Rosters
  import opened RosterFacts
  import opened RosterLists
  import opened RosterMerge
  import opened RosterFirstSight

  // Every statement verifies for the roster's master, phrase statements under its key.
  ghost predicate Genuine(r: Roster, c: Crypto) {
    && (forall x | x in r.recoveries :: RecoverySigned(x, r.master, r.rPub, c))
    && (forall x | x in r.phraseAdmits :: PhraseSigned(x, r.master, r.rPub, c))
    && (forall x | x in r.consents :: ConsentSigned(x, r.master, c))
    && (forall x | x in r.vouches :: VouchSigned(x, r.master, c))
    && (forall x | x in r.pendings :: PendingSigned(x, r.master, c))
    && (forall x | x in r.legacy :: LegacySigned(x, r.master, c))
    && (forall x | x in r.removals :: RemovalSigned(x, r.master, c))
    && Keyed(r)
  }

  lemma {:induction false} FilterSame<T>(xs: seq<T>, p: T -> bool, q: T -> bool)
    requires forall x | x in xs :: p(x) == q(x)
    ensures Filter(xs, p) == Filter(xs, q)
  {
    if xs != [] { FilterSame(xs[1..], p, q); }
  }

  // The cached verification refines the full one.
  lemma {:induction false} CachedIsFull(r: Roster, now: int, c: Crypto, known: Roster)
    requires Genuine(known, c) && known.master == r.master
    ensures Verified(r, now, c, Some(known)) == Verified(r, now, c, None)
  {
    var m, k := r.master, known;
    var phraseKnown := k.rPub == r.rPub;
    var rs, ps := if phraseKnown then k.recoveries else [], if phraseKnown then k.phraseAdmits else [];
    FilterSame(r.recoveries, RecoveryTest(m, r.rPub, now, c, rs), RecoveryTest(m, r.rPub, now, c, []));
    FilterSame(r.phraseAdmits, PhraseTest(m, r.rPub, now, c, ps), PhraseTest(m, r.rPub, now, c, []));
    FilterSame(r.consents, ConsentTest(m, c, k.consents), ConsentTest(m, c, []));
    FilterSame(r.vouches, VouchTest(m, c, k.vouches), VouchTest(m, c, []));
    FilterSame(r.pendings, PendingTest(m, c, k.pendings), PendingTest(m, c, []));
    FilterSame(r.legacy, LegacyTest(m, c, k.legacy), LegacyTest(m, c, []));
    FilterSame(r.removals, RemovalTest(m, c, k.removals), RemovalTest(m, c, []));
    assert Checked(r, now, c, Some(known)) == Checked(r, now, c, None);
  }

  // ---- Compaction and merging add no statement ----

  ghost predicate Part(a: Roster, b: Roster) {
    && a.master == b.master && a.rPub == b.rPub
    && Elems(a.recoveries) <= Elems(b.recoveries) && Elems(a.phraseAdmits) <= Elems(b.phraseAdmits)
    && Elems(a.consents) <= Elems(b.consents) && Elems(a.vouches) <= Elems(b.vouches)
    && Elems(a.pendings) <= Elems(b.pendings) && Elems(a.legacy) <= Elems(b.legacy)
    && Elems(a.removals) <= Elems(b.removals)
  }

  lemma {:induction false} SortedPart<T(!new)>(xs: seq<T>, key: T -> Key, cap: nat)
    requires Injective(key)
    ensures Elems(Cap(SortUnique(xs, key), cap)) <= Elems(xs)
  {
    SortUniqueFacts(xs, key);
  }

  lemma {:induction false} UnsupersededPart(r: Roster, c: Crypto)
    ensures Part(Unsuperseded(r, c), r)
  {
    UnsupersededParts(r, c);
    var u := Unsuperseded(r, c);
    var cur := CurrentRecovery(r.(recoveries := u.recoveries), c);
    KeysInjective();
    LatestElems(r.recoveries);
    SortedPart(Latest(r.recoveries), RecoveryKey, MAX_RECOVERY_TIES);
    assert Elems(u.recoveries) <= Elems(r.recoveries);
    hide Unsuperseded, CurrentRecovery, BaseOf, Injective, SortUnique;
    AdmitsLeft(r.phraseAdmits, cur);
    ConsentsLeft(r.consents);
    OfBase(r, BaseOf(u, c));
    LegacyLeft(if cur.Some? then [] else r.legacy);
    hide AdmitsPast, OneConsentEach, VouchesOf, PendingsOf, RemovalsOf;
    assert Elems(u.consents) <= Elems(r.consents);
  }

  lemma {:induction false} FewUnnamedPart(cs: seq<Consent>, stand: Places, mentioned: set<string>, taken: nat)
    ensures Elems(FewUnnamed(cs, stand, mentioned, taken)) <= Elems(cs)
  {
    if cs != [] {
      var next := if ConsentClass(cs[0], stand, mentioned) == 2 then taken + 1 else taken;
      FewUnnamedPart(cs[1..], stand, mentioned, next);
      assert Elems(cs) == {cs[0]} + Elems(cs[1..]) by { assert cs == [cs[0]] + cs[1..]; }
    }
  }

  lemma {:induction false} RankingPart(s: Roster, stand: Places)
    ensures Part(Ranking(s, stand), s)
  {
    KeysInjective();
    RankedElems(s, stand);
    var vs, xs := RankedVouches(s.vouches, stand), RankedRemovals(s.removals, stand);
    hide Injective, RankedVouches, RankedRemovals;
    SortUniqueFacts(Cap(vs, MAX_VOUCHES), VouchKey);
    SortUniqueFacts(Cap(xs, MAX_REMOVALS), RemovalKey);
    hide SortUnique;
    assert Elems(Cap(vs, MAX_VOUCHES)) <= Elems(vs) <= Elems(s.vouches);
    assert Elems(Cap(xs, MAX_REMOVALS)) <= Elems(xs) <= Elems(s.removals);
  }

  lemma {:induction false} ConsentsPart(cs: seq<Consent>, stand: Places, mentioned: set<string>)
    ensures Elems(KeptConsents(cs, stand, mentioned)) <= Elems(cs)
  {
    KeysInjective();
    ClassInjective(stand, mentioned);
    hide Injective;
    SortUniqueFacts(cs, (k: Consent) =>
      [Num(ConsentClass(k, stand, mentioned))] + RankKey(stand, k.device) + ConsentKey(k));
    var ranked := RankedConsents(cs, stand, mentioned);
    FewUnnamedPart(ranked, stand, mentioned, 0);
    var few := FewUnnamed(ranked, stand, mentioned, 0);
    SortUniqueFacts(Cap(few, MAX_CONSENTS), ConsentKey);
    assert Elems(Cap(few, MAX_CONSENTS)) <= Elems(few);
  }

  lemma {:induction false} TrimmedPart(s: Roster, stand: Places)
    ensures Part(Trimmed(s, stand), s) && Trimmed(s, stand).recoveries == s.recoveries
  {
    var mentioned := Mentioned(Ranking(s, stand));
    RankingPart(s, stand);
    RankingKeeps(s, stand);
    hide Ranking, KeptConsents, Mentioned;
    ConsentsPart(s.consents, stand, mentioned);
  }

  // Compaction only drops, ceilings or not.
  lemma {:induction false} CompactedPart(r: Roster, c: Crypto)
    ensures Part(Compacted(r, c), r)
  {
    var s := Surviving(r, c);
    UnsupersededPart(r, c);
    hide Unsuperseded, Standing, Trimmed;
    assert Part(s, r);
    TrimmedPart(s, Standing(s, c));
  }

  lemma {:induction false} GenuinePart(a: Roster, b: Roster, c: Crypto)
    requires Part(a, b) && Genuine(b, c)
    ensures Genuine(a, c)
  {
    hide RecoverySigned, PhraseSigned, ConsentSigned, VouchSigned, PendingSigned, LegacySigned, RemovalSigned;
    NoElems(a.recoveries);
    NoElems(a.phraseAdmits);
    NoElems(b.recoveries);
    NoElems(b.phraseAdmits);
    assert forall x | x in a.recoveries :: x in Elems(b.recoveries);
    assert forall x | x in a.phraseAdmits :: x in Elems(b.phraseAdmits);
    assert forall x | x in a.consents :: x in Elems(b.consents);
    assert forall x | x in a.vouches :: x in Elems(b.vouches);
    assert forall x | x in a.pendings :: x in Elems(b.pendings);
    assert forall x | x in a.legacy :: x in Elems(b.legacy);
    assert forall x | x in a.removals :: x in Elems(b.removals);
  }

  lemma {:induction false} FilterHolds<T(!new)>(xs: seq<T>, keep: T -> bool)
    ensures forall x | x in Filter(xs, keep) :: keep(x)
  {
    forall x | x in Filter(xs, keep) ensures keep(x) { FilterElems(xs, keep, x); }
  }

  // ---- What each statement has to be signed by, and over what ----

  predicate Ids(ids: seq<string>, c: Crypto) {
    SortedIds(ids) == ids && forall d | d in ids :: c.isKey(d)
  }

  predicate BaseName(base: string) {
    base == "legacy" || (|base| == 32 && forall i | 0 <= i < 32 :: '0' <= base[i] <= '9' || 'a' <= base[i] <= 'f')
  }

  lemma {:induction false} BaseNameIs(base: string)
    ensures IsBaseShape(base) <==> BaseName(base)
  {
    assert forall i | 0 <= i < |base| :: base[i] in base;
  }

  // The devices' own statements that pass: each well-shaped one its device or signer signed,
  // and no other.
  lemma {:induction false} DevicesChecked(r: Roster, now: int, c: Crypto)
    ensures var k, m := Checked(r, now, c, None), r.master;
            && k.master == m
            && (forall x :: x in k.consents <==> x in r.consents && c.verifyById(x.device, x.sig, JoinMsg(m, x.device)))
            && (forall x :: x in k.vouches <==>
                  && x in r.vouches && c.verifyById(x.signer, x.sig, AdmitMsg(m, x.base, x.device))
                  && BaseName(x.base) && c.isKey(x.device) && x.device != x.signer)
            && (forall x :: x in k.removals <==>
                  && x in r.removals && c.verifyById(x.signer, x.sig, RemoveMsg(m, x.base, x.device, x.keepVouched))
                  && BaseName(x.base) && c.isKey(x.device) && Ids(x.keepVouched, c) && |x.keepVouched| <= 16)
  {
    var k := Checked(r, now, c, None);
    hide SortedIds, Filter;
    forall base: string ensures IsBaseShape(base) <==> BaseName(base) { BaseNameIs(base); }
    FilterIs(r.consents, ConsentTest(r.master, c, []));
    FilterIs(r.vouches, VouchTest(r.master, c, []));
    FilterIs(r.removals, RemovalTest(r.master, c, []));
    assert forall x :: x in k.consents <==> x in Elems(k.consents);
    assert forall x :: x in k.vouches <==> x in Elems(k.vouches);
    assert forall x :: x in k.removals <==> x in Elems(k.removals);
  }

  // The master's: asks and claims it signed.
  lemma {:induction false} MasterChecked(r: Roster, now: int, c: Crypto)
    ensures var k, m := Checked(r, now, c, None), r.master;
            && (forall x :: x in k.pendings <==>
                  && x in r.pendings && c.verifyById(m, x.sigM, PendingMsg(m, x.base, x.device))
                  && BaseName(x.base) && c.isKey(x.device))
            && (forall x :: x in k.legacy <==>
                  x in r.legacy && c.verifyById(m, x.sigM, LegacyMsg(m, x.device)) && c.isKey(x.device))
  {
    var k := Checked(r, now, c, None);
    hide Filter;
    forall base: string ensures IsBaseShape(base) <==> BaseName(base) { BaseNameIs(base); }
    FilterIs(r.pendings, PendingTest(r.master, c, []));
    FilterIs(r.legacy, LegacyTest(r.master, c, []));
    assert forall x :: x in k.pendings <==> x in Elems(k.pendings);
    var known: seq<LegacyClaim> := [];
    forall x ensures x in k.legacy <==> x in r.legacy && c.isKey(x.device) && LegacySigned(x, r.master, c) {
      assert x in k.legacy <==> x in Elems(k.legacy);
      assert LegacyTest(r.master, c, known)(x) <==> c.isKey(x.device) && (x in known || LegacySigned(x, r.master, c));
    }
  }

  // The phrase's: recoveries and admissions at most ten minutes ahead, signed by the recovery
  // key and by the master alike. Their key is kept while one of them is.
  lemma {:induction false} PhraseChecked(r: Roster, now: int, c: Crypto)
    ensures var k, m := Checked(r, now, c, None), r.master;
            && (forall x :: x in k.recoveries <==>
                  var msg := RecoveryMsg(m, r.rPub, x.at, x.keep, x.noWait);
                  && x in r.recoveries && c.verifyByKey(r.rPub, x.sigR, msg) && c.verifyById(m, x.sigM, msg)
                  && x.at <= now + 600_000 && Ids(x.keep, c) && 0 < |x.keep| <= 64)
            && (forall x :: x in k.phraseAdmits <==>
                  var msg := PhraseAdmitMsg(m, r.rPub, x.at, x.device);
                  && x in r.phraseAdmits && c.verifyByKey(r.rPub, x.sigR, msg) && c.verifyById(m, x.sigM, msg)
                  && x.at <= now + 600_000 && c.isKey(x.device))
            && k.rPub == if k.recoveries == [] && k.phraseAdmits == [] then "" else r.rPub
  {
    var k := Checked(r, now, c, None);
    hide SortedIds, Filter;
    FilterIs(r.recoveries, RecoveryTest(r.master, r.rPub, now, c, []));
    FilterIs(r.phraseAdmits, PhraseTest(r.master, r.rPub, now, c, []));
    assert forall x :: x in k.recoveries <==> x in Elems(k.recoveries);
    assert forall x :: x in k.phraseAdmits <==> x in Elems(k.phraseAdmits);
  }

  // No signature by the id `s` verifies.
  ghost predicate Silent(c: Crypto, s: string) {
    forall sig, msg :: !c.verifyById(s, sig, msg)
  }

  // Nobody can speak for an id: without its signature nothing it could have stated is left,
  // and without the master's nothing but consents, vouches and removals.
  ghost predicate Unspoken(r: Roster, s: string) {
    && (forall x | x in r.consents :: x.device != s) && (forall x | x in r.vouches :: x.signer != s)
    && (forall x | x in r.removals :: x.signer != s)
    && (r.master == s ==> r.recoveries == [] && r.phraseAdmits == [] && r.pendings == [] && r.legacy == [])
  }

  lemma {:induction false} GenuineUnspoken(r: Roster, c: Crypto, s: string)
    requires Genuine(r, c) && Silent(c, s)
    ensures Unspoken(r, s)
  {
    hide SortedIds;
    NoElems(r.recoveries);
    NoElems(r.phraseAdmits);
    NoElems(r.pendings);
    NoElems(r.legacy);
  }

  // Nor for the recovery key.
  lemma {:induction false} GenuineUnkeyed(r: Roster, c: Crypto)
    requires Genuine(r, c) && forall sig, msg :: !c.verifyByKey(r.rPub, sig, msg)
    ensures r.recoveries == [] && r.phraseAdmits == []
  {
    hide SortedIds;
    NoElems(r.recoveries);
    NoElems(r.phraseAdmits);
  }

  // The empty string is no key.
  ghost predicate NoEmptyKey(c: Crypto) {
    forall sig, msg :: !c.verifyByKey("", sig, msg)
  }

  lemma {:induction false} PhraseStatementsGenuine(r: Roster, now: int, c: Crypto)
    requires NoEmptyKey(c)
    ensures var k := Checked(r, now, c, None);
            && (forall x | x in k.recoveries :: RecoverySigned(x, k.master, k.rPub, c))
            && (forall x | x in k.phraseAdmits :: PhraseSigned(x, k.master, k.rPub, c))
            && (k.rPub == "" ==> k.recoveries == [] && k.phraseAdmits == [])
  {
    var k := Checked(r, now, c, None);
    FilterHolds(r.recoveries, RecoveryTest(r.master, r.rPub, now, c, []));
    FilterHolds(r.phraseAdmits, PhraseTest(r.master, r.rPub, now, c, []));
    assert k.recoveries != [] ==> k.recoveries[0] in k.recoveries;
    assert k.phraseAdmits != [] ==> k.phraseAdmits[0] in k.phraseAdmits;
    hide Filter;
  }

  lemma {:induction false} OthersGenuine(r: Roster, now: int, c: Crypto)
    ensures var k := Checked(r, now, c, None);
            && (forall x | x in k.consents :: ConsentSigned(x, k.master, c))
            && (forall x | x in k.vouches :: VouchSigned(x, k.master, c))
            && (forall x | x in k.pendings :: PendingSigned(x, k.master, c))
            && (forall x | x in k.legacy :: LegacySigned(x, k.master, c))
            && (forall x | x in k.removals :: RemovalSigned(x, k.master, c))
  {
    hide Filter, RecoveryTest, PhraseTest, ConsentSigned, VouchSigned, PendingSigned, LegacySigned, RemovalSigned,
         VouchShape, PendingShape, RemovalShape;
    FilterHolds(r.consents, ConsentTest(r.master, c, []));
    FilterHolds(r.vouches, VouchTest(r.master, c, []));
    FilterHolds(r.pendings, PendingTest(r.master, c, []));
    FilterHolds(r.legacy, LegacyTest(r.master, c, []));
    FilterHolds(r.removals, RemovalTest(r.master, c, []));
  }

  lemma {:induction false} VerifiedGenuine(r: Roster, now: int, c: Crypto)
    requires NoEmptyKey(c)
    ensures Genuine(Verified(r, now, c, None), c)
  {
    hide Checked, Compacted, RecoverySigned, PhraseSigned, ConsentSigned, VouchSigned, PendingSigned, LegacySigned,
         RemovalSigned;
    var k := Checked(r, now, c, None);
    PhraseStatementsGenuine(r, now, c);
    OthersGenuine(r, now, c);
    assert Genuine(k, c);
    hide Genuine;
    CompactedPart(k, c);
    GenuinePart(Compacted(k, c), k, c);
    NobodyGenuine(c);
  }

  // Whatever is shown, what is left of it once verified speaks for nobody who did not sign.
  lemma {:induction false} VerifiedUnforged(r: Roster, now: int, c: Crypto, s: string)
    requires NoEmptyKey(c)
    ensures var v := Verified(r, now, c, None);
            && (Silent(c, s) ==> Unspoken(v, s))
            && ((forall sig, msg :: !c.verifyByKey(r.rPub, sig, msg)) ==> v.recoveries == [] && v.phraseAdmits == [])
  {
    var v := Verified(r, now, c, None);
    VerifiedGenuine(r, now, c);
    VerifiedKey(r, now, c);
    hide Verified, Genuine, Unspoken;
    if Silent(c, s) { GenuineUnspoken(v, c, s); }
    if forall sig, msg :: !c.verifyByKey(r.rPub, sig, msg) { GenuineUnkeyed(v, c); }
  }

  lemma {:induction false} VerifiedKey(r: Roster, now: int, c: Crypto)
    ensures Verified(r, now, c, None).rPub in {"", r.rPub}
  {
    hide Filter, Compacted;
    CompactedSorted(Checked(r, now, c, None), c);
  }

  lemma {:induction false} NobodyGenuine(c: Crypto)
    ensures Genuine(Named(""), c)
  {}

  lemma {:induction false} EachHolds<T(!new)>(a: seq<T>, b: seq<T>, key: T -> Key, ok: T -> bool)
    requires Injective(key) && (forall x | x in a :: ok(x)) && (forall x | x in b :: ok(x))
    ensures forall x | x in SortUnique(a + b, key) :: ok(x)
  {
    SortUniqueFacts(a + b, key);
    hide Injective, SortUnique;
    forall x | x in SortUnique(a + b, key) ensures ok(x) {
      assert x in Elems(SortUnique(a + b, key));
      assert x in a + b;
    }
  }

  lemma {:induction false} JoinedGenuine(a: Roster, b: Roster, c: Crypto)
    requires Genuine(a, c) && Genuine(b, c) && a.master == b.master
    ensures Genuine(Joined(a, b), c)
  {
    KeysInjective();
    hide Injective, SortUnique, RecoverySigned, PhraseSigned, ConsentSigned, VouchSigned, PendingSigned, LegacySigned,
         RemovalSigned;
    var m := a.master;
    JoinedPhraseGenuine(a, b, c);
    EachHolds(a.consents, b.consents, ConsentKey, (x: Consent) => ConsentSigned(x, m, c));
    EachHolds(a.vouches, b.vouches, VouchKey, (x: Vouch) => VouchSigned(x, m, c));
    EachHolds(a.pendings, b.pendings, PendingKey, (x: Pending) => PendingSigned(x, m, c));
    EachHolds(a.legacy, b.legacy, LegacyKey, (x: LegacyClaim) => LegacySigned(x, m, c));
    EachHolds(a.removals, b.removals, RemovalKey, (x: Removal) => RemovalSigned(x, m, c));
  }

  lemma {:induction false} JoinedPhraseGenuine(a: Roster, b: Roster, c: Crypto)
    requires Genuine(a, c) && Genuine(b, c) && a.master == b.master
    ensures var j := Joined(a, b);
            && (forall x | x in j.recoveries :: RecoverySigned(x, j.master, j.rPub, c))
            && (forall x | x in j.phraseAdmits :: PhraseSigned(x, j.master, j.rPub, c)) && Keyed(j)
  {
    KeysInjective();
    hide Injective, SortUnique, RecoverySigned, PhraseSigned, ConsentSigned, VouchSigned, PendingSigned, LegacySigned,
         RemovalSigned;
    var j := Joined(a, b);
    if (a.rPub == "" || a.rPub == b.rPub) && b.rPub != "" {
      EachHolds(a.recoveries, b.recoveries, RecoveryKey, (x: Recovery) => RecoverySigned(x, j.master, j.rPub, c));
      EachHolds(a.phraseAdmits, b.phraseAdmits, PhraseKey, (x: PhraseAdmit) => PhraseSigned(x, j.master, j.rPub, c));
    }
  }

  // A merge of genuine rosters is genuine, under the key of `a` if that has one.
  lemma {:induction false} MergedGenuine(a: Roster, b: Roster, c: Crypto, seen: FirstSeen)
    requires Genuine(a, c) && Genuine(b, c) && a.master == b.master
    ensures var m := MergedByFirstSight(a, b, c, seen);
            Genuine(m, c) && m.master == a.master && (a.rPub != "" ==> m.rPub == a.rPub)
  {
    var (x, y) := Fitted(a, b, c, seen);
    FittedPart(a, b, c, seen);
    GenuinePart(x, a, c);
    GenuinePart(y, b, c);
    hide Fitted, Genuine;
    JoinedGenuine(x, y, c);
    CompactedPart(Joined(x, y), c);
    GenuinePart(Compacted(Joined(x, y), c), Joined(x, y), c);
  }

  lemma {:induction false} FittedPart(a: Roster, b: Roster, c: Crypto, seen: FirstSeen)
    ensures var p := Fitted(a, b, c, seen); Part(p.0, a) && Part(p.1, b)
  {
    hide Merged, BaseOf, Asks, BySight;
    var base := BaseOf(Merged(a, b, c), c);
    var kept := Cap(BySight(Asks(a, b, base), seen), MAX_PENDING);
    FilterIs(a.pendings, (p: Pending) => p.base != base || p in kept);
    FilterIs(b.pendings, (p: Pending) => p.base != base || p in kept);
  }
}
