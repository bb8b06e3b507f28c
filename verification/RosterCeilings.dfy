// Which statements of each kind compaction keeps (relay-uws/src/roster.h, compacted): the
// first in the order their fields give, as many as each ceiling says.
module RosterCeilings {
  import opened Base
  import opened Orders
  import opened Closures
  import opened Rosters
  import opened RosterFacts
  import opened RosterLists
  import opened RosterRanking

  // ---- The order of statements ----

  // By one field after another.
  lemma {:induction false} FieldFirst(a: Key, b: Key)
    requires |a| == |b| > 0
    ensures KeyLess(a, b) <==> AtomLess(a[0], b[0]) || (a[0] == b[0] && KeyLess(a[1..], b[1..]))
  {
    AtomTotal();
  }

  lemma {:induction false} NoField()
    ensures !KeyLess([], [])
  {}

  lemma {:induction false} Order2(a0: Atom, a1: Atom, b0: Atom, b1: Atom)
    ensures KeyLess([a0, a1], [b0, b1]) <==> AtomLess(a0, b0) || (a0 == b0 && AtomLess(a1, b1))
  {
    hide KeyLess, AtomLess;
    FieldFirst([a0, a1], [b0, b1]);
    FieldFirst([a1], [b1]);
    assert [a0, a1][1..] == [a1] && [b0, b1][1..] == [b1] && [a1][1..] == [] && [b1][1..] == [];
    NoField();
  }

  lemma {:induction false} Order3(a0: Atom, a1: Atom, a2: Atom, b0: Atom, b1: Atom, b2: Atom)
    ensures KeyLess([a0, a1, a2], [b0, b1, b2]) <==>
            AtomLess(a0, b0) || (a0 == b0 && (AtomLess(a1, b1) || (a1 == b1 && AtomLess(a2, b2))))
  {
    hide KeyLess, AtomLess;
    FieldFirst([a0, a1, a2], [b0, b1, b2]);
    Order2(a1, a2, b1, b2);
    assert [a0, a1, a2][1..] == [a1, a2] && [b0, b1, b2][1..] == [b1, b2];
  }

  lemma {:induction false} Order4(a0: Atom, a1: Atom, a2: Atom, a3: Atom, b0: Atom, b1: Atom, b2: Atom, b3: Atom)
    ensures KeyLess([a0, a1, a2, a3], [b0, b1, b2, b3]) <==>
            || AtomLess(a0, b0)
            || (a0 == b0 && (AtomLess(a1, b1) || (a1 == b1 && (AtomLess(a2, b2) || (a2 == b2 && AtomLess(a3, b3))))))
  {
    hide KeyLess, AtomLess;
    FieldFirst([a0, a1, a2, a3], [b0, b1, b2, b3]);
    Order3(a1, a2, a3, b1, b2, b3);
    assert [a0, a1, a2, a3][1..] == [a1, a2, a3] && [b0, b1, b2, b3][1..] == [b1, b2, b3];
  }

  lemma {:induction false} Order5(a0: Atom, a: Key, b0: Atom, b: Key)
    requires |a| == |b| == 4
    ensures KeyLess([a0] + a, [b0] + b) <==>
            || AtomLess(a0, b0)
            || (a0 == b0 &&
                (AtomLess(a[0], b[0]) || (a[0] == b[0] &&
                 (AtomLess(a[1], b[1]) || (a[1] == b[1] &&
                  (AtomLess(a[2], b[2]) || (a[2] == b[2] && AtomLess(a[3], b[3]))))))))
  {
    hide KeyLess, AtomLess;
    FieldFirst([a0] + a, [b0] + b);
    Order4(a[0], a[1], a[2], a[3], b[0], b[1], b[2], b[3]);
    assert ([a0] + a)[1..] == a == [a[0], a[1], a[2], a[3]] && ([b0] + b)[1..] == b == [b[0], b[1], b[2], b[3]];
  }

  // Consents and claims by device, then signature; asks and vouches by base first.
  lemma {:induction false} StatementOrder()
    ensures forall x, y :: KeyLess(ConsentKey(x), ConsentKey(y)) <==>
              StrLess(x.device, y.device) || (x.device == y.device && StrLess(x.sig, y.sig))
    ensures forall x, y :: KeyLess(LegacyKey(x), LegacyKey(y)) <==>
              StrLess(x.device, y.device) || (x.device == y.device && StrLess(x.sigM, y.sigM))
    ensures forall x, y :: KeyLess(PendingKey(x), PendingKey(y)) <==>
              || StrLess(x.base, y.base)
              || (x.base == y.base &&
                  (StrLess(x.device, y.device) || (x.device == y.device && StrLess(x.sigM, y.sigM))))
    ensures forall x, y :: KeyLess(VouchKey(x), VouchKey(y)) <==>
              || StrLess(x.base, y.base)
              || (x.base == y.base &&
                  (StrLess(x.device, y.device) || (x.device == y.device &&
                   (StrLess(x.signer, y.signer) || (x.signer == y.signer && StrLess(x.sig, y.sig))))))
    ensures forall x, y :: KeyLess(PhraseKey(x), PhraseKey(y)) <==>
              || x.at < y.at
              || (x.at == y.at &&
                  (StrLess(x.device, y.device) || (x.device == y.device &&
                   (StrLess(x.sigR, y.sigR) || (x.sigR == y.sigR && StrLess(x.sigM, y.sigM))))))
  {
    hide KeyLess, StrLess;
    forall x, y ensures KeyLess(ConsentKey(x), ConsentKey(y)) <==>
        StrLess(x.device, y.device) || (x.device == y.device && StrLess(x.sig, y.sig))
    {
      Order2(Str(x.device), Str(x.sig), Str(y.device), Str(y.sig));
    }
    forall x, y ensures KeyLess(LegacyKey(x), LegacyKey(y)) <==>
        StrLess(x.device, y.device) || (x.device == y.device && StrLess(x.sigM, y.sigM))
    {
      Order2(Str(x.device), Str(x.sigM), Str(y.device), Str(y.sigM));
    }
    forall x, y ensures KeyLess(PendingKey(x), PendingKey(y)) <==>
        || StrLess(x.base, y.base)
        || (x.base == y.base && (StrLess(x.device, y.device) || (x.device == y.device && StrLess(x.sigM, y.sigM))))
    {
      Order3(Str(x.base), Str(x.device), Str(x.sigM), Str(y.base), Str(y.device), Str(y.sigM));
    }
    forall x, y ensures KeyLess(VouchKey(x), VouchKey(y)) <==>
        || StrLess(x.base, y.base)
        || (x.base == y.base &&
            (StrLess(x.device, y.device) || (x.device == y.device &&
             (StrLess(x.signer, y.signer) || (x.signer == y.signer && StrLess(x.sig, y.sig))))))
    {
      Order4(Str(x.base), Str(x.device), Str(x.signer), Str(x.sig), Str(y.base), Str(y.device), Str(y.signer),
             Str(y.sig));
    }
    forall x, y ensures KeyLess(PhraseKey(x), PhraseKey(y)) <==>
        || x.at < y.at
        || (x.at == y.at &&
            (StrLess(x.device, y.device) || (x.device == y.device &&
             (StrLess(x.sigR, y.sigR) || (x.sigR == y.sigR && StrLess(x.sigM, y.sigM))))))
    {
      Order4(Num(x.at), Str(x.device), Str(x.sigR), Str(x.sigM), Num(y.at), Str(y.device), Str(y.sigR), Str(y.sigM));
    }
  }

  // Removals by base, device, signer, what they keep and signature; recoveries by moment, what
  // they keep, whether they forbid waiting and signatures.
  lemma {:induction false} LongOrder()
    ensures forall x, y :: KeyLess(RemovalKey(x), RemovalKey(y)) <==>
              || StrLess(x.base, y.base)
              || (x.base == y.base &&
                  (StrLess(x.device, y.device) || (x.device == y.device &&
                   (StrLess(x.signer, y.signer) || (x.signer == y.signer &&
                    (StrsLess(x.keepVouched, y.keepVouched) ||
                     (x.keepVouched == y.keepVouched && StrLess(x.sig, y.sig))))))))
    ensures forall x, y :: KeyLess(RecoveryKey(x), RecoveryKey(y)) <==>
              || x.at < y.at
              || (x.at == y.at &&
                  (StrsLess(x.keep, y.keep) || (x.keep == y.keep &&
                   ((!x.noWait && y.noWait) || (x.noWait == y.noWait &&
                    (StrLess(x.sigR, y.sigR) || (x.sigR == y.sigR && StrLess(x.sigM, y.sigM))))))))
  {
    hide KeyLess, StrLess, StrsLess;
    forall x, y
      ensures KeyLess(RemovalKey(x), RemovalKey(y)) <==>
                || StrLess(x.base, y.base)
                || (x.base == y.base &&
                    (StrLess(x.device, y.device) || (x.device == y.device &&
                     (StrLess(x.signer, y.signer) || (x.signer == y.signer &&
                      (StrsLess(x.keepVouched, y.keepVouched) ||
                       (x.keepVouched == y.keepVouched && StrLess(x.sig, y.sig))))))))
    {
      var a, b := RemovalKey(x), RemovalKey(y);
      Order5(a[0], a[1..], b[0], b[1..]);
      assert [a[0]] + a[1..] == a && [b[0]] + b[1..] == b;
    }
    forall x, y
      ensures KeyLess(RecoveryKey(x), RecoveryKey(y)) <==>
                || x.at < y.at
                || (x.at == y.at &&
                    (StrsLess(x.keep, y.keep) || (x.keep == y.keep &&
                     ((!x.noWait && y.noWait) || (x.noWait == y.noWait &&
                      (StrLess(x.sigR, y.sigR) || (x.sigR == y.sigR && StrLess(x.sigM, y.sigM))))))))
    {
      var a, b := RecoveryKey(x), RecoveryKey(y);
      Order5(a[0], a[1..], b[0], b[1..]);
      assert [a[0]] + a[1..] == a && [b[0]] + b[1..] == b;
    }
  }

  // ---- The rank ----

  // The roots' tier before the asks', then the nearer, then the lesser id.
  ghost predicate RanksBefore(stand: Places, p: string, q: string)
    requires p in stand && q in stand
  {
    || stand[p].tier < stand[q].tier
    || (stand[p].tier == stand[q].tier &&
        (stand[p].depth < stand[q].depth || (stand[p].depth == stand[q].depth && StrLess(p, q))))
  }

  lemma {:induction false} SameStart(p: Key, a: Key, b: Key)
    ensures KeyLess(p + a, p + b) <==> KeyLess(a, b)
  {
    if p == [] {
      assert p + a == a && p + b == b;
    } else {
      AtomTotal();
      SameStart(p[1..], a, b);
      assert (p + a)[0] == p[0] == (p + b)[0] && (p + a)[1..] == p[1..] + a && (p + b)[1..] == p[1..] + b;
    }
  }

  // Statements are ranked by who made them, and only those of one device by their fields.
  lemma {:induction false} RankedBy(stand: Places, p: string, q: string, a: Key, b: Key)
    requires p in stand && q in stand
    ensures KeyLess(RankKey(stand, p), RankKey(stand, q)) <==> RanksBefore(stand, p, q)
    ensures KeyLess(RankKey(stand, p) + a, RankKey(stand, q) + b) <==>
            if p == q then KeyLess(a, b) else RanksBefore(stand, p, q)
  {
    hide KeyLess, StrLess;
    Order3(Num(stand[p].tier), Num(stand[p].depth), Str(p), Num(stand[q].tier), Num(stand[q].depth), Str(q));
    if p == q { SameStart(RankKey(stand, p), a, b); } else { RankBefore(stand, p, q, a, b); }
  }

  // So these are the devices before another, and the removals before another.
  lemma {:induction false} AheadIs(s: Roster, stand: Places, d: string, x: Removal)
    requires d in stand
    ensures forall e :: e in Ahead(stand, d) <==> e in stand && RanksBefore(stand, e, d)
    ensures x.signer in stand ==>
              forall y :: y in Outranking(s, stand, x) <==>
                && y in s.removals && y.signer in stand
                && if y.signer == x.signer then KeyLess(RemovalKey(y), RemovalKey(x))
                   else RanksBefore(stand, y.signer, x.signer)
  {
    hide KeyLess, RankKey, RanksBefore;
    forall e | e in stand ensures e in Ahead(stand, d) <==> RanksBefore(stand, e, d) { RankedBy(stand, e, d, [], []); }
    if x.signer in stand {
      forall y | y in s.removals && y.signer in stand
        ensures y in Outranking(s, stand, x) <==>
                if y.signer == x.signer then KeyLess(RemovalKey(y), RemovalKey(x))
                else RanksBefore(stand, y.signer, x.signer)
      {
        RankedBy(stand, y.signer, x.signer, RemovalKey(y), RemovalKey(x));
      }
    }
  }

  // ---- Consents ----

  // Some other statement of `m` is about `d`.
  ghost predicate NamedIn(m: Roster, d: string) {
    || (exists x | x in m.recoveries :: d in x.keep) || (exists p | p in m.phraseAdmits :: p.device == d)
    || (exists p | p in m.pendings :: p.device == d) || (exists l | l in m.legacy :: l.device == d)
    || (exists v | v in m.vouches :: v.device == d) || exists x | x in m.removals :: x.device == d
  }

  lemma {:induction false} MentionedIs(m: Roster, d: string)
    ensures d in Mentioned(m) <==> NamedIn(m, d)
  {}

  // The order consents are cut in: standing devices by rank, then those named elsewhere, then
  // the rest, each of the latter two by device.
  ghost predicate ConsentFirst(stand: Places, m: Roster, y: string, k: string) {
    if y in stand && k in stand then RanksBefore(stand, y, k)
    else if y in stand || k in stand then y in stand
    else if NamedIn(m, y) != NamedIn(m, k) then NamedIn(m, y)
    else StrLess(y, k)
  }

  lemma {:induction false} ConsentFirstIs(stand: Places, m: Roster, y: Consent, k: Consent)
    requires y.device != k.device
    ensures var key := ConsentRank(stand, Mentioned(m));
            KeyLess(key(y), key(k)) <==> ConsentFirst(stand, m, y.device, k.device)
  {
    MentionedIs(m, y.device);
    MentionedIs(m, k.device);
    hide Mentioned, NamedIn, KeyLess, RanksBefore, StrLess;
    var mentioned := Mentioned(m);
    var p, q := ConsentClass(y, stand, mentioned), ConsentClass(k, stand, mentioned);
    var a, b := RankKey(stand, y.device) + ConsentKey(y), RankKey(stand, k.device) + ConsentKey(k);
    assert [Num(p)] + a == [Num(p)] + RankKey(stand, y.device) + ConsentKey(y) == ConsentRank(stand, mentioned)(y);
    assert [Num(q)] + b == [Num(q)] + RankKey(stand, k.device) + ConsentKey(k) == ConsentRank(stand, mentioned)(k);
    if p != q {
      PrefixLess([Num(p)], [Num(q)], a, b);
      OneNumber(p, q);
    } else {
      SameStart([Num(p)], a, b);
      if p == 0 {
        RankedBy(stand, y.device, k.device, ConsentKey(y), ConsentKey(k));
      } else {
        assert a == ConsentKey(y) && b == ConsentKey(k);
        StatementOrder();
      }
    }
  }

  lemma {:induction false} OneNumber(p: int, q: int)
    ensures KeyLess([Num(p)], [Num(q)]) <==> p < q
  {
    FieldFirst([Num(p)], [Num(q)]);
    NoField();
  }

  // Neither standing nor named.
  ghost predicate Loose(stand: Places, m: Roster, d: string) {
    d !in stand && !NamedIn(m, d)
  }

  // The consents ordered before that of `d`; of those, the loose ones.
  ghost function Firsts(cs: seq<Consent>, stand: Places, m: Roster, d: string): set<Consent> {
    set y | y in cs && y.device != d && ConsentFirst(stand, m, y.device, d)
  }

  ghost function LooseFirsts(cs: seq<Consent>, stand: Places, m: Roster, d: string): set<Consent> {
    set y | y in Firsts(cs, stand, m, d) && Loose(stand, m, y.device)
  }

  // Left once the loose ones past the eighth are dropped.
  ghost predicate HasRoom(cs: seq<Consent>, stand: Places, m: Roster, d: string) {
    Loose(stand, m, d) ==> |LooseFirsts(cs, stand, m, d)| < 8
  }

  lemma {:induction false} LesserConsents(cs: seq<Consent>, some: seq<Consent>, stand: Places, m: Roster, k: Consent)
    requires k in cs && forall x, y | x in cs && y in cs && x.device == y.device :: x == y
    requires forall y | y in some :: y in cs
    ensures forall y | y in some ::
              y in Lesser(some, ConsentRank(stand, Mentioned(m)), k) <==> y in Firsts(cs, stand, m, k.device)
  {
    KeyTotal();
    hide KeyLess, ConsentRank, Mentioned, ConsentFirst;
    forall y | y in some
      ensures y in Lesser(some, ConsentRank(stand, Mentioned(m)), k) <==> y in Firsts(cs, stand, m, k.device)
    {
      if y != k { ConsentFirstIs(stand, m, y, k); }
    }
  }

  lemma {:induction false} RankedFacts(cs: seq<Consent>, stand: Places, mentioned: set<string>)
    ensures var ranked := RankedConsents(cs, stand, mentioned);
            Sorted(ranked, ConsentRank(stand, mentioned)) && forall x :: x in ranked <==> x in cs
  {
    var key, ranked := ConsentRank(stand, mentioned), RankedConsents(cs, stand, mentioned);
    ClassInjective(stand, mentioned);
    SortUniqueFacts(cs, key);
    hide SortUnique, Injective, Sorted;
    assert forall x :: (x in ranked <==> x in Elems(ranked)) && (x in cs <==> x in Elems(cs));
  }

  // What is left of the loose ones: the first eight.
  lemma {:induction false} LooseLeft(ranked: seq<Consent>, stand: Places, m: Roster, k: Consent)
    requires Sorted(ranked, ConsentRank(stand, Mentioned(m))) && k in ranked && Loose(stand, m, k.device)
    ensures var loose := UnnamedOf(ranked, stand, Mentioned(m));
            && k in loose
            && (k in FewUnnamed(ranked, stand, Mentioned(m), 0) <==>
                |Lesser(loose, ConsentRank(stand, Mentioned(m)), k)| < 8)
  {
    var mentioned := Mentioned(m);
    var key, loose := ConsentRank(stand, mentioned), UnnamedOf(ranked, stand, mentioned);
    hide Mentioned, ConsentRank, FewUnnamed, Loose, KeyLess, ConsentClass;
    FewUnnamedFirst(ranked, stand, mentioned, 0);
    LooseAre(ranked, stand, m);
    LooseAre(FewUnnamed(ranked, stand, mentioned, 0), stand, m);
    FilterSorted(ranked, (x: Consent) => ConsentClass(x, stand, mentioned) == 2, key);
    hide UnnamedOf, Sorted, Lesser;
    CapExact(loose, key, k, 8);
  }

  lemma {:induction false} RoomIs(cs: seq<Consent>, stand: Places, m: Roster, k: Consent)
    requires k in cs && forall x, y | x in cs && y in cs && x.device == y.device :: x == y
    ensures k in FewUnnamed(RankedConsents(cs, stand, Mentioned(m)), stand, Mentioned(m), 0) <==>
            HasRoom(cs, stand, m, k.device)
  {
    var mentioned := Mentioned(m);
    var key, ranked := ConsentRank(stand, mentioned), RankedConsents(cs, stand, mentioned);
    MentionedIs(m, k.device);
    hide KeyLess, Mentioned, NamedIn, RankedConsents, ConsentFirst, ConsentRank, FewUnnamed, Firsts, Lesser;
    RankedFacts(cs, stand, mentioned);
    if Loose(stand, m, k.device) {
      var loose := UnnamedOf(ranked, stand, mentioned);
      LooseLeft(ranked, stand, m, k);
      LooseAre(ranked, stand, m);
      hide UnnamedOf, Sorted;
      LesserConsents(cs, loose, stand, m, k);
      LesserAre(loose, key, k);
      assert Lesser(loose, key, k) == LooseFirsts(cs, stand, m, k.device) by {
        FirstsAre(cs, stand, m, k.device);
        hide Loose;
      }
    } else {
      FewUnnamedIs(ranked, stand, mentioned, 0, key);
    }
  }

  lemma {:induction false} LesserAre(xs: seq<Consent>, key: Consent -> Key, k: Consent)
    ensures forall y | y in Lesser(xs, key, k) :: y in xs
  {}

  lemma {:induction false} FirstsAre(cs: seq<Consent>, stand: Places, m: Roster, d: string)
    ensures forall y | y in Firsts(cs, stand, m, d) :: y in cs
  {}

  lemma {:induction false} LooseAre(xs: seq<Consent>, stand: Places, m: Roster)
    ensures forall x :: x in UnnamedOf(xs, stand, Mentioned(m)) <==> x in xs && Loose(stand, m, x.device)
  {
    hide Mentioned, NamedIn;
    FilterIs(xs, (x: Consent) => ConsentClass(x, stand, Mentioned(m)) == 2);
    var us := UnnamedOf(xs, stand, Mentioned(m));
    forall x ensures x in us <==> x in xs && Loose(stand, m, x.device) {
      assert x in us <==> x in Elems(us);
      MentionedIs(m, x.device);
    }
  }

  // The consents ordered before that of `d` that have room.
  ghost function RoomyFirsts(cs: seq<Consent>, stand: Places, m: Roster, d: string): set<Consent> {
    set y | y in Firsts(cs, stand, m, d) && HasRoom(cs, stand, m, y.device)
  }

  lemma {:induction false} LesserAreRoomy(cs: seq<Consent>, few: seq<Consent>, stand: Places, m: Roster, k: Consent)
    requires k in cs && forall x, y | x in cs && y in cs && x.device == y.device :: x == y
    requires (forall y | y in few :: y in cs) && forall x | x in cs :: x in few <==> HasRoom(cs, stand, m, x.device)
    ensures Lesser(few, ConsentRank(stand, Mentioned(m)), k) == RoomyFirsts(cs, stand, m, k.device)
  {
    hide KeyLess, Mentioned, ConsentRank, HasRoom, ConsentFirst, Firsts, Lesser;
    LesserConsents(cs, few, stand, m, k);
    LesserAre(few, ConsentRank(stand, Mentioned(m)), k);
    FirstsAre(cs, stand, m, k.device);
  }

  lemma {:induction false} FewAre(cs: seq<Consent>, stand: Places, m: Roster)
    requires forall x, y | x in cs && y in cs && x.device == y.device :: x == y
    ensures var few := FewUnnamed(RankedConsents(cs, stand, Mentioned(m)), stand, Mentioned(m), 0);
            && Sorted(few, ConsentRank(stand, Mentioned(m))) && (forall y | y in few :: y in cs)
            && forall x | x in cs :: x in few <==> HasRoom(cs, stand, m, x.device)
  {
    hide KeyLess, Mentioned, ConsentRank, HasRoom, FewUnnamed, RankedConsents, Sorted, ConsentClass;
    var mentioned := Mentioned(m);
    RankedFacts(cs, stand, mentioned);
    FewUnnamedIs(RankedConsents(cs, stand, mentioned), stand, mentioned, 0, ConsentRank(stand, mentioned));
    var few := FewUnnamed(RankedConsents(cs, stand, mentioned), stand, mentioned, 0);
    forall x | x in cs ensures x in few <==> HasRoom(cs, stand, m, x.device) { RoomIs(cs, stand, m, x); }
  }

  // Which consents compaction keeps, whoever's they are.
  lemma {:induction false} ConsentsKept(cs: seq<Consent>, stand: Places, m: Roster, k: Consent)
    requires k in cs && forall x, y | x in cs && y in cs && x.device == y.device :: x == y
    ensures k in KeptConsents(cs, stand, Mentioned(m)) <==>
            HasRoom(cs, stand, m, k.device) && |RoomyFirsts(cs, stand, m, k.device)| < 96
  {
    var mentioned := Mentioned(m);
    var key := ConsentRank(stand, mentioned);
    var few := FewUnnamed(RankedConsents(cs, stand, mentioned), stand, mentioned, 0);
    hide KeyLess, Mentioned, ConsentRank, HasRoom, FewUnnamed, RankedConsents, Sorted, SortUnique, RoomyFirsts, Lesser;
    FewAre(cs, stand, m);
    KeptIsCut(few, k);
    if k in few {
      CapExact(few, key, k, MAX_CONSENTS);
      LesserAreRoomy(cs, few, stand, m, k);
    } else {
      assert k !in Cap(few, MAX_CONSENTS);
    }
  }

  lemma {:induction false} KeptIsCut(few: seq<Consent>, k: Consent)
    ensures k in SortUnique(Cap(few, MAX_CONSENTS), ConsentKey) <==> k in Cap(few, MAX_CONSENTS)
  {
    var cut := Cap(few, MAX_CONSENTS);
    KeysInjective();
    SortUniqueFacts(cut, ConsentKey);
    hide SortUnique, Injective, Sorted;
    var kept := SortUnique(cut, ConsentKey);
    assert (k in cut <==> k in Elems(cut)) && (k in kept <==> k in Elems(kept));
  }

  // ---- Claims, asks and the phrase's own statements ----

  lemma {:induction false} CutIs<T(!new)>(xs: seq<T>, key: T -> Key, cap: nat, x: T)
    requires Injective(key)
    ensures x in Cap(SortUnique(xs, key), cap) <==> x in xs && |Lesser(xs, key, x)| < cap
  {
    var ys := SortUnique(xs, key);
    SortUniqueFacts(xs, key);
    hide SortUnique, Injective, KeyLess, Sorted;
    assert forall y :: (y in xs <==> y in Elems(xs)) && (y in ys <==> y in Elems(ys));
    if x in ys {
      CapExact(ys, key, x, cap);
      assert Lesser(ys, key, x) == Lesser(xs, key, x);
    } else {
      assert x !in Cap(ys, cap);
    }
  }

  // What compaction leaves of the newest recoveries.
  lemma {:induction false} RecoveriesKept(r: Roster, c: Crypto, x: Recovery)
    ensures var newest := Latest(r.recoveries);
            x in Compacted(r, c).recoveries <==> x in newest && |Lesser(newest, RecoveryKey, x)| < 4
    ensures x in Latest(r.recoveries) <==> x in r.recoveries && forall y | y in r.recoveries :: y.at <= x.at
  {
    FirstKept(r, c);
    KeysInjective();
    CutIs(Latest(r.recoveries), RecoveryKey, 4, x);
    LatestElems(r.recoveries);
    hide Unsuperseded, Compacted, Latest, SortUnique, Injective, Lesser;
    assert x in Latest(r.recoveries) <==> x in Elems(Latest(r.recoveries));
    assert forall y :: y in r.recoveries <==> y in Elems(r.recoveries);
  }

  // Of the claims, while there is no recovery.
  lemma {:induction false} LegacyKept(r: Roster, c: Crypto, x: LegacyClaim)
    ensures x in Compacted(r, c).legacy <==>
            r.recoveries == [] && x in r.legacy && |Lesser(r.legacy, LegacyKey, x)| < 64
  {
    FirstKept(r, c);
    UnsupersededParts(r, c);
    SameRecoveries(r, c);
    KeysInjective();
    CutIs(r.legacy, LegacyKey, 64, x);
    var none: seq<LegacyClaim> := [];
    CutIs(none, LegacyKey, 64, x);
    hide Unsuperseded, Compacted, SortUnique, Injective, Lesser, CurrentRecovery;
  }

  // Of the admissions later than every recovery.
  ghost function Later(r: Roster): seq<PhraseAdmit> {
    Filter(r.phraseAdmits, (p: PhraseAdmit) => forall y | y in r.recoveries :: y.at < p.at)
  }

  lemma {:induction false} LaterIs(r: Roster, c: Crypto)
    ensures var cur := CurrentRecovery(r.(recoveries := Unsuperseded(r, c).recoveries), c);
            AdmitsPast(r.phraseAdmits, cur) == SortUnique(Later(r), PhraseKey)
  {
    SameRecoveries(r, c);
    hide SortUnique, Unsuperseded, CurrentRecovery;
    var cur := CurrentRecovery(r.(recoveries := Unsuperseded(r, c).recoveries), c);
    if cur.Some? {
      FilterAlike(r.phraseAdmits, (p: PhraseAdmit) => forall y | y in r.recoveries :: y.at < p.at,
                  (p: PhraseAdmit) => p.at > cur.value.at);
    } else {
      FilterKeeps(r.phraseAdmits, (p: PhraseAdmit) => forall y | y in r.recoveries :: y.at < p.at);
    }
  }

  lemma {:induction false} AdmitsKept(r: Roster, c: Crypto, x: PhraseAdmit)
    ensures x in Compacted(r, c).phraseAdmits <==> x in Later(r) && |Lesser(Later(r), PhraseKey, x)| < 64
  {
    hide Compacted, SortUnique, Injective, Lesser, CurrentRecovery, Later, AdmitsPast, Unsuperseded;
    FirstKept(r, c);
    UnsupersededParts(r, c);
    LaterIs(r, c);
    KeysInjective();
    CutIs(Later(r), PhraseKey, 64, x);
  }

  lemma {:induction false} FilterAlike<T>(xs: seq<T>, p: T -> bool, q: T -> bool)
    requires forall x | x in xs :: p(x) == q(x)
    ensures Filter(xs, p) == Filter(xs, q)
  {
    if xs != [] { FilterAlike(xs[1..], p, q); }
  }

  lemma {:induction false} FilterKeeps<T>(xs: seq<T>, p: T -> bool)
    requires forall x | x in xs :: p(x)
    ensures Filter(xs, p) == xs
  {
    if xs != [] { FilterKeeps(xs[1..], p); }
  }

  // Of the asks in the base.
  lemma {:induction false} AsksKept(r: Roster, c: Crypto, x: Pending)
    ensures var base := BaseOf(Compacted(r, c), c);
            var asks := Filter(r.pendings, (p: Pending) => p.base == base);
            x in Compacted(r, c).pendings <==> x in asks && |Lesser(asks, PendingKey, x)| < 16
  {
    FirstKept(r, c);
    UnsupersededParts(r, c);
    var u := Unsuperseded(r, c);
    var s := Surviving(r, c);
    assert BaseOf(s, c) == BaseOf(u, c);
    TrimmedIs(s, Standing(s, c), c);
    KeysInjective();
    CutIs(Filter(r.pendings, (p: Pending) => p.base == BaseOf(u, c)), PendingKey, 16, x);
    hide Unsuperseded, Surviving, Trimmed, Standing, SortUnique, Injective, Lesser, CurrentRecovery, BaseOf, BaseRoots,
         Ranking, KeptConsents;
  }

  lemma {:induction false} FirstKept(r: Roster, c: Crypto)
    ensures var u, m := Unsuperseded(r, c), Compacted(r, c);
            && m.recoveries == u.recoveries == Cap(SortUnique(Latest(r.recoveries), RecoveryKey), 4)
            && m.phraseAdmits == Cap(u.phraseAdmits, 64) && m.pendings == Cap(u.pendings, 16)
            && m.legacy == Cap(u.legacy, 64)
  {
    var s := Surviving(r, c);
    RankingKeeps(s, Standing(s, c));
    hide Ranking, Standing, KeptConsents, Mentioned, OneConsentEach, VouchesOf, PendingsOf, RemovalsOf, AdmitsPast,
         SortUnique, CurrentRecovery, Latest;
  }

  // Cutting recoveries of one moment changes neither whether there is one nor its moment.
  lemma {:induction false} SomeLeft(rs: seq<Recovery>)
    ensures var cut := Cap(SortUnique(Latest(rs), RecoveryKey), MAX_RECOVERY_TIES);
            && (cut == [] <==> rs == []) && forall x | x in cut :: x in rs && forall y | y in rs :: y.at <= x.at
  {
    var tip := Latest(rs);
    var sorted := SortUnique(tip, RecoveryKey);
    KeysInjective();
    SortUniqueFacts(tip, RecoveryKey);
    LatestElems(rs);
    if rs != [] { LatestExists(rs); }
    hide SortUnique, Injective, Latest;
    assert tip != [] ==> tip[0] in Elems(sorted);
    assert rs == [] ==> Elems(rs) == {};
    forall x | x in Cap(sorted, MAX_RECOVERY_TIES) ensures x in rs && forall y | y in rs :: y.at <= x.at {
      assert x in Elems(sorted);
      assert x in Tip(Elems(rs));
      assert forall y | y in rs :: y in Elems(rs);
    }
  }

  lemma {:induction false} SameRecoveries(r: Roster, c: Crypto)
    ensures var cur := CurrentRecovery(r.(recoveries := Unsuperseded(r, c).recoveries), c);
            && (cur.Some? <==> r.recoveries != [])
            && (cur.Some? ==> forall p | p in r.phraseAdmits ::
                  p.at > cur.value.at <==> forall y | y in r.recoveries :: y.at < p.at)
  {
    var cut := Unsuperseded(r, c).recoveries;
    assert cut == Cap(SortUnique(Latest(r.recoveries), RecoveryKey), MAX_RECOVERY_TIES);
    SomeLeft(r.recoveries);
    hide Unsuperseded, SortUnique, Latest;
    if cut != [] { LatestAtIs(cut); }
  }

  // Nothing compacted is past a ceiling, so whoever is shown it takes it.
  lemma {:induction false} CompactedWithin(r: Roster, c: Crypto)
    ensures WithinCaps(r) <==>
            && |r.recoveries| <= 4 && |r.phraseAdmits| <= 64 && |r.consents| <= 96 && |r.vouches| <= 128
            && |r.pendings| <= 16 && |r.legacy| <= 64 && |r.removals| <= 96
    ensures var m := Compacted(r, c);
            && |m.recoveries| <= 4 && |m.phraseAdmits| <= 64 && |m.consents| <= 96 && |m.vouches| <= 128
            && |m.pendings| <= 16 && |m.legacy| <= 64 && |m.removals| <= 96 && WithinCaps(m)
  {
    var s := Surviving(r, c);
    var stand := Standing(s, c);
    FirstKept(r, c);
    TrimmedIs(s, stand, c);
    hide Unsuperseded, Surviving, Standing, Trimmed, Mentioned, BaseOf, BaseRoots, RankedVouches, RankedRemovals,
         FewUnnamed, RankedConsents, SortUnique;
    KeysInjective();
    hide Injective;
    NoLonger(Cap(RankedVouches(s.vouches, stand), MAX_VOUCHES), VouchKey);
    NoLonger(Cap(RankedRemovals(s.removals, stand), MAX_REMOVALS), RemovalKey);
    var mentioned := Mentioned(Ranking(s, stand));
    var few := FewUnnamed(RankedConsents(s.consents, stand, mentioned), stand, mentioned, 0);
    NoLonger(Cap(few, MAX_CONSENTS), ConsentKey);
  }

  lemma {:induction false} NoLonger<T(!new)>(xs: seq<T>, key: T -> Key)
    requires Injective(key)
    ensures |SortUnique(xs, key)| <= |xs|
  {
    SortUniqueFacts(xs, key);
    hide SortUnique, Injective;
    SortedSize(SortUnique(xs, key), key);
    ElemsNoMore(xs);
  }

  lemma {:induction false} ElemsNoMore<T>(xs: seq<T>)
    ensures |Elems(xs)| <= |xs|
  {
    if xs != [] {
      ElemsNoMore(xs[1..]);
      assert Elems(xs) == {xs[0]} + Elems(xs[1..]) by { assert xs == [xs[0]] + xs[1..]; }
    }
  }
}
