// The loops of relay-uws/src/roster.h that read and compact a roster, each proved against
// the function that says what it computes (Roster.dfy).
module RosterLoops {
  import opened Base
  import opened Orders
  import opened Closures
  import opened Rosters
  import opened RosterFacts
  import opened RosterLists
  import opened RosterRanking

  // ---- The current recovery ----

  ghost predicate NotAfter(a: string, b: string) {
    a == b || StrLess(a, b)
  }

  // `read` is what the recoveries of moment `at` among `rs` say, once one is found.
  ghost predicate Reads(rs: seq<Recovery>, at: int, id: Namer, first: bool, read: Current) {
    && read.at == at
    && (first ==> forall x | x in rs :: x.at != at)
    && (!first ==> exists x | x in rs :: x.at == at && id(x) == read.base)
    && (!first ==> forall x | x in rs && x.at == at :: NotAfter(read.base, id(x)))
    && (forall k :: k in read.keep <==> exists x | x in rs :: x.at == at && k in x.keep)
    && (read.noWait <==> exists x | x in rs :: x.at == at && x.noWait)
  }

  lemma {:induction false} ReadsMore(rs: seq<Recovery>, x: Recovery, at: int, id: Namer, first: bool, read: Current)
    requires Reads(rs, at, id, first, read)
    ensures x.at != at ==> Reads(rs + [x], at, id, first, read)
    ensures x.at == at ==>
              Reads(rs + [x], at, id, false,
                    Current(if first || StrLess(id(x), read.base) then id(x) else read.base, at,
                            read.keep + (set k | k in x.keep), read.noWait || x.noWait))
  {
    StrTotal();
    hide StrLess;
    assert forall y :: y in rs + [x] <==> y in rs || y == x;
    assert x in rs + [x];
  }

  lemma {:induction false} ReadsAll(r: Roster, c: Crypto, first: bool, read: Current)
    requires r.recoveries != [] && Reads(r.recoveries, LatestAt(r.recoveries), NamerOf(r, c), first, read)
    ensures Some(read) == CurrentRecovery(r, c)
  {
    var rs, id, at := Elems(r.recoveries), NamerOf(r, c), LatestAt(r.recoveries);
    LatestAtIs(r.recoveries);
    LatestElems(r.recoveries);
    CurrentBase(r, c);
    hide StrLess, Latest;
    assert forall x | x in r.recoveries && x.at == at :: x in Tip(rs);
    assert IsBase(read.base, rs, id);
    BaseUnique(read.base, RosterFacts.Base(rs, id), rs, id);
    var cur := CurrentRecovery(r, c).value;
    assert read.keep == cur.keep;
    assert read.noWait == cur.noWait;
  }

  method LatestMoment(rs: seq<Recovery>) returns (at: int)
    requires rs != []
    ensures at == LatestAt(rs)
  {
    at := rs[0].at;
    for i := 0 to |rs|
      invariant exists x | x in rs :: x.at == at
      invariant forall j | 0 <= j < i :: rs[j].at <= at
    {
      if rs[i].at > at { at := rs[i].at; }
    }
    LatestAtIs(rs);
  }

  // Two passes: the latest moment, then what the recoveries of that moment say.
  method ReadCurrent(r: Roster, c: Crypto) returns (cur: Option<Current>)
    ensures cur == CurrentRecovery(r, c)
  {
    var rs := r.recoveries;
    if rs == [] { return None; }
    var at := LatestMoment(rs);
    var first, read := true, Current("", at, {}, false);
    assert Reads(rs[..0], at, NamerOf(r, c), first, read);
    hide Reads, StrLess, LatestAt, CurrentRecovery, Latest;
    for i := 0 to |rs|
      invariant Reads(rs[..i], at, NamerOf(r, c), first, read)
    {
      var x := rs[i];
      assert rs[..i + 1] == rs[..i] + [x];
      ReadsMore(rs[..i], x, at, NamerOf(r, c), first, read);
      if x.at == at {
        var id := BaseId(r.master, r.rPub, x, c);
        if first || StrLess(id, read.base) { read := read.(base := id); }
        first := false;
        read := read.(keep := read.keep + (set k | k in x.keep), noWait := read.noWait || x.noWait);
      }
    }
    assert rs[..|rs|] == rs;
    ReadsAll(r, c, first, read);
    cur := Some(read);
  }

  // ---- Standing ----

  // Breadth first from the roots, then from the asks the roots do not reach.
  method ReadStanding(r: Roster, c: Crypto) returns (rank: Places)
    ensures rank == Standing(r, c)
  {
    var cons := Consented(r);
    var edges := VouchEdges(r.vouches, cons);
    var seeds := [BaseRoots(r, c) * cons, (set p | p in r.pendings :: p.device) * cons];
    hide Ranked;
    rank := Tier(map[], seeds[0], edges, 0);
    rank := Tier(rank, seeds[1] - rank.Keys, edges, 1);
  }

  method Tier(start: Places, seed: set<string>, edges: set<Edge>, tier: nat) returns (rank: Places)
    requires seed !! start.Keys
    ensures rank == Ranked(start, seed, edges, tier, 0)
  {
    rank := start;
    var frontier, depth := seed, 0;
    while frontier != {}
      invariant frontier !! rank.Keys
      invariant Ranked(rank, frontier, edges, tier, depth) == Ranked(start, seed, edges, tier, 0)
      decreases |Targets(edges) + frontier - rank.Keys|
    {
      RankedUnfold(rank, frontier, edges, tier, depth);
      hide Ranked;
      var now := Placed(rank, frontier, tier, depth);
      RankedProgress(rank, frontier, edges, now);
      rank, frontier, depth := now, Frontier(now, frontier, edges), depth + 1;
    }
  }

  // ---- Compaction ----

  lemma {:induction false} TreeStep(vs: seq<Vouch>, i: nat, stand: Places, best: set<string>)
    requires i < |vs|
    ensures var v := vs[i];
            var takes := v.device in stand && v.device !in best;
            var next := TreeFirst(vs[i + 1..], stand, if takes then best + {v.device} else best);
            TreeFirst(vs[i..], stand, best) == if takes then ([v] + next.0, next.1) else (next.0, [v] + next.1)
  {
    assert vs[i..][0] == vs[i] && vs[i..][1..] == vs[i + 1..];
  }

  lemma {:induction false} TreeEnd(vs: seq<Vouch>, stand: Places, best: set<string>)
    ensures TreeFirst(vs[|vs|..], stand, best) == ([], []) && vs[0..] == vs
  {}

  // The first vouch of the list for each standing device, and the others. Of a ranked list
  // the first is the best-ranked.
  method SplitVouches(vs: seq<Vouch>, stand: Places) returns (tree: seq<Vouch>, rest: seq<Vouch>)
    ensures tree == TreeFirst(vs, stand, {}).0 && rest == TreeFirst(vs, stand, {}).1
    ensures Elems(tree) + Elems(rest) == Elems(vs) && |tree| + |rest| == |vs|
    ensures forall v :: v in tree <==> Leads(vs, v, stand)
    ensures forall v, w | v in tree && w in tree && v.device == w.device :: v == w
  {
    hide TreeFirst, Leads, Elems;
    tree, rest := [], [];
    var best := {};
    TreeEnd(vs, stand, {});
    for i := 0 to |vs|
      invariant TreeFirst(vs, stand, {}).0 == tree + TreeFirst(vs[i..], stand, best).0
      invariant TreeFirst(vs, stand, {}).1 == rest + TreeFirst(vs[i..], stand, best).1
    {
      var v := vs[i];
      TreeStep(vs, i, stand, best);
      if v.device in stand && v.device !in best {
        best := best + {v.device};
        tree := tree + [v];
      } else {
        rest := rest + [v];
      }
    }
    TreeEnd(vs, stand, best);
    TreeFirstElems(vs, stand, {});
    TreeLeads(vs, stand, {});
  }

  lemma {:induction false} FewStep(cs: seq<Consent>, i: nat, stand: Places, mentioned: set<string>, taken: nat)
    requires i < |cs|
    ensures var unnamed := ConsentClass(cs[i], stand, mentioned) == 2;
            FewUnnamed(cs[i..], stand, mentioned, taken) ==
            (if unnamed && taken >= MAX_UNNAMED_CONSENTS then [] else [cs[i]]) +
            FewUnnamed(cs[i + 1..], stand, mentioned, if unnamed then taken + 1 else taken)
  {
    assert cs[i..][0] == cs[i] && cs[i..][1..] == cs[i + 1..];
  }

  lemma {:induction false} FewEnd(cs: seq<Consent>, stand: Places, mentioned: set<string>, taken: nat)
    ensures FewUnnamed(cs[|cs|..], stand, mentioned, taken) == [] && cs[0..] == cs
  {}

  // All but the unnamed consents past the ceiling of those.
  method CutUnnamed(cs: seq<Consent>, stand: Places, mentioned: set<string>) returns (kept: seq<Consent>)
    ensures kept == FewUnnamed(cs, stand, mentioned, 0)
    ensures UnnamedOf(kept, stand, mentioned) == Cap(UnnamedOf(cs, stand, mentioned), MAX_UNNAMED_CONSENTS)
    ensures forall k | k in cs && ConsentClass(k, stand, mentioned) != 2 :: k in kept
  {
    hide FewUnnamed, UnnamedOf, ConsentClass;
    kept := [];
    var unnamed := 0;
    FewEnd(cs, stand, mentioned, 0);
    for i := 0 to |cs|
      invariant kept + FewUnnamed(cs[i..], stand, mentioned, unnamed) == FewUnnamed(cs, stand, mentioned, 0)
    {
      var k := cs[i];
      FewStep(cs, i, stand, mentioned, unnamed);
      if ConsentClass(k, stand, mentioned) == 2 {
        unnamed := unnamed + 1;
        if unnamed > MAX_UNNAMED_CONSENTS { continue; }
      }
      kept := kept + [k];
    }
    FewEnd(cs, stand, mentioned, unnamed);
    FewUnnamedFirst(cs, stand, mentioned, 0);
    OthersStay(cs, stand, mentioned, 0);
  }

  lemma {:induction false} OthersStay(cs: seq<Consent>, stand: Places, mentioned: set<string>, taken: nat)
    ensures forall k | k in cs && ConsentClass(k, stand, mentioned) != 2 :: k in FewUnnamed(cs, stand, mentioned, taken)
  {
    if cs != [] {
      hide ConsentClass;
      var next := if ConsentClass(cs[0], stand, mentioned) == 2 then taken + 1 else taken;
      OthersStay(cs[1..], stand, mentioned, next);
      assert cs == [cs[0]] + cs[1..];
    }
  }

  // The whole compaction: what the current base supersedes goes, then the ceilings cut.
  method Compact(r: Roster, c: Crypto) returns (out: Roster)
    ensures out == Compacted(r, c)
  {
    var recoveries := r.recoveries;
    if recoveries != [] {
      var at := LatestMoment(recoveries);
      recoveries := Filter(recoveries, (x: Recovery) => x.at == at);
    }
    assert recoveries == Latest(r.recoveries);
    recoveries := Cap(SortUnique(recoveries, RecoveryKey), MAX_RECOVERY_TIES);
    var cur := ReadCurrent(r.(recoveries := recoveries), c);
    hide CurrentRecovery, Latest, SortUnique, Standing;
    var base := if cur.Some? then cur.value.base else LEGACY_BASE;
    var s := Roster(
      r.master, r.rPub, recoveries,
      Cap(AdmitsPast(r.phraseAdmits, cur), MAX_PHRASE_ADMITS),
      OneConsentEach(r.consents),
      VouchesOf(r.vouches, base),
      Cap(PendingsOf(r.pendings, base), MAX_PENDING),
      Cap(SortUnique(if cur.Some? then [] else r.legacy, LegacyKey), MAX_LEGACY),
      RemovalsOf(r.removals, base));
    assert s == Surviving(r, c);
    hide Surviving, Unsuperseded;
    out := Trim(s, c);
  }

  method Trim(s: Roster, c: Crypto) returns (out: Roster)
    ensures out == Trimmed(s, Standing(s, c))
  {
    var stand := ReadStanding(s, c);
    var ranked := SortUnique(Filter(s.vouches, (v: Vouch) => v.signer in stand),
                             (v: Vouch) => RankKey(stand, v.signer) + VouchKey(v));
    hide SortUnique, Filter, Standing;
    var tree, rest := SplitVouches(ranked, stand);
    assert tree + rest == RankedVouches(s.vouches, stand);
    var named := s.(
      vouches := SortUnique(Cap(tree + rest, MAX_VOUCHES), VouchKey),
      removals := SortUnique(Cap(RankedRemovals(s.removals, stand), MAX_REMOVALS), RemovalKey));
    assert named == Ranking(s, stand);
    var mentioned := Mentioned(named);
    var kept := CutUnnamed(RankedConsents(s.consents, stand, mentioned), stand, mentioned);
    out := named.(consents := SortUnique(Cap(kept, MAX_CONSENTS), ConsentKey));
  }
}
