// Which statements a compaction keeps when a ceiling cuts (relay-uws/src/roster.h,
// compacted): the rank puts the roots' tier before the asks', so what founded devices say
// is cut only by what ranks with them.
module RosterRanking {
  import opened Base
  import opened Orders
  import opened Closures
  import opened Rosters
  import opened RosterFacts
  import opened RosterLists
  import opened RosterFold

  // The standing devices that rank before `d`.
  ghost function Ahead(stand: Places, d: string): set<string> {
    set e | e in stand && KeyLess(RankKey(stand, e), RankKey(stand, d))
  }

  predicate PlaceLess(a: Place, b: Place) {
    a.tier < b.tier || (a.tier == b.tier && a.depth < b.depth)
  }

  lemma {:induction false} NumsLess(a: Key, b: Key)
    requires |a| >= 2 && |b| >= 2 && a[0].Num? && a[1].Num? && b[0].Num? && b[1].Num?
    requires a[0].n < b[0].n || (a[0].n == b[0].n && a[1].n < b[1].n)
    ensures KeyLess(a, b)
  {
    assert a[1..][0] == a[1] && b[1..][0] == b[1];
  }

  // Whoever is placed before ranks before, whatever the statements are.
  lemma {:induction false} RankLess(stand: Places, p: string, q: string, a: Key, b: Key)
    requires p in stand && q in stand && PlaceLess(stand[p], stand[q])
    ensures KeyLess(RankKey(stand, p) + a, RankKey(stand, q) + b)
  {
    var x, y := RankKey(stand, p) + a, RankKey(stand, q) + b;
    assert x[0] == Num(stand[p].tier) && x[1] == Num(stand[p].depth);
    assert y[0] == Num(stand[q].tier) && y[1] == Num(stand[q].depth);
    NumsLess(x, y);
  }

  lemma {:induction false} NotAfter(stand: Places, p: string, q: string, a: Key, b: Key)
    requires p in stand && q in stand && KeyLess(RankKey(stand, p) + a, RankKey(stand, q) + b)
    ensures !PlaceLess(stand[q], stand[p])
  {
    KeyTotal();
    hide KeyLess;
    if PlaceLess(stand[q], stand[p]) { RankLess(stand, q, p, b, a); }
  }

  // Two standing devices rank alike whatever they state.
  lemma {:induction false} RankBefore(stand: Places, p: string, q: string, a: Key, b: Key)
    requires p in stand && q in stand && p != q
    ensures KeyLess(RankKey(stand, p) + a, RankKey(stand, q) + b) <==> KeyLess(RankKey(stand, p), RankKey(stand, q))
  {
    hide KeyLess;
    assert RankKey(stand, p)[2] != RankKey(stand, q)[2];
    PrefixLess(RankKey(stand, p), RankKey(stand, q), a, b);
  }

  // Whoever is placed before has fewer before it.
  lemma {:induction false} AheadGrows(stand: Places, p: string, d: string)
    requires p in stand && d in stand && PlaceLess(stand[p], stand[d])
    ensures |Ahead(stand, p)| <= |Ahead(stand, d)|
  {
    RankLess(stand, p, d, [], []);
    assert RankKey(stand, p) + [] == RankKey(stand, p) && RankKey(stand, d) + [] == RankKey(stand, d);
    KeyTotal();
    hide KeyLess, RankKey;
    SubsetSize(Ahead(stand, p), Ahead(stand, d));
  }

  // No more statements than devices, if no device has two.
  lemma {:induction false} NoMoreThan<T>(xs: set<T>, of: T -> string, ds: set<string>)
    requires forall x | x in xs :: of(x) in ds
    requires forall x, y | x in xs && y in xs && of(x) == of(y) :: x == y
    ensures |xs| <= |ds|
  {
    if xs != {} {
      var x :| x in xs;
      NoMoreThan(xs - {x}, of, ds - {of(x)});
    }
  }

  // No fewer, if every device has one.
  lemma {:induction false} NoFewerThan<T>(xs: set<T>, of: T -> string, ds: set<string>)
    requires forall d | d in ds :: exists x | x in xs :: of(x) == d
    ensures |ds| <= |xs|
  {
    if ds != {} {
      var d :| d in ds;
      var x :| x in xs && of(x) == d;
      forall e | e in ds - {d} ensures exists y | y in xs - {x} :: of(y) == e {
        var y :| y in xs && of(y) == e;
        assert y in xs - {x};
      }
      NoFewerThan(xs - {x}, of, ds - {d});
    }
  }

  // ---- Vouches ----

  function VouchRank(stand: Places): Vouch -> Key {
    (v: Vouch) => RankKey(stand, v.signer) + VouchKey(v)
  }

  ghost predicate InTree(tree: seq<Vouch>, v: Vouch, key: Vouch -> Key) {
    exists w | w in tree :: w.device == v.device && (w == v || KeyLess(key(w), key(v)))
  }

  ghost predicate Inside(tree: seq<Vouch>, vs: seq<Vouch>, stand: Places, best: set<string>) {
    && (forall v | v in tree :: v in vs && v.device in stand && v.device !in best)
    && (forall v, w | v in tree && w in tree && v.device == w.device :: v == w)
  }

  ghost predicate Covering(tree: seq<Vouch>, vs: seq<Vouch>, stand: Places, best: set<string>, key: Vouch -> Key) {
    forall v | v in vs && v.device in stand && v.device !in best :: InTree(tree, v, key)
  }

  // The tree holds the first vouch for each device there is one for, and no other.
  ghost predicate IsTree(tree: seq<Vouch>, vs: seq<Vouch>, stand: Places, best: set<string>, key: Vouch -> Key) {
    Sorted(tree, key) && Inside(tree, vs, stand, best) && Covering(tree, vs, stand, best, key)
  }

  lemma {:induction false} TreeFirstIs(vs: seq<Vouch>, stand: Places, best: set<string>, key: Vouch -> Key)
    requires Sorted(vs, key)
    ensures IsTree(TreeFirst(vs, stand, best).0, vs, stand, best, key)
  {
    if vs != [] {
      var v := vs[0];
      if v.device in stand && v.device !in best {
        TreeFirstIs(vs[1..], stand, best + {v.device}, key);
        TreeTakes(vs, stand, best, key, TreeFirst(vs[1..], stand, best + {v.device}).0);
      } else {
        TreeFirstIs(vs[1..], stand, best, key);
        hide InTree, KeyLess;
        assert vs == [v] + vs[1..];
      }
    }
  }

  // `v` is the first vouch of the list for its device, which stands.
  ghost predicate Leads(vs: seq<Vouch>, v: Vouch, stand: Places) {
    v.device in stand && exists k | 0 <= k < |vs| :: vs[k] == v && forall j | 0 <= j < k :: vs[j].device != v.device
  }

  lemma {:induction false} LeadsOn(vs: seq<Vouch>, v: Vouch, stand: Places)
    requires vs != []
    ensures Leads(vs, v, stand) <==>
            v.device in stand && (v == vs[0] || (v.device != vs[0].device && Leads(vs[1..], v, stand)))
  {
    var rest := vs[1..];
    if v.device != vs[0].device && Leads(rest, v, stand) {
      var k :| 0 <= k < |rest| && rest[k] == v && forall j | 0 <= j < k :: rest[j].device != v.device;
      assert vs[k + 1] == v && forall j | 0 <= j < k + 1 :: j == 0 || vs[j] == rest[j - 1];
    }
    if Leads(vs, v, stand) && v != vs[0] {
      var k :| 0 <= k < |vs| && vs[k] == v && forall j | 0 <= j < k :: vs[j].device != v.device;
      assert k > 0 && rest[k - 1] == v && forall j | 0 <= j < k - 1 :: rest[j] == vs[j + 1];
    }
  }

  lemma {:induction false} TreeLeads(vs: seq<Vouch>, stand: Places, best: set<string>)
    ensures var tree := TreeFirst(vs, stand, best).0;
            && (forall v :: v in tree <==> Leads(vs, v, stand) && v.device !in best)
            && (forall v, w | v in tree && w in tree && v.device == w.device :: v == w)
  {
    if vs != [] {
      var u := vs[0];
      var after := if u.device in stand && u.device !in best then best + {u.device} else best;
      TreeLeads(vs[1..], stand, after);
      var less := TreeFirst(vs[1..], stand, after).0;
      assert TreeFirst(vs, stand, best).0 == if u.device in stand && u.device !in best then [u] + less else less;
      hide TreeFirst, Leads;
      forall v ensures v in TreeFirst(vs, stand, best).0 <==> Leads(vs, v, stand) && v.device !in best {
        LeadsOn(vs, v, stand);
        LeadsStands(vs[1..], v, stand);
      }
    }
  }

  lemma {:induction false} LeadsStands(vs: seq<Vouch>, v: Vouch, stand: Places)
    ensures Leads(vs, v, stand) ==> v.device in stand
  {}

  lemma {:induction false} TreeTakes(vs: seq<Vouch>, stand: Places, best: set<string>, key: Vouch -> Key,
                                     tree: seq<Vouch>)
    requires vs != [] && Sorted(vs, key) && vs[0].device in stand && vs[0].device !in best
    requires IsTree(tree, vs[1..], stand, best + {vs[0].device}, key)
    ensures IsTree([vs[0]] + tree, vs, stand, best, key)
  {
    hide KeyLess;
    var v, rest := vs[0], vs[1..];
    assert vs == [v] + rest;
    assert Inside([v] + tree, vs, stand, best) by { hide Covering, Sorted; }
    TakesSorted(vs, key, tree, stand, best);
    hide Inside;
    forall u | u in vs && u.device in stand && u.device !in best ensures InTree([v] + tree, u, key) {
      TakesCovers(vs, stand, best, key, tree, u);
    }
  }

  lemma {:induction false} TakesSorted(vs: seq<Vouch>, key: Vouch -> Key, tree: seq<Vouch>, stand: Places,
                                       best: set<string>)
    requires vs != [] && Sorted(vs, key) && Sorted(tree, key) && Inside(tree, vs[1..], stand, best + {vs[0].device})
    ensures Sorted([vs[0]] + tree, key)
  {
    hide KeyLess;
    forall j | 0 <= j < |tree| ensures KeyLess(key(vs[0]), key(tree[j])) {
      assert tree[j] in vs[1..];
      var i :| 0 <= i < |vs[1..]| && vs[1..][i] == tree[j];
      assert vs[i + 1] == tree[j];
    }
  }

  lemma {:induction false} TakesCovers(vs: seq<Vouch>, stand: Places, best: set<string>, key: Vouch -> Key,
                                       tree: seq<Vouch>, u: Vouch)
    requires vs != [] && Sorted(vs, key) && Covering(tree, vs[1..], stand, best + {vs[0].device}, key)
    requires u in vs && u.device in stand && u.device !in best
    ensures InTree([vs[0]] + tree, u, key)
  {
    hide KeyLess;
    var v, grown := vs[0], [vs[0]] + tree;
    if u.device == v.device {
      assert grown[0] == v;
      var i :| 0 <= i < |vs| && vs[i] == u;
      assert i > 0 ==> KeyLess(key(vs[0]), key(vs[i]));
    } else {
      assert vs == [v] + vs[1..];
      assert InTree(tree, u, key);
      var w :| w in tree && w.device == u.device && (w == u || KeyLess(key(w), key(u)));
      assert w in grown;
    }
  }

  ghost function TreeOf(s: Roster, stand: Places): seq<Vouch> {
    TreeFirst(SortUnique(Filter(s.vouches, (v: Vouch) => v.signer in stand), VouchRank(stand)), stand, {}).0
  }

  // The vouches kept start with the tree, which holds a best-ranked vouch for every
  // standing device that has one by a standing device.
  lemma {:induction false} TreeIs(s: Roster, stand: Places)
    ensures var tree, key := TreeOf(s, stand), VouchRank(stand);
            && tree <= RankedVouches(s.vouches, stand) && Sorted(tree, key)
            && (forall v | v in tree :: v in s.vouches && v.signer in stand && v.device in stand)
            && (forall v, w | v in tree && w in tree && v.device == w.device :: v == w)
            && (forall v | v in s.vouches && v.signer in stand && v.device in stand :: InTree(tree, v, key))
  {
    RankInjective(stand);
    var vs, key := Filter(s.vouches, (v: Vouch) => v.signer in stand), VouchRank(stand);
    FilterIs(s.vouches, (v: Vouch) => v.signer in stand);
    SortUniqueFacts(vs, key);
    var ranked := SortUnique(vs, key);
    TreeFirstIs(ranked, stand, {}, key);
    hide TreeFirst, SortUnique, Filter, Sorted, Injective, InTree, KeyLess;
    forall v ensures v in ranked <==> v in s.vouches && v.signer in stand {
      assert v in ranked <==> v in Elems(ranked);
      assert v in vs <==> v in Elems(vs);
    }
  }

  // A founded device that is no root has in the tree a vouch by one nearer to a root.
  lemma {:induction false} TreeParent(s: Roster, stand: Places, roots: set<string>, d: string) returns (v: Vouch)
    requires Grounded(stand, roots, VouchEdges(s.vouches, Consented(s)))
    requires d in stand && stand[d].tier == 0 && stand[d].depth > 0
    ensures v in TreeOf(s, stand) && v.device == d && v.signer in stand
    ensures stand[v.signer].tier == 0 && stand[v.signer].depth < stand[d].depth
  {
    hide *;
    var u := ParentVouch(s, stand, roots, d);
    v := BestVouch(s, stand, u);
    RankedFirst(stand, v, u);
    NotBehind(stand[v.signer], stand[u.signer]);
  }

  lemma {:induction false} NotBehind(a: Place, b: Place)
    requires !PlaceLess(b, a) && b.tier == 0
    ensures a.tier == 0 && a.depth <= b.depth
  {}

  lemma {:induction false} BestVouch(s: Roster, stand: Places, u: Vouch) returns (v: Vouch)
    requires u in s.vouches && u.signer in stand && u.device in stand
    ensures v in TreeOf(s, stand) && v.device == u.device && v.signer in stand
    ensures v == u || KeyLess(VouchRank(stand)(v), VouchRank(stand)(u))
  {
    TreeIs(s, stand);
    hide TreeOf, VouchRank, KeyLess, RankedVouches, Sorted;
    var tree, key := TreeOf(s, stand), VouchRank(stand);
    assert InTree(tree, u, key);
    v :| v in tree && v.device == u.device && (v == u || KeyLess(key(v), key(u)));
  }

  lemma {:induction false} ParentVouch(s: Roster, stand: Places, roots: set<string>, d: string) returns (u: Vouch)
    requires Grounded(stand, roots, VouchEdges(s.vouches, Consented(s)))
    requires d in stand && stand[d].tier == 0 && stand[d].depth > 0
    ensures u in s.vouches && u.device == d && u.signer in stand
    ensures stand[u.signer].tier == 0 && stand[u.signer].depth < stand[d].depth
  {
    var edges := VouchEdges(s.vouches, Consented(s));
    var p :| Parent(stand, edges, p, d);
    u :| u in s.vouches && u.signer == p && u.device == d;
  }

  lemma {:induction false} RankedFirst(stand: Places, v: Vouch, u: Vouch)
    requires v.signer in stand && u.signer in stand
    requires v == u || KeyLess(VouchRank(stand)(v), VouchRank(stand)(u))
    ensures !PlaceLess(stand[u.signer], stand[v.signer])
  {
    if v != u { NotAfter(stand, v.signer, u.signer, VouchKey(v), VouchKey(u)); }
  }

  // Of a list that starts with a sorted one: what is left of the start, and that nothing
  // else is left once the start is cut.
  lemma {:induction false} StartExact(tree: seq<Vouch>, all: seq<Vouch>, key: Vouch -> Key, v: Vouch, cap: nat)
    requires tree <= all && Sorted(tree, key) && v in tree
    ensures v in Cap(all, cap) <==> |Lesser(tree, key, v)| < cap
    ensures |Lesser(tree, key, v)| >= cap ==> forall u | u in Cap(all, cap) :: u in tree
  {
    CapExact(tree, key, v, cap);
    hide Lesser, Sorted;
    if |tree| >= cap {
      assert Cap(all, cap) == Cap(tree, cap);
    } else {
      var i :| 0 <= i < |tree| && tree[i] == v;
      assert Cap(all, cap)[i] == v;
    }
  }

  // A tree vouch is kept exactly when fewer than the ceiling of them rank before it, and once
  // one is cut only tree vouches are kept.
  lemma {:induction false} TreeVouchKept(s: Roster, stand: Places, v: Vouch)
    requires v in TreeOf(s, stand)
    ensures var before := Lesser(TreeOf(s, stand), VouchRank(stand), v);
            && (v in Ranking(s, stand).vouches <==> |before| < 128)
            && (|before| >= 128 ==> forall u | u in Ranking(s, stand).vouches :: u in TreeOf(s, stand))
  {
    TreeIs(s, stand);
    KeysInjective();
    var tree, all := TreeOf(s, stand), RankedVouches(s.vouches, stand);
    hide TreeOf, RankedVouches, VouchRank, InTree, KeyLess, Lesser, Injective, SortUnique, Sorted;
    var cut := Cap(all, MAX_VOUCHES);
    StartExact(tree, all, VouchRank(stand), v, MAX_VOUCHES);
    SortUniqueFacts(cut, VouchKey);
    var left := Ranking(s, stand).vouches;
    assert forall u :: (u in cut <==> u in Elems(cut)) && (u in left <==> u in Elems(left));
  }

  // ---- Consents ----

  function ConsentRank(stand: Places, mentioned: set<string>): Consent -> Key {
    (k: Consent) => [Num(ConsentClass(k, stand, mentioned))] + RankKey(stand, k.device) + ConsentKey(k)
  }

  // Dropping unnamed consents drops no other and keeps the order.
  lemma {:induction false} FewUnnamedIs(cs: seq<Consent>, stand: Places, mentioned: set<string>, taken: nat,
                                        key: Consent -> Key)
    requires Sorted(cs, key)
    ensures var few := FewUnnamed(cs, stand, mentioned, taken);
            && Sorted(few, key) && (forall k | k in few :: k in cs)
            && (forall k | k in cs && ConsentClass(k, stand, mentioned) != 2 :: k in few)
  {
    if cs != [] {
      hide KeyLess, ConsentClass;
      var k, rest := cs[0], cs[1..];
      assert cs == [k] + rest;
      var next := if ConsentClass(k, stand, mentioned) == 2 then taken + 1 else taken;
      FewUnnamedIs(rest, stand, mentioned, next, key);
      HeadFirst(cs, FewUnnamed(rest, stand, mentioned, next), key);
    }
  }

  lemma {:induction false} HeadFirst(cs: seq<Consent>, less: seq<Consent>, key: Consent -> Key)
    requires cs != [] && Sorted(cs, key) && Sorted(less, key) && forall k | k in less :: k in cs[1..]
    ensures Sorted([cs[0]] + less, key)
  {
    hide KeyLess;
    forall j | 0 <= j < |less| ensures KeyLess(key(cs[0]), key(less[j])) {
      assert less[j] in cs[1..];
      var i :| 0 <= i < |cs[1..]| && cs[1..][i] == less[j];
      assert cs[i + 1] == less[j];
    }
  }

  // Of the unnamed ones no more than their ceiling are left, and they are the first.
  ghost function UnnamedOf(cs: seq<Consent>, stand: Places, mentioned: set<string>): seq<Consent> {
    Filter(cs, (k: Consent) => ConsentClass(k, stand, mentioned) == 2)
  }

  lemma {:induction false} FewUnnamedFirst(cs: seq<Consent>, stand: Places, mentioned: set<string>, taken: nat)
    ensures var room := if taken < 8 then 8 - taken else 0;
            UnnamedOf(FewUnnamed(cs, stand, mentioned, taken), stand, mentioned) ==
            Cap(UnnamedOf(cs, stand, mentioned), room)
  {
    if cs != [] {
      hide ConsentClass;
      var k, rest := cs[0], cs[1..];
      var unnamed := ConsentClass(k, stand, mentioned) == 2;
      var next := if unnamed then taken + 1 else taken;
      FewUnnamedFirst(rest, stand, mentioned, next);
      var less := FewUnnamed(rest, stand, mentioned, next);
      assert FewUnnamed(cs, stand, mentioned, taken) ==
             if unnamed && taken >= MAX_UNNAMED_CONSENTS then less else [k] + less;
      UnnamedCons(k, less, stand, mentioned);
      UnnamedCons(k, rest, stand, mentioned);
      assert [k] + rest == cs;
      hide FewUnnamed, UnnamedOf;
    }
  }

  lemma {:induction false} UnnamedCons(k: Consent, cs: seq<Consent>, stand: Places, mentioned: set<string>)
    ensures UnnamedOf([k] + cs, stand, mentioned) ==
            (if ConsentClass(k, stand, mentioned) == 2 then [k] else []) + UnnamedOf(cs, stand, mentioned)
  {
    hide ConsentClass;
    assert ([k] + cs)[1..] == cs;
  }

  lemma {:induction false} ConsentBefore(stand: Places, mentioned: set<string>, y: Consent, k: Consent)
    requires k.device in stand && y.device != k.device
    ensures KeyLess(ConsentRank(stand, mentioned)(y), ConsentRank(stand, mentioned)(k)) <==>
            y.device in Ahead(stand, k.device)
  {
    var a, b := ConsentRank(stand, mentioned)(y), ConsentRank(stand, mentioned)(k);
    assert a[0] == Num(ConsentClass(y, stand, mentioned)) && b[0] == Num(0);
    if y.device in stand {
      RankBefore(stand, y.device, k.device, ConsentKey(y), ConsentKey(k));
      assert a[1..] == RankKey(stand, y.device) + ConsentKey(y);
      assert b[1..] == RankKey(stand, k.device) + ConsentKey(k);
    }
  }

  // The consents before a standing device's are as many as the devices before it.
  lemma {:induction false} ConsentsBefore(few: seq<Consent>, stand: Places, mentioned: set<string>, k: Consent)
    requires k in few && k.device in stand
    requires forall x, y | x in few && y in few && x.device == y.device :: x == y
    requires forall d | d in stand :: exists x | x in few :: x.device == d
    ensures |Lesser(few, ConsentRank(stand, mentioned), k)| == |Ahead(stand, k.device)|
  {
    var key := ConsentRank(stand, mentioned);
    KeyTotal();
    hide KeyLess, ConsentRank, RankKey;
    var before, ahead := Lesser(few, key, k), Ahead(stand, k.device);
    forall x | x in few ensures x in before <==> x.device in ahead {
      if x != k { ConsentBefore(stand, mentioned, x, k); }
    }
    assert forall d | d in ahead :: exists x | x in before :: x.device == d;
    hide Lesser, Ahead;
    NoMoreThan(before, (x: Consent) => x.device, ahead);
    NoFewerThan(before, (x: Consent) => x.device, ahead);
  }

  // A standing device's consent is kept exactly when fewer than the ceiling of standing
  // devices rank before it.
  lemma {:induction false} ConsentKept(cs: seq<Consent>, stand: Places, mentioned: set<string>, k: Consent)
    requires k in cs && k.device in stand
    requires forall x, y | x in cs && y in cs && x.device == y.device :: x == y
    requires forall d | d in stand :: exists x | x in cs :: x.device == d
    ensures k in KeptConsents(cs, stand, mentioned) <==> |Ahead(stand, k.device)| < 96
  {
    KeysInjective();
    ClassInjective(stand, mentioned);
    hide Injective, KeyLess, Ahead;
    var key, ranked := ConsentRank(stand, mentioned), RankedConsents(cs, stand, mentioned);
    SortUniqueFacts(cs, key);
    hide SortUnique;
    assert forall x :: (x in ranked <==> x in Elems(ranked)) && (x in cs <==> x in Elems(cs));
    FewUnnamedIs(ranked, stand, mentioned, 0, key);
    var few := FewUnnamed(ranked, stand, mentioned, 0);
    hide FewUnnamed, RankedConsents, Filter, ConsentRank, Lesser, Sorted;
    forall d | d in stand ensures exists x | x in few :: x.device == d {
      var x :| x in cs && x.device == d;
      assert x in few;
    }
    ConsentsBefore(few, stand, mentioned, k);
    CapExact(few, key, k, MAX_CONSENTS);
    var cut, kept := Cap(few, MAX_CONSENTS), KeptConsents(cs, stand, mentioned);
    SortUniqueFacts(cut, ConsentKey);
    assert (k in cut <==> k in Elems(cut)) && (k in kept <==> k in Elems(kept));
  }

  // ---- Founded devices ----

  lemma {:induction false} LinksAre(r: Roster, c: Crypto)
    ensures Links(r, c) ==
              set v | v in r.vouches && v.base == BaseOf(r, c) && v.device in Consented(r) :: (v.signer, v.device)
  {
    var base, cons := BaseOf(r, c), Consented(r);
    hide BaseOf, Consented;
    FilterIs(r.vouches, (v: Vouch) => v.base == base && v.device in cons);
    var vs := CurrentVouches(r, c);
    assert forall v :: v in vs <==> v in Elems(vs);
  }

  // Statements of one base, one consent for each device: what compaction ranks.
  ghost predicate Own(s: Roster, c: Crypto) {
    && (forall v | v in s.vouches :: v.base == BaseOf(s, c))
    && (forall x | x in s.removals :: x.base == BaseOf(s, c))
    && (forall x, y | x in s.consents && y in s.consents && x.device == y.device :: x == y)
  }

  lemma {:induction false} OneEach(cs: seq<Consent>)
    ensures var once := OneConsentEach(cs);
            forall x, y | x in once && y in once && x.device == y.device :: x == y
  {
    ConsentsLeft(cs);
    StrTotal();
    hide StrLess, OneConsentEach, Sorted;
    var once := OneConsentEach(cs);
    forall x, y | x in once && y in once && x.device == y.device ensures x == y {
      assert x in Elems(once) && y in Elems(once);
    }
  }

  lemma {:induction false} SurvivingOwn(r: Roster, c: Crypto)
    ensures Own(Surviving(r, c), c)
  {
    UnsupersededParts(r, c);
    hide Unsuperseded, OneConsentEach, VouchesOf, PendingsOf, RemovalsOf, AdmitsPast, SortUnique;
    var u, s := Unsuperseded(r, c), Surviving(r, c);
    OneEach(r.consents);
    assert BaseOf(s, c) == BaseOf(u, c);
    hide BaseOf, CurrentRecovery;
    OfBase(r, BaseOf(u, c));
    forall v | v in s.vouches ensures v.base == BaseOf(s, c) { assert v in Elems(u.vouches); }
    forall x | x in s.removals ensures x.base == BaseOf(s, c) { assert x in Elems(u.removals); }
  }

  // The first tier is the founded devices, and only consenting devices stand.
  lemma {:induction false} StandingShape(s: Roster, c: Crypto)
    ensures var stand, cons := Standing(s, c), Consented(s);
            && Grounded(stand, BaseRoots(s, c) * cons, VouchEdges(s.vouches, cons))
            && Stepwise(stand, VouchEdges(s.vouches, cons)) && stand.Keys <= cons
            && (forall d | d in BaseRoots(s, c) * cons :: d in stand && stand[d] == Place(0, 0))
            && (set d | d in stand && stand[d].tier == 0) ==
               Closure(BaseRoots(s, c) * cons, VouchEdges(s.vouches, cons))
  {
    var cons := Consented(s);
    var roots, edges := BaseRoots(s, c) * cons, VouchEdges(s.vouches, cons);
    var asks := (set p | p in s.pendings :: p.device) * cons;
    StandingTiers(roots, asks, edges);
    StandingKeys(roots, asks, edges);
    RootsPlaced(roots, asks, edges);
    ClosureIs(roots + asks, edges);
    hide Standings, Grounded, Stepwise, Closure;
    assert Closed(cons, edges);
  }

  lemma {:induction false} TrimmedIs(s: Roster, stand: Places, c: Crypto)
    ensures var m := Trimmed(s, stand);
            && m.vouches == Ranking(s, stand).vouches && m.removals == Ranking(s, stand).removals
            && m.consents == KeptConsents(s.consents, stand, Mentioned(Ranking(s, stand)))
            && BaseOf(m, c) == BaseOf(s, c) && BaseRoots(m, c) == BaseRoots(s, c)
  {
    RankingKeeps(s, stand);
    hide Ranking, KeptConsents, Mentioned;
  }

  // A standing device still consents exactly when fewer than the ceiling rank before it.
  lemma {:induction false} StillConsents(s: Roster, c: Crypto, d: string)
    requires Own(s, c) && d in Standing(s, c)
    ensures d in Consented(Trimmed(s, Standing(s, c))) <==> |Ahead(Standing(s, c), d)| < 96
  {
    var stand := Standing(s, c);
    StandingShape(s, c);
    TrimmedIs(s, stand, c);
    hide Standing, Trimmed, Ranking, Mentioned, Grounded, Stepwise, BaseOf, BaseRoots, Closure, Ahead, VouchEdges;
    var mentioned := Mentioned(Ranking(s, stand));
    KeptPart(s.consents, stand, mentioned);
    hide KeptConsents;
    var k :| k in s.consents && k.device == d;
    ConsentKept(s.consents, stand, mentioned, k);
  }

  lemma {:induction false} KeptPart(cs: seq<Consent>, stand: Places, mentioned: set<string>)
    ensures forall k | k in KeptConsents(cs, stand, mentioned) :: k in cs
  {
    KeysInjective();
    ClassInjective(stand, mentioned);
    var key, ranked := ConsentRank(stand, mentioned), RankedConsents(cs, stand, mentioned);
    SortUniqueFacts(cs, key);
    hide SortUnique, Injective, ConsentRank, ConsentClass;
    FewUnnamedIs(ranked, stand, mentioned, 0, key);
    var few := FewUnnamed(ranked, stand, mentioned, 0);
    hide FewUnnamed, RankedConsents, Sorted;
    SortUniqueFacts(Cap(few, MAX_CONSENTS), ConsentKey);
    forall k | k in KeptConsents(cs, stand, mentioned) ensures k in cs {
      assert k in Elems(KeptConsents(cs, stand, mentioned));
      assert k in Elems(ranked);
    }
  }

  // Whether a device has a tree vouch that is within the ceiling.
  ghost predicate TreeReaches(d: string, s: Roster, stand: Places) {
    exists v | v in TreeOf(s, stand) ::
      v.device == d && |Lesser(TreeOf(s, stand), VouchRank(stand), v)| < 128
  }

  // Whether cutting to the ceilings leaves a device founded: the roots reach it, its consent
  // is within the ceiling of consents and, unless it is a root, its best vouch within that of
  // vouches.
  ghost predicate StaysFounded(d: string, s: Roster, stand: Places) {
    && d in stand && stand[d].tier == 0 && |Ahead(stand, d)| < 96
    && (stand[d].depth == 0 || TreeReaches(d, s, stand))
  }

  lemma {:induction false} LesserGrows(tree: seq<Vouch>, stand: Places, w: Vouch, v: Vouch)
    requires w.signer in stand && v.signer in stand && PlaceLess(stand[w.signer], stand[v.signer])
    ensures |Lesser(tree, VouchRank(stand), w)| <= |Lesser(tree, VouchRank(stand), v)|
  {
    RankLess(stand, w.signer, v.signer, VouchKey(w), VouchKey(v));
    var key := VouchRank(stand);
    assert KeyLess(key(w), key(v));
    KeyTotal();
    hide KeyLess, VouchRank;
    SubsetSize(Lesser(tree, key, w), Lesser(tree, key, v));
  }

  // Then so does whoever vouched best for it.
  lemma {:induction false} ParentStays(s: Roster, stand: Places, roots: set<string>, d: string) returns (v: Vouch)
    requires Grounded(stand, roots, VouchEdges(s.vouches, Consented(s)))
    requires StaysFounded(d, s, stand) && stand[d].depth > 0
    ensures v in TreeOf(s, stand) && v.device == d && v in Ranking(s, stand).vouches
    ensures StaysFounded(v.signer, s, stand) && stand[v.signer].depth < stand[d].depth
  {
    var tree := TreeOf(s, stand);
    TreeIs(s, stand);
    hide TreeOf, Lesser, VouchRank, Ahead, RankedVouches, Sorted, InTree, Grounded, VouchEdges, Consented, Ranking;
    v := TreeParent(s, stand, roots, d);
    var p := v.signer;
    TreeVouchKept(s, stand, v);
    AheadGrows(stand, p, d);
    if stand[p].depth > 0 {
      var w := TreeParent(s, stand, roots, p);
      LesserGrows(tree, stand, w, v);
    }
  }

  lemma {:induction false} FoundedStays(s: Roster, c: Crypto, d: string)
    requires Own(s, c) && StaysFounded(d, s, Standing(s, c))
    ensures d in Founded(Trimmed(s, Standing(s, c)), c)
    decreases Standing(s, c)[d].depth
  {
    var stand := Standing(s, c);
    var m := Trimmed(s, stand);
    hide Standing, Trimmed, Ranking, BaseOf, BaseRoots, Closure, CurrentVouches, EdgesOf, VouchEdges, Consented, TreeOf,
         TreeReaches, Ahead, Stepwise;
    StandingShape(s, c);
    TrimmedIs(s, stand, c);
    StillConsents(s, c, d);
    LinksAre(m, c);
    ClosureIs(ConsentedRoots(m, c), Links(m, c));
    if stand[d].depth > 0 {
      var v := ParentStays(s, stand, BaseRoots(s, c) * Consented(s), d);
      FoundedStays(s, c, v.signer);
      RankingPart(s, stand);
      assert (v.signer, d) in Links(m, c);
    }
  }

  lemma {:induction false} RankingPart(s: Roster, stand: Places)
    ensures forall v | v in Ranking(s, stand).vouches :: v in s.vouches
  {
    RankedElems(s, stand);
    KeysInjective();
    hide RankedVouches, RankedRemovals, Injective, SortUnique;
    var all := RankedVouches(s.vouches, stand);
    SortUniqueFacts(Cap(all, MAX_VOUCHES), VouchKey);
    forall v | v in Ranking(s, stand).vouches ensures v in s.vouches {
      assert v in Elems(Ranking(s, stand).vouches);
      assert v in Elems(all);
    }
  }

  // What is founded once cut was founded before.
  lemma {:induction false} FoundedBefore(s: Roster, c: Crypto)
    requires Own(s, c)
    ensures var stand := Standing(s, c);
            forall d | d in Founded(Trimmed(s, stand), c) :: d in stand && stand[d].tier == 0
  {
    var stand := Standing(s, c);
    var m := Trimmed(s, stand);
    StandingShape(s, c);
    TrimmedIs(s, stand, c);
    RankingPart(s, stand);
    LinksAre(m, c);
    hide Standing, Trimmed, Ranking, BaseOf, BaseRoots, Closure, CurrentVouches, EdgesOf, Grounded, Stepwise;
    KeptPart(s.consents, stand, Mentioned(Ranking(s, stand)));
    hide KeptConsents, Mentioned;
    ClosureMonotone(ConsentedRoots(m, c), BaseRoots(s, c) * Consented(s), Links(m, c),
                    VouchEdges(s.vouches, Consented(s)));
  }

  lemma {:induction false} VouchLeft(s: Roster, c: Crypto, d: string) returns (u: Vouch)
    requires d in Founded(Trimmed(s, Standing(s, c)), c)
    requires d in Standing(s, c) && Standing(s, c)[d].depth > 0
    ensures u in Ranking(s, Standing(s, c)).vouches && u.device == d
  {
    var stand := Standing(s, c);
    var m := Trimmed(s, stand);
    StandingShape(s, c);
    TrimmedIs(s, stand, c);
    LinksAre(m, c);
    hide Standing, Trimmed, Ranking, BaseOf, BaseRoots, Closure, CurrentVouches, EdgesOf, Grounded, Stepwise,
         VouchEdges;
    KeptPart(s.consents, stand, Mentioned(Ranking(s, stand)));
    hide KeptConsents, Mentioned;
    assert d !in ConsentedRoots(m, c);
    LastEdge(ConsentedRoots(m, c), Links(m, c), d);
    var e :| e in Links(m, c) && e.1 == d;
    u :| u in m.vouches && (u.signer, u.device) == e;
  }

  lemma {:induction false} FoundedReached(s: Roster, c: Crypto, d: string)
    requires d in Founded(Trimmed(s, Standing(s, c)), c)
    requires d in Standing(s, c) && Standing(s, c)[d].tier == 0 && Standing(s, c)[d].depth > 0
    ensures TreeReaches(d, s, Standing(s, c))
  {
    var stand := Standing(s, c);
    StandingShape(s, c);
    hide Standing, Trimmed, Ranking, BaseRoots, Closure, Grounded, Stepwise, Consented, VouchEdges, TreeOf, Lesser,
         VouchRank, RankedVouches, Sorted, InTree, Founded;
    var u := VouchLeft(s, c, d);
    var v := TreeParent(s, stand, BaseRoots(s, c) * Consented(s), d);
    TreeIs(s, stand);
    TreeVouchKept(s, stand, v);
  }

  // Exactly who is founded once compaction has cut to its ceilings.
  lemma {:induction false} FoundedExactly(r: Roster, d: string, c: Crypto)
    ensures var s := Surviving(r, c);
            d in Founded(Compacted(r, c), c) <==> StaysFounded(d, s, Standing(s, c))
  {
    var s := Surviving(r, c);
    var stand := Standing(s, c);
    hide Surviving, Standing, Trimmed, Own, Ahead, TreeReaches, Founded;
    SurvivingOwn(r, c);
    if StaysFounded(d, s, stand) { FoundedStays(s, c, d); }
    if d in Founded(Trimmed(s, stand), c) {
      FoundedBefore(s, c);
      FoundedConsents(Trimmed(s, stand), c, d);
      StillConsents(s, c, d);
      if stand[d].depth > 0 { FoundedReached(s, c, d); }
    }
  }

  lemma {:induction false} FoundedConsents(m: Roster, c: Crypto, d: string)
    requires d in Founded(m, c)
    ensures d in Consented(m)
  {
    LinksAre(m, c);
    ClosureIs(ConsentedRoots(m, c), Links(m, c));
    hide Closure, CurrentVouches, EdgesOf, BaseRoots;
    assert Closed(Consented(m), Links(m, c));
  }

  // ---- Removals ----

  function RemovalRank(stand: Places): Removal -> Key {
    (x: Removal) => RankKey(stand, x.signer) + RemovalKey(x)
  }

  // The standing removals that rank before `x`.
  ghost function Outranking(s: Roster, stand: Places, x: Removal): set<Removal> {
    set y | y in s.removals && y.signer in stand && KeyLess(RemovalRank(stand)(y), RemovalRank(stand)(x))
  }

  lemma {:induction false} RankedRemovalsAre(s: Roster, stand: Places)
    ensures Sorted(RankedRemovals(s.removals, stand), RemovalRank(stand))
    ensures forall x :: x in RankedRemovals(s.removals, stand) <==> x in s.removals && x.signer in stand
    ensures forall x :: x in Ranking(s, stand).removals <==> x in Cap(RankedRemovals(s.removals, stand), MAX_REMOVALS)
  {
    KeysInjective();
    RankInjective(stand);
    RankedElems(s, stand);
    var xs := RankedRemovals(s.removals, stand);
    SortUniqueFacts(Filter(s.removals, (y: Removal) => y.signer in stand), RemovalRank(stand));
    hide Injective, RankedRemovals, RankedVouches, RemovalRank, Sorted, SortUnique;
    var cut := Cap(xs, MAX_REMOVALS);
    SortUniqueFacts(cut, RemovalKey);
    assert forall x :: x in xs <==> x in Elems(xs);
    assert forall x :: (x in cut <==> x in Elems(cut)) &&
                       (x in Ranking(s, stand).removals <==> x in Elems(Ranking(s, stand).removals));
  }

  lemma {:induction false} RemovalRanked(s: Roster, stand: Places, x: Removal)
    ensures x in Ranking(s, stand).removals <==>
            x in s.removals && x.signer in stand && |Outranking(s, stand, x)| < 96
  {
    RankedRemovalsAre(s, stand);
    var key, xs := RemovalRank(stand), RankedRemovals(s.removals, stand);
    hide RankedRemovals, RemovalRank, KeyLess, Sorted, Ranking;
    if x in xs {
      CapExact(xs, key, x, MAX_REMOVALS);
      assert Outranking(s, stand, x) == Lesser(xs, key, x);
    } else {
      assert x !in Cap(xs, MAX_REMOVALS);
    }
  }

  // A removal survives compaction exactly when it is of the current base, its signer stands
  // and fewer than the ceiling of such removals rank before it.
  lemma {:induction false} RemovalSurvives(r: Roster, x: Removal, c: Crypto)
    ensures var s := Surviving(r, c);
            x in Compacted(r, c).removals <==>
              x in s.removals && x.signer in Standing(s, c) && |Outranking(s, Standing(s, c), x)| < 96
  {
    var s := Surviving(r, c);
    hide Surviving, Standing, Trimmed, Outranking, Ranking;
    TrimmedIs(s, Standing(s, c), c);
    RemovalRanked(s, Standing(s, c), x);
  }

  // ---- What founded devices say is cut only by what founded devices say ----

  // Whether cutting to the ceilings leaves in force a removal of the current base: its signer
  // stays founded, and fewer than the ceiling of removals rank before it.
  ghost predicate Lasts(x: Removal, s: Roster, stand: Places) {
    StaysFounded(x.signer, s, stand) && |Outranking(s, stand, x)| < 96
  }

  ghost function FirstTierOf(stand: Places): set<string> {
    set d | d in stand && stand[d].tier == 0
  }

  // Whatever ranks before a founded device, its vouches or its removals is a founded
  // device's.
  lemma {:induction false} OnlyFoundedAhead(s: Roster, stand: Places, d: string)
    requires d in FirstTierOf(stand)
    ensures Ahead(stand, d) <= FirstTierOf(stand) - {d}
    ensures forall x: Removal, y | x.signer == d && y in Outranking(s, stand, x) ::
              y.signer in FirstTierOf(stand) && y != x
    ensures forall v: Vouch, w | v.signer == d && w in Lesser(TreeOf(s, stand), VouchRank(stand), v) ::
              w.signer in FirstTierOf(stand)
  {
    TreeIs(s, stand);
    KeyTotal();
    hide KeyLess, TreeOf, RankedVouches, Sorted, InTree;
    forall e | e in Ahead(stand, d) ensures e in FirstTierOf(stand) - {d} {
      assert RankKey(stand, e) + [] == RankKey(stand, e) && RankKey(stand, d) + [] == RankKey(stand, d);
      NotAfter(stand, e, d, [], []);
    }
    hide Ahead, RankKey;
    forall x: Removal, y | x.signer == d && y in Outranking(s, stand, x)
      ensures y.signer in FirstTierOf(stand) && y != x
    {
      NotAfter(stand, y.signer, d, RemovalKey(y), RemovalKey(x));
    }
    forall v: Vouch, w | v.signer == d && w in Lesser(TreeOf(s, stand), VouchRank(stand), v)
      ensures w.signer in FirstTierOf(stand)
    {
      NotAfter(stand, w.signer, d, VouchKey(w), VouchKey(v));
    }
  }

  // What founded devices are and remove fits its ceilings.
  ghost predicate FoundedFit(s: Roster, stand: Places) {
    && |FirstTierOf(stand)| <= 96
    && |set x | x in s.removals && x.signer in FirstTierOf(stand)| <= 96
  }

  lemma {:induction false} VouchedFounded(s: Roster, stand: Places, w: Vouch)
    requires Stepwise(stand, VouchEdges(s.vouches, Consented(s))) && stand.Keys <= Consented(s)
    requires w in s.vouches && w.device in stand && w.signer in FirstTierOf(stand)
    ensures w.device in FirstTierOf(stand)
  {
    assert (w.signer, w.device) in VouchEdges(s.vouches, Consented(s));
  }

  lemma {:induction false} BeforeFounded(s: Roster, stand: Places, v: Vouch, w: Vouch)
    requires Stepwise(stand, VouchEdges(s.vouches, Consented(s))) && stand.Keys <= Consented(s)
    requires v in TreeOf(s, stand) && v.signer in FirstTierOf(stand)
    requires w == v || w in Lesser(TreeOf(s, stand), VouchRank(stand), v)
    ensures w in TreeOf(s, stand) && w.device in FirstTierOf(stand)
  {
    hide Stepwise, VouchEdges, Consented, TreeOf, VouchRank, FirstTierOf, RankedVouches, Sorted, InTree, KeyLess;
    TreeIs(s, stand);
    OnlyFoundedAhead(s, stand, v.signer);
    VouchedFounded(s, stand, w);
  }

  lemma {:induction false} TreeOnce(s: Roster, stand: Places)
    ensures forall v, w | v in TreeOf(s, stand) && w in TreeOf(s, stand) && v.device == w.device :: v == w
  {
    hide *;
    TreeIs(s, stand);
  }

  lemma {:induction false} FewBefore(s: Roster, stand: Places, v: Vouch)
    requires Stepwise(stand, VouchEdges(s.vouches, Consented(s))) && stand.Keys <= Consented(s)
    requires v in TreeOf(s, stand) && v.signer in FirstTierOf(stand)
    ensures |Lesser(TreeOf(s, stand), VouchRank(stand), v)| < |FirstTierOf(stand)|
  {
    hide *;
    var before := Lesser(TreeOf(s, stand), VouchRank(stand), v);
    NotLesser(TreeOf(s, stand), VouchRank(stand), v);
    forall w | w in before + {v} ensures w in TreeOf(s, stand) && w.device in FirstTierOf(stand) {
      BeforeFounded(s, stand, v, w);
    }
    TreeOnce(s, stand);
    NoMoreThan(before + {v}, (w: Vouch) => w.device, FirstTierOf(stand));
  }

  lemma {:induction false} FitReaches(s: Roster, c: Crypto, d: string)
    requires var stand := Standing(s, c); d in FirstTierOf(stand) && stand[d].depth > 0
    requires |FirstTierOf(Standing(s, c))| <= 128
    ensures TreeReaches(d, s, Standing(s, c))
  {
    var stand := Standing(s, c);
    StandingShape(s, c);
    hide Standing, BaseRoots, Closure, Grounded, Stepwise, Consented, VouchEdges, TreeOf, VouchRank, Lesser;
    var v := TreeParent(s, stand, BaseRoots(s, c) * Consented(s), d);
    FewBefore(s, stand, v);
  }

  // So while founded devices and their removals fit, every removal by one lasts, whatever
  // devices the roots do not reach state.
  lemma {:induction false} FitLasts(x: Removal, s: Roster, c: Crypto)
    requires var stand := Standing(s, c);
             FoundedFit(s, stand) && x in s.removals && x.signer in FirstTierOf(stand)
    ensures Lasts(x, s, Standing(s, c))
  {
    var stand := Standing(s, c);
    var first := FirstTierOf(stand);
    var made := set y | y in s.removals && y.signer in first;
    hide Standing, Ahead, TreeReaches, TreeOf, VouchRank, Lesser;
    OnlyFoundedAhead(s, stand, x.signer);
    SubsetSize(Ahead(stand, x.signer), first - {x.signer});
    assert |first - {x.signer}| < |first|;
    assert Outranking(s, stand, x) <= made - {x};
    SubsetSize(Outranking(s, stand, x), made - {x});
    assert x in made && |made - {x}| < |made|;
    hide FirstTierOf;
    if stand[x.signer].depth > 0 { FitReaches(s, c, x.signer); }
  }
}
