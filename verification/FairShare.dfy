// relay-uws/src/fair_share.h: a table of weighted entries, each in a share, and which entry
// is to leave it next.
module FairShares {
  import opened Base

  datatype Entry = Entry(share: nat, weight: nat, tick: nat)
  datatype Share<Key(==)> = Share(held: nat, byUse: set<(nat, Key)>)

  type Table<Key> = map<Key, Entry>

  // ---- What a table means, without any index ----

  // What the entries of `keys` weigh together.
  ghost function WeightOf<Key(!new)>(t: Table<Key>, keys: set<Key>): nat
    requires keys <= t.Keys
  {
    if keys == {} then 0 else
      var k :| k in keys;
      t[k].weight + WeightOf(t, keys - {k})
  }

  ghost function OfShare<Key(!new)>(t: Table<Key>, keys: set<Key>, share: nat): set<Key>
    requires keys <= t.Keys
  {
    set k | k in keys && t[k].share == share
  }

  ghost function Total<Key(!new)>(t: Table<Key>): nat {
    WeightOf(t, t.Keys)
  }

  ghost function Held<Key(!new)>(t: Table<Key>, share: nat): nat {
    WeightOf(t, OfShare(t, t.Keys, share))
  }

  ghost function SharesOf<Key(!new)>(t: Table<Key>): set<nat> {
    set k | k in t :: t[k].share
  }

  // No entry was used after `now`.
  ghost predicate Ticked<Key(!new)>(t: Table<Key>, now: nat) {
    forall k | k in t :: t[k].tick <= now
  }

  // By a plain walk: `share` holds as much as any, the larger id settling a tie.
  ghost predicate Heaviest<Key(!new)>(t: Table<Key>, share: nat) {
    && share in SharesOf(t)
    && forall s | s in SharesOf(t) :: PairLe((Held(t, s), s), (Held(t, share), share))
  }

  // By a plain walk: `k` is the least recently used entry of the heaviest share.
  ghost predicate IsVictim<Key(!new)>(t: Table<Key>, k: Key) {
    && k in t
    && Heaviest(t, t[k].share)
    && forall j | j in t && t[j].share == t[k].share :: t[k].tick <= t[j].tick
  }

  // By a plain walk that passes over `spare`: `k` has the earliest use in its share, and no
  // other entry's share is heavier.
  ghost predicate IsVictimExcept<Key(!new)>(t: Table<Key>, spare: Key, k: Key) {
    && k in t && k != spare
    && (forall j | j in t && j != spare && t[j].share == t[k].share :: t[k].tick <= t[j].tick)
    && (forall j | j in t && j != spare ::
          PairLe((Held(t, t[j].share), t[j].share), (Held(t, t[k].share), t[k].share)))
  }

  // ---- Laws of the plain table ----

  lemma {:induction false} WeightOut<Key(!new)>(t: Table<Key>, keys: set<Key>, k: Key)
    requires k in keys && keys <= t.Keys
    ensures WeightOf(t, keys) == t[k].weight + WeightOf(t, keys - {k})
    decreases keys
  {
    var j :| j in keys && WeightOf(t, keys) == t[j].weight + WeightOf(t, keys - {j});
    if j != k {
      WeightOut(t, keys - {j}, k);
      WeightOut(t, keys - {k}, j);
      assert keys - {j} - {k} == keys - {k} - {j};
    }
  }

  lemma {:induction false} WeightSame<Key(!new)>(t: Table<Key>, u: Table<Key>, keys: set<Key>)
    requires keys <= t.Keys && keys <= u.Keys
    requires forall k | k in keys :: t[k].weight == u[k].weight
    ensures WeightOf(t, keys) == WeightOf(u, keys)
    decreases keys
  {
    if keys != {} {
      var k :| k in keys;
      WeightOut(t, keys, k);
      WeightOut(u, keys, k);
      WeightSame(t, u, keys - {k});
    }
  }

  lemma {:induction false} WeightSplit<Key(!new)>(t: Table<Key>, a: set<Key>, b: set<Key>)
    requires a <= t.Keys && b <= t.Keys && a !! b
    ensures WeightOf(t, a + b) == WeightOf(t, a) + WeightOf(t, b)
    decreases a
  {
    if a == {} {
      assert a + b == b;
    } else {
      var k :| k in a;
      WeightOut(t, a, k);
      WeightOut(t, a + b, k);
      assert a + b - {k} == (a - {k}) + b;
      WeightSplit(t, a - {k}, b);
    }
  }

  // Taking one key out lowers its own share by its weight and no other.
  lemma {:induction false} ShareOut<Key(!new)>(t: Table<Key>, keys: set<Key>, k: Key, share: nat)
    requires k in keys && keys <= t.Keys
    ensures WeightOf(t, OfShare(t, keys, share)) ==
            WeightOf(t, OfShare(t, keys - {k}, share)) + (if t[k].share == share then t[k].weight else 0)
  {
    if t[k].share == share {
      assert OfShare(t, keys - {k}, share) == OfShare(t, keys, share) - {k};
      WeightOut(t, OfShare(t, keys, share), k);
    } else {
      assert OfShare(t, keys - {k}, share) == OfShare(t, keys, share);
    }
  }

  // The shares hold the whole between them, so the whole is at most their number times the
  // most any one holds.
  lemma {:induction false} TotalWithin<Key(!new)>(t: Table<Key>, keys: set<Key>, shares: set<nat>, most: nat)
    requires keys <= t.Keys && forall k | k in keys :: t[k].share in shares
    requires forall s | s in shares :: WeightOf(t, OfShare(t, keys, s)) <= most
    ensures WeightOf(t, keys) <= |shares| * most
    decreases shares
  {
    hide WeightOf;
    if shares == {} {
      NoWeight(t);
      assert keys == {};
    } else {
      var s :| s in shares;
      var mine, rest := OfShare(t, keys, s), shares - {s};
      assert keys == mine + (keys - mine);
      WeightSplit(t, mine, keys - mine);
      forall o | o in rest ensures WeightOf(t, OfShare(t, keys - mine, o)) <= most {
        assert OfShare(t, keys - mine, o) == OfShare(t, keys, o);
      }
      TotalWithin(t, keys - mine, rest, most);
      ProductOneMore(|rest|, most);
      assert |shares| == |rest| + 1;
    }
  }

  lemma {:induction false} NoWeight<Key(!new)>(t: Table<Key>)
    ensures WeightOf(t, {}) == 0
  {}

  // The fairness bound: while a table is past its budget, whoever gives way belongs to a
  // share holding at least as much as every other, and more than the budget split evenly.
  lemma {:induction false} VictimIsHeavy<Key(!new)>(t: Table<Key>, k: Key, budget: nat)
    requires IsVictim(t, k) && Total(t) > budget
    ensures forall s | s in SharesOf(t) :: Held(t, s) <= Held(t, t[k].share)
    ensures Held(t, t[k].share) * |SharesOf(t)| > budget
  {
    forall j | j in t ensures t[j].share in SharesOf(t) {}
    TotalWithin(t, t.Keys, SharesOf(t), Held(t, t[k].share));
  }

  // `u` is `t` without `k`.
  ghost predicate Without<Key(!new)>(t: Table<Key>, k: Key, u: Table<Key>) {
    u.Keys == t.Keys - {k} && forall j | j in u :: u[j] == t[j]
  }

  lemma {:induction false} WithoutHeld<Key(!new)>(t: Table<Key>, k: Key, u: Table<Key>, share: nat)
    requires k in t && Without(t, k, u)
    ensures Held(t, share) == Held(u, share) + (if t[k].share == share then t[k].weight else 0)
  {
    ShareOut(t, t.Keys, k, share);
    assert OfShare(t, t.Keys - {k}, share) == OfShare(u, u.Keys, share);
    WeightSame(t, u, OfShare(u, u.Keys, share));
  }

  lemma {:induction false} WithoutTotal<Key(!new)>(t: Table<Key>, k: Key, u: Table<Key>)
    requires k in t && Without(t, k, u)
    ensures Total(t) == Total(u) + t[k].weight
  {
    WeightOut(t, t.Keys, k);
    WeightSame(t, u, u.Keys);
  }

  // Evicting while over `budget`: each key of `gone` was the victim of what was left.
  // `tables` is the table before the first eviction and after each one.
  ghost predicate Evicts<Key(!new)>(tables: seq<Table<Key>>, gone: seq<Key>, budget: nat) {
    && |tables| == |gone| + 1
    && forall i | 0 <= i < |gone| ::
         && Total(tables[i]) > budget
         && IsVictim(tables[i], gone[i])
         && Without(tables[i], gone[i], tables[i + 1])
  }

  // Over a whole run of evictions a share that holds no more than its even part of the
  // budget, the shares at the start counted, loses nothing.
  lemma {:induction false} ModestShareKept<Key(!new)>(tables: seq<Table<Key>>, gone: seq<Key>, budget: nat, share: nat,
                                                      n: nat)
    requires Evicts(tables, gone, budget) && n < |tables|
    requires Held(tables[0], share) * |SharesOf(tables[0])| <= budget
    ensures Held(tables[n], share) == Held(tables[0], share)
    ensures SharesOf(tables[n]) <= SharesOf(tables[0])
    ensures forall k | k in tables[0] && tables[0][k].share == share :: k in tables[n] && tables[n][k] == tables[0][k]
    decreases n
  {
    if n > 0 {
      ModestShareKept(tables, gone, budget, share, n - 1);
      var t, k := tables[n - 1], gone[n - 1];
      assert Without(t, k, tables[n]);
      VictimIsHeavy(t, k, budget);
      SubsetSize(SharesOf(t), SharesOf(tables[0]));
      ProductMonotone(Held(t, share), |SharesOf(t)|, |SharesOf(tables[0])|);
      assert t[k].share != share;
      WithoutHeld(t, k, tables[n], share);
      forall j | j in tables[n] ensures tables[n][j].share in SharesOf(tables[0]) {
        assert t[j].share in SharesOf(t);
      }
    }
  }

  // ---- The indexes of a table ----

  type Shares<Key(==)> = map<nat, Share<Key>>

  // `by_use` of every share names exactly its entries among `keys`, each under the moment
  // of its use.
  ghost predicate UsesExact<Key(!new)>(shares: Shares<Key>, t: Table<Key>, keys: set<Key>)
    requires keys <= t.Keys
  {
    && (forall k | k in keys :: t[k].share in shares && (t[k].tick, k) in shares[t[k].share].byUse)
    && (forall s, u | s in shares && u in shares[s].byUse ::
          u.1 in keys && t[u.1].share == s && t[u.1].tick == u.0)
    && (forall s | s in shares :: shares[s].byUse != {})
  }

  ghost predicate HeldExact<Key(!new)>(shares: Shares<Key>, t: Table<Key>, keys: set<Key>)
    requires keys <= t.Keys
  {
    forall s | s in shares :: shares[s].held == WeightOf(t, OfShare(t, keys, s))
  }

  // `by_held` ranks exactly the shares there are.
  ghost predicate RankExact<Key(!new)>(byHeld: set<(nat, nat)>, shares: Shares<Key>) {
    && (forall s | s in shares :: (shares[s].held, s) in byHeld)
    && (forall p | p in byHeld :: p.1 in shares && shares[p.1].held == p.0)
  }

  function ShareAt<Key(==)>(shares: Shares<Key>, share: nat): Share<Key> {
    if share in shares then shares[share] else Share(0, {})
  }

  // `share` now stands for `s`, or for nothing when `s` has no entry left.
  function Replaced<Key(==)>(shares: Shares<Key>, share: nat, s: Share<Key>): Shares<Key> {
    if s.byUse == {} then shares - {share} else shares[share := s]
  }

  function Reranked<Key(==)>(byHeld: set<(nat, nat)>, share: nat, before: Share<Key>, after: Share<Key>)
    : set<(nat, nat)>
  {
    var out := if before.byUse == {} then byHeld else byHeld - {(before.held, share)};
    if after.byUse == {} then out else out + {(after.held, share)}
  }

  lemma {:induction false} Rerank<Key(!new)>(byHeld: set<(nat, nat)>, shares: Shares<Key>, share: nat, s: Share<Key>)
    requires RankExact(byHeld, shares)
    requires forall o | o in shares :: shares[o].byUse != {}
    ensures RankExact(Reranked(byHeld, share, ShareAt(shares, share), s), Replaced(shares, share, s))
  {}

  lemma {:induction false} LinkUses<Key(!new)>(shares: Shares<Key>, t: Table<Key>, keys: set<Key>, key: Key,
                                               s: Share<Key>)
    requires key in t && key !in keys && keys <= t.Keys && UsesExact(shares, t, keys)
    requires s.byUse == ShareAt(shares, t[key].share).byUse + {(t[key].tick, key)}
    ensures UsesExact(shares[t[key].share := s], t, keys + {key})
  {
    hide WeightOf;
    assert (t[key].tick, key) in s.byUse;
  }

  lemma {:induction false} LinkHeld<Key(!new)>(shares: Shares<Key>, t: Table<Key>, keys: set<Key>, key: Key,
                                               s: Share<Key>)
    requires key in t && key !in keys && keys <= t.Keys && UsesExact(shares, t, keys) && HeldExact(shares, t, keys)
    requires s.held == ShareAt(shares, t[key].share).held + t[key].weight
    ensures HeldExact(shares[t[key].share := s], t, keys + {key})
    ensures WeightOf(t, keys + {key}) == WeightOf(t, keys) + t[key].weight
  {
    assert keys + {key} - {key} == keys;
    WeightOut(t, keys + {key}, key);
    forall o | o in shares[t[key].share := s]
      ensures shares[t[key].share := s][o].held == WeightOf(t, OfShare(t, keys + {key}, o))
    {
      ShareOut(t, keys + {key}, key, o);
      if o !in shares { assert OfShare(t, keys, o) == {}; }
    }
  }

  lemma {:induction false} UnlinkUses<Key(!new)>(shares: Shares<Key>, t: Table<Key>, key: Key, s: Share<Key>)
    requires key in t && UsesExact(shares, t, t.Keys)
    requires s.byUse == shares[t[key].share].byUse - {(t[key].tick, key)}
    ensures UsesExact(Replaced(shares, t[key].share, s), t, t.Keys - {key})
  {
    hide WeightOf;
    if s.byUse == {} {
      forall k | k in t.Keys - {key} ensures t[k].share != t[key].share {
        assert (t[k].tick, k) !in s.byUse;
      }
    }
  }

  lemma {:induction false} UnlinkHeld<Key(!new)>(shares: Shares<Key>, t: Table<Key>, key: Key, s: Share<Key>)
    requires key in t && UsesExact(shares, t, t.Keys) && HeldExact(shares, t, t.Keys)
    requires s.held == shares[t[key].share].held - t[key].weight
    ensures HeldExact(Replaced(shares, t[key].share, s), t, t.Keys - {key})
    ensures WeightOf(t, t.Keys) == WeightOf(t, t.Keys - {key}) + t[key].weight
  {
    WeightOut(t, t.Keys, key);
    forall o | o in Replaced(shares, t[key].share, s)
      ensures Replaced(shares, t[key].share, s)[o].held == WeightOf(t, OfShare(t, t.Keys - {key}, o))
    {
      ShareOut(t, t.Keys, key, o);
    }
  }

  lemma {:induction false} LinkExact<Key(!new)>(shares: Shares<Key>, byHeld: set<(nat, nat)>, t: Table<Key>, key: Key,
                                                s: Share<Key>)
    requires key in t && UsesExact(shares, t, t.Keys - {key}) && HeldExact(shares, t, t.Keys - {key})
    requires RankExact(byHeld, shares)
    requires var was := ShareAt(shares, t[key].share);
             s == Share(was.held + t[key].weight, was.byUse + {(t[key].tick, key)})
    ensures UsesExact(shares[t[key].share := s], t, t.Keys)
    ensures HeldExact(shares[t[key].share := s], t, t.Keys)
    ensures RankExact(Reranked(byHeld, t[key].share, ShareAt(shares, t[key].share), s), shares[t[key].share := s])
    ensures WeightOf(t, t.Keys) == WeightOf(t, t.Keys - {key}) + t[key].weight
  {
    hide WeightOf;
    var keys := t.Keys - {key};
    LinkUses(shares, t, keys, key, s);
    LinkHeld(shares, t, keys, key, s);
    Rerank(byHeld, shares, t[key].share, s);
    assert keys + {key} == t.Keys;
  }

  lemma {:induction false} UnlinkExact<Key(!new)>(shares: Shares<Key>, byHeld: set<(nat, nat)>, t: Table<Key>, key: Key,
                                                  s: Share<Key>)
    requires key in t && UsesExact(shares, t, t.Keys) && HeldExact(shares, t, t.Keys) && RankExact(byHeld, shares)
    requires var was := shares[t[key].share];
             s.held == was.held - t[key].weight && s.byUse == was.byUse - {(t[key].tick, key)}
    ensures UsesExact(Replaced(shares, t[key].share, s), t, t.Keys - {key})
    ensures HeldExact(Replaced(shares, t[key].share, s), t, t.Keys - {key})
    ensures RankExact(Reranked(byHeld, t[key].share, shares[t[key].share], s), Replaced(shares, t[key].share, s))
    ensures WeightOf(t, t.Keys) == WeightOf(t, t.Keys - {key}) + t[key].weight
  {
    hide WeightOf;
    UnlinkUses(shares, t, key, s);
    UnlinkHeld(shares, t, key, s);
    Rerank(byHeld, shares, t[key].share, s);
  }

  // What a change of one entry's use or weight, and of its share, does to each index.
  ghost predicate Changed<Key(!new)>(t: Table<Key>, key: Key, u: Table<Key>) {
    key in t && u.Keys == t.Keys && u[key].share == t[key].share && forall k | k in t && k != key :: u[k] == t[k]
  }

  lemma {:induction false} UsesMoved<Key(!new)>(shares: Shares<Key>, t: Table<Key>, key: Key, u: Table<Key>,
                                                s: Share<Key>)
    requires UsesExact(shares, t, t.Keys) && Changed(t, key, u)
    requires s.byUse == shares[t[key].share].byUse - {(t[key].tick, key)} + {(u[key].tick, key)}
    ensures UsesExact(shares[t[key].share := s], u, u.Keys)
  {
    assert (u[key].tick, key) in s.byUse;
  }

  lemma {:induction false} HeldMoved<Key(!new)>(shares: Shares<Key>, t: Table<Key>, key: Key, u: Table<Key>,
                                                s: Share<Key>)
    requires HeldExact(shares, t, t.Keys) && Changed(t, key, u) && t[key].share in shares
    requires s.held == shares[t[key].share].held - t[key].weight + u[key].weight
    ensures HeldExact(shares[t[key].share := s], u, u.Keys)
    ensures WeightOf(u, u.Keys) == WeightOf(t, t.Keys) - t[key].weight + u[key].weight
  {
    hide WeightOf;
    WeightOut(t, t.Keys, key);
    WeightOut(u, t.Keys, key);
    WeightSame(t, u, t.Keys - {key});
    forall o ensures WeightOf(u, OfShare(u, u.Keys, o)) ==
                     WeightOf(t, OfShare(t, t.Keys, o)) + if o == t[key].share then u[key].weight - t[key].weight else 0
    {
      ShareOut(t, t.Keys, key, o);
      ShareOut(u, u.Keys, key, o);
      SameShare(t, key, u, o);
    }
  }

  lemma {:induction false} SameShare<Key(!new)>(t: Table<Key>, key: Key, u: Table<Key>, share: nat)
    requires Changed(t, key, u)
    ensures WeightOf(u, OfShare(u, u.Keys - {key}, share)) == WeightOf(t, OfShare(t, t.Keys - {key}, share))
  {
    hide WeightOf;
    assert OfShare(u, u.Keys - {key}, share) == OfShare(t, t.Keys - {key}, share);
    WeightSame(t, u, OfShare(t, t.Keys - {key}, share));
  }

  // An entry used again: only its own share's use order moves.
  lemma {:induction false} TouchExact<Key(!new)>(shares: Shares<Key>, byHeld: set<(nat, nat)>, t: Table<Key>, now: nat,
                                                 key: Key, u: Table<Key>, s: Share<Key>)
    requires key in t && UsesExact(shares, t, t.Keys) && HeldExact(shares, t, t.Keys) && RankExact(byHeld, shares)
    requires u == t[key := t[key].(tick := now)]
    requires var was := shares[t[key].share];
             s == was.(byUse := was.byUse - {(t[key].tick, key)} + {(now, key)})
    ensures UsesExact(shares[t[key].share := s], u, u.Keys)
    ensures HeldExact(shares[t[key].share := s], u, u.Keys)
    ensures RankExact(byHeld, shares[t[key].share := s])
    ensures WeightOf(u, u.Keys) == WeightOf(t, t.Keys)
  {
    hide WeightOf, UsesExact, HeldExact;
    assert Changed(t, key, u);
    UseThere(shares, t, key);
    UsesMoved(shares, t, key, u, s);
    HeldMoved(shares, t, key, u, s);
  }

  lemma {:induction false} ReweighExact<Key(!new)>(shares: Shares<Key>, byHeld: set<(nat, nat)>, t: Table<Key>,
                                                   key: Key, weight: nat, u: Table<Key>, s: Share<Key>)
    requires key in t && UsesExact(shares, t, t.Keys) && HeldExact(shares, t, t.Keys) && RankExact(byHeld, shares)
    requires u == t[key := t[key].(weight := weight)]
    requires s == shares[t[key].share].(held := s.held)
    requires s.held == shares[t[key].share].held - t[key].weight + weight
    ensures UsesExact(shares[t[key].share := s], u, u.Keys)
    ensures HeldExact(shares[t[key].share := s], u, u.Keys)
    ensures RankExact(Reranked(byHeld, t[key].share, shares[t[key].share], s), shares[t[key].share := s])
    ensures WeightOf(u, u.Keys) == WeightOf(t, t.Keys) - t[key].weight + weight
  {
    hide WeightOf, UsesExact, HeldExact, RankExact;
    assert Changed(t, key, u);
    UseThere(shares, t, key);
    UsesMoved(shares, t, key, u, s);
    HeldMoved(shares, t, key, u, s);
    Rerank(byHeld, shares, t[key].share, s);
  }

  lemma {:induction false} UseThere<Key(!new)>(shares: Shares<Key>, t: Table<Key>, key: Key)
    requires UsesExact(shares, t, t.Keys) && key in t
    ensures t[key].share in shares && forall o | o in shares :: shares[o].byUse != {}
    ensures var uses := shares[t[key].share].byUse; uses - {(t[key].tick, key)} + {(t[key].tick, key)} == uses
  {}

  // What the indexes say survives a change of the entries no index reads.
  lemma {:induction false} SameIndexed<Key(!new)>(shares: Shares<Key>, t: Table<Key>, u: Table<Key>, keys: set<Key>)
    requires keys <= t.Keys && keys <= u.Keys && forall k | k in keys :: t[k] == u[k]
    requires UsesExact(shares, t, keys) && HeldExact(shares, t, keys)
    ensures UsesExact(shares, u, keys) && HeldExact(shares, u, keys) && WeightOf(t, keys) == WeightOf(u, keys)
  {
    WeightSame(t, u, keys);
    forall s | s in shares ensures shares[s].held == WeightOf(u, OfShare(u, keys, s)) {
      assert OfShare(t, keys, s) == OfShare(u, keys, s);
      WeightSame(t, u, OfShare(u, keys, s));
    }
  }

  class FairShare<Key(!new, ==)> {
    var entries: Table<Key>
    var shares: Shares<Key>
    var byHeld: set<(nat, nat)>
    var tick: nat
    var total: nat

    // The indexes describe exactly the entries of `keys`.
    ghost predicate Indexes(keys: set<Key>)
      requires keys <= entries.Keys
      reads this
    {
      && UsesExact(shares, entries, keys)
      && HeldExact(shares, entries, keys)
      && RankExact(byHeld, shares)
      && total == WeightOf(entries, keys)
    }

    ghost predicate Valid()
      reads this
    {
      Ticked(entries, tick) && Indexes(entries.Keys)
    }

    constructor ()
      ensures Valid() && entries == map[] && tick == 0
    {
      entries, shares, byHeld, tick, total := map[], map[], {}, 0, 0;
    }

    // The entry of `key` joins the indexes.
    method Link(key: Key)
      requires key in entries && Indexes(entries.Keys - {key})
      modifies this`shares, this`byHeld, this`total
      ensures Indexes(entries.Keys)
    {
      hide WeightOf, OfShare, UsesExact, HeldExact, RankExact;
      var e := entries[key];
      var s := ShareAt(shares, e.share);
      var grown := Share(s.held + e.weight, s.byUse + {(e.tick, key)});
      LinkExact(shares, byHeld, entries, key, grown);
      byHeld := Reranked(byHeld, e.share, s, grown);
      shares := shares[e.share := grown];
      total := total + e.weight;
    }

    // The entry of `key` leaves the indexes, before it leaves the table.
    method Unlink(key: Key)
      requires key in entries && Indexes(entries.Keys)
      modifies this`shares, this`byHeld, this`total
      ensures Indexes(entries.Keys - {key})
    {
      hide WeightOf, OfShare, RankExact;
      var e := entries[key];
      var s := shares[e.share];
      ShareOut(entries, entries.Keys, key, e.share);
      var shrunk := Share(s.held - e.weight, s.byUse - {(e.tick, key)});
      UnlinkExact(shares, byHeld, entries, key, shrunk);
      byHeld := Reranked(byHeld, e.share, s, shrunk);
      shares := Replaced(shares, e.share, shrunk);
      total := total - e.weight;
    }

    // The table maps `key` to this share, this weight and the next tick; no other entry moves.
    method Put(key: Key, share: nat, weight: nat)
      requires Valid()
      modifies this
      ensures Valid()
      ensures tick == old(tick) + 1
      ensures entries == old(entries)[key := Entry(share, weight, old(tick) + 1)]
    {
      hide WeightOf, OfShare, UsesExact, HeldExact, RankExact;
      ghost var t, keys := entries, entries.Keys - {key};
      if key in entries {
        Unlink(key);
      } else {
        assert keys == entries.Keys;
      }
      tick := tick + 1;
      entries := entries[key := Entry(share, weight, tick)];
      SameIndexed(shares, t, entries, keys);
      assert entries.Keys - {key} == keys;
      Link(key);
    }

    method Touch(key: Key)
      requires Valid()
      modifies this
      ensures Valid()
      ensures key !in old(entries) ==> entries == old(entries) && tick == old(tick)
      ensures key in old(entries) ==>
                && tick == old(tick) + 1
                && entries == old(entries)[key := old(entries)[key].(tick := old(tick) + 1)]
    {
      hide WeightOf, OfShare, RankExact;
      if key !in entries { return; }
      var e := entries[key];
      var s := shares[e.share];
      tick := tick + 1;
      var used := s.(byUse := s.byUse - {(e.tick, key)} + {(tick, key)});
      TouchExact(shares, byHeld, entries, tick, key, entries[key := e.(tick := tick)], used);
      entries := entries[key := e.(tick := tick)];
      shares := shares[e.share := used];
    }

    // Only the weight of `key` changes.
    method Reweigh(key: Key, weight: nat)
      requires Valid()
      modifies this
      ensures Valid() && tick == old(tick)
      ensures key !in old(entries) ==> entries == old(entries)
      ensures key in old(entries) ==> entries == old(entries)[key := old(entries)[key].(weight := weight)]
    {
      hide WeightOf, OfShare, RankExact;
      if key !in entries { return; }
      var e := entries[key];
      var s := shares[e.share];
      ShareOut(entries, entries.Keys, key, e.share);
      WeightOut(entries, entries.Keys, key);
      var weighed := s.(held := s.held - e.weight + weight);
      ReweighExact(shares, byHeld, entries, key, weight, entries[key := e.(weight := weight)], weighed);
      byHeld := Reranked(byHeld, e.share, s, weighed);
      shares := shares[e.share := weighed];
      total := total - e.weight + weight;
      entries := entries[key := e.(weight := weight)];
    }

    method Remove(key: Key) returns (held: bool)
      requires Valid()
      modifies this
      ensures Valid() && tick == old(tick)
      ensures held == (key in old(entries))
      ensures Without(old(entries), key, entries)
    {
      hide WeightOf, OfShare, UsesExact, HeldExact, RankExact;
      if key !in entries {
        return false;
      }
      ghost var t := entries;
      Unlink(key);
      entries := entries - {key};
      SameIndexed(shares, t, entries, entries.Keys);
      return true;
    }

    // The entry to evict.
    method Victim() returns (v: Option<Key>)
      requires Valid()
      ensures v.None? <==> entries == map[]
      ensures v.Some? ==> IsVictim(entries, v.value)
    {
      hide WeightOf, OfShare;
      if byHeld == {} {
        return None;
      }
      ghost var g := GreatestPair(byHeld);
      var top :| top in byHeld && forall p | p in byHeld :: PairLe(p, top);
      var uses := shares[top.1].byUse;
      ghost var l := LeastUse(uses);
      var first :| first in uses && forall u | u in uses :: first.0 <= u.0;
      forall s | s in SharesOf(entries) ensures PairLe((Held(entries, s), s), (Held(entries, top.1), top.1)) {
        assert (shares[s].held, s) in byHeld;
      }
      return Some(first.1);
    }

    // The entry to evict, passing over `spare`: shares are walked heaviest first.
    method VictimExcept(spare: Key) returns (v: Option<Key>)
      requires Valid()
      ensures v.None? <==> entries.Keys <= {spare}
      ensures v.Some? ==> IsVictimExcept(entries, spare, v.value)
    {
      hide WeightOf, OfShare, Held, PairLe;
      HeldIs(shares, entries);
      var left := byHeld;
      while left != {}
        invariant left <= byHeld
        invariant forall k | k in entries && k != spare :: (shares[entries[k].share].held, entries[k].share) in left
        decreases left
      {
        ghost var g := GreatestPair(left);
        var top :| top in left && forall p | p in left :: PairLe(p, top);
        var uses := set u | u in shares[top.1].byUse && u.1 != spare;
        if uses != {} {
          ghost var l := LeastUse(uses);
          var first :| first in uses && forall u | u in uses :: first.0 <= u.0;
          forall j | j in entries && j != spare
            ensures PairLe((Held(entries, entries[j].share), entries[j].share), (Held(entries, top.1), top.1))
          {
            assert (shares[entries[j].share].held, entries[j].share) in left;
          }
          return Some(first.1);
        }
        forall k | k in entries && k != spare
          ensures (shares[entries[k].share].held, entries[k].share) in left - {top}
        {
          assert (entries[k].tick, k) in shares[entries[k].share].byUse;
          assert (entries[k].tick, k) !in uses;
        }
        left := left - {top};
      }
      assert forall k | k in entries :: k == spare;
      return None;
    }
  }

  lemma {:induction false} HeldIs<Key(!new)>(shares: Shares<Key>, t: Table<Key>)
    requires HeldExact(shares, t, t.Keys)
    ensures forall s | s in shares :: shares[s].held == Held(t, s)
  {}

  lemma {:induction false} LeastUse<Key(!new)>(uses: set<(nat, Key)>) returns (first: (nat, Key))
    requires uses != {}
    ensures first in uses && forall u | u in uses :: first.0 <= u.0
  {
    var q :| q in uses;
    if uses == {q} {
      first := q;
    } else {
      var rest := LeastUse(uses - {q});
      first := if q.0 <= rest.0 then q else rest;
    }
  }
}
