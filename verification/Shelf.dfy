// Records that anyone may write, charged to their writers' shares and kept within a byte
// budget: the table, ledger and enforce_budget that relay-uws/src/roster_book.h and
// relay-uws/src/join_lock.h both hold.
module Shelves {
  import opened Base
  import opened FairShares

  // Every record of `a` is the one `b` holds.
  ghost predicate Kept<V>(a: map<string, V>, b: map<string, V>) {
    forall k | k in a :: k in b && a[k] == b[k]
  }

  lemma {:induction false} KeptOn<V>(a: map<string, V>, b: map<string, V>, c: map<string, V>)
    requires Kept(a, b) && Kept(b, c)
    ensures Kept(a, c)
  {}

  class Shelf<V> {
    const budget: nat
    const ledger: FairShare<string>
    var records: map<string, V>

    ghost predicate Valid()
      reads this, ledger
    {
      ledger.Valid() && records.Keys == ledger.entries.Keys
    }

    constructor (limit: nat)
      ensures Valid() && records == map[] && budget == limit && fresh(ledger)
    {
      budget := limit;
      ledger := new FairShare();
      records := map[];
    }

    method Drop(key: string)
      requires Valid() && key in ledger.entries
      modifies this`records, ledger
      ensures Valid() && ledger.tick == old(ledger.tick) && ledger.total == Total(ledger.entries)
      ensures Without(old(ledger.entries), key, ledger.entries) && |ledger.entries| < |old(ledger.entries)|
      ensures Kept(records, old(records))
    {
      hide FairShare.Valid;
      records := records - {key};
      var _ := ledger.Remove(key);
      TotalIs(ledger);
    }

    // Ends within the budget: the table's victim leaves, with its record, while the rest is
    // past it and no further.
    method EnforceBudget()
      requires Valid()
      modifies this`records, ledger
      ensures Valid() && ledger.tick == old(ledger.tick)
      ensures EvictedTo(old(ledger.entries), ledger.entries, budget) && Total(ledger.entries) <= budget
      ensures Kept(records, old(records))
    {
      Unevicted(ledger.entries, budget);
      TotalIs(ledger);
      hide FairShare.Valid, EvictedTo, IsVictim, Total, Without, Kept;
      while ledger.total > budget
        invariant Valid() && ledger.tick == old(ledger.tick) && ledger.total == Total(ledger.entries)
        invariant EvictedTo(old(ledger.entries), ledger.entries, budget)
        invariant Kept(records, old(records))
        decreases |ledger.entries|
      {
        var victim := ledger.Victim();
        if victim.None? {
          EmptyTotal(ledger.entries);
          break;
        }
        ghost var held, table := records, ledger.entries;
        InVictim(table, victim.value);
        Drop(victim.value);
        KeptOn(records, held, old(records));
        EvictedMore(old(ledger.entries), table, budget, victim.value, ledger.entries);
      }
    }
  }

  // Evicting while over `budget`, as many times as it takes, leads from `t` to `u`.
  ghost predicate EvictedTo<Key(!new)>(t: Table<Key>, u: Table<Key>, budget: nat) {
    exists tables, gone: seq<Key> :: Evicts(tables, gone, budget) && tables[0] == t && tables[|gone|] == u
  }

  lemma {:induction false} Unevicted<Key(!new)>(t: Table<Key>, budget: nat)
    ensures EvictedTo(t, t, budget)
  {
    assert Evicts([t], [], budget);
  }

  lemma {:induction false} EvictedMore<Key(!new)>(t: Table<Key>, u: Table<Key>, budget: nat, k: Key, v: Table<Key>)
    requires EvictedTo(t, u, budget) && Total(u) > budget && IsVictim(u, k) && Without(u, k, v)
    ensures EvictedTo(t, v, budget)
  {
    var tables, gone: seq<Key> :| Evicts(tables, gone, budget) && tables[0] == t && tables[|gone|] == u;
    EvictsMore(tables, gone, budget, k, v);
    assert (tables + [v])[0] == t;
  }

  // A share within its even part of the budget loses nothing, however long it takes.
  lemma {:induction false} ModestKept<Key(!new)>(t: Table<Key>, u: Table<Key>, budget: nat, k: Key)
    requires EvictedTo(t, u, budget) && k in t && FairShares.Held(t, t[k].share) * |SharesOf(t)| <= budget
    ensures k in u && u[k] == t[k]
  {
    var tables, gone: seq<Key> :| Evicts(tables, gone, budget) && tables[0] == t && tables[|gone|] == u;
    ModestShareKept(tables, gone, budget, t[k].share, |gone|);
  }

  lemma {:induction false} TotalIs<Key(!new)>(ledger: FairShare<Key>)
    requires ledger.Valid()
    ensures ledger.total == Total(ledger.entries)
  {}

  lemma {:induction false} EmptyTotal<Key(!new)>(t: Table<Key>)
    requires t == map[]
    ensures Total(t) == 0
  {}

  lemma {:induction false} InVictim<Key(!new)>(t: Table<Key>, k: Key)
    requires IsVictim(t, k)
    ensures k in t
  {}

  lemma {:induction false} EvictsMore<Key(!new)>(tables: seq<Table<Key>>, gone: seq<Key>, budget: nat, k: Key,
                                                 t: Table<Key>)
    requires Evicts(tables, gone, budget)
    requires Total(tables[|gone|]) > budget && IsVictim(tables[|gone|], k) && Without(tables[|gone|], k, t)
    ensures Evicts(tables + [t], gone + [k], budget)
  {
    hide Total, IsVictim, Without;
  }
}
