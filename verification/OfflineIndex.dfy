// relay-uws/src/offline_index.h: what the session rings hold between them, each frame's
// holding charged to its receiver's share and each distinct buffer charged once to its
// sender's. Only the rings' side is here; the offline buffers keep a budget of their own.
module OfflineIndexes {
  import opened Base
  import opened Streams
  import FS = FairShares

  const FRAME_OVERHEAD_BYTES: nat := 1024

  // A key of the pool's table: a frame's holding under its stamp, or a buffer's bytes under
  // the stamp of its first holder (the source marks the latter with bit 63).
  datatype PoolKey = Holding(stamp: nat) | Bytes(id: nat)

  datatype Shared = Shared(id: nat, holders: set<nat>)

  type Where = map<nat, string>
  type BufferOf = map<nat, Buf>
  type SharedBuffers = map<Buf, Shared>

  // ---- What the maps say of each other ----

  // Each live buffer knows exactly the stamps that hold it.
  ghost predicate HoldersExact(bufferOf: BufferOf, shared: SharedBuffers) {
    && (forall s | s in bufferOf :: bufferOf[s] in shared && s in shared[bufferOf[s]].holders)
    && (forall b, s | b in shared && s in shared[b].holders :: s in bufferOf && bufferOf[s] == b)
    && (forall b | b in shared :: shared[b].holders != {})
  }

  // Each live buffer has a name of its own, the stamp of its first holder.
  ghost predicate IdsExact(at: Where, bufferOf: BufferOf, shared: SharedBuffers, ids: BufferOf, next: nat) {
    && (forall b | b in shared :: shared[b].id in ids && ids[shared[b].id] == b)
    && (forall i | i in ids :: 0 < i <= next && ids[i] in shared && shared[ids[i]].id == i)
    && (forall i | i in ids && i in at :: i in bufferOf)
    && (forall s | s in at :: 0 < s <= next)
  }

  // The table charges every holding, every non-empty buffer, and nothing else.
  ghost predicate Charged(at: Where, ids: BufferOf, t: FS.Table<PoolKey>) {
    && (forall s | s in at :: Holding(s) in t && t[Holding(s)].weight == FRAME_OVERHEAD_BYTES)
    && (forall i | i in ids && ids[i].data != [] :: Bytes(i) in t && t[Bytes(i)].weight == |ids[i].data|)
    && (forall k | k in t && k.Holding? :: k.stamp in at)
    && (forall k | k in t && k.Bytes? :: k.id in ids && ids[k.id].data != [])
  }

  // ---- Conservation ----

  ghost function SizeSum(bufs: set<Buf>): nat {
    if bufs == {} then 0 else
      var b :| b in bufs;
      |b.data| + SizeSum(bufs - {b})
  }

  lemma {:induction false} SizeOut(bufs: set<Buf>, b: Buf)
    requires b in bufs
    ensures SizeSum(bufs) == |b.data| + SizeSum(bufs - {b})
    decreases bufs
  {
    var a :| a in bufs && SizeSum(bufs) == |a.data| + SizeSum(bufs - {a});
    if a != b {
      SizeOut(bufs - {a}, b);
      SizeOut(bufs - {b}, a);
      assert bufs - {a} - {b} == bufs - {b} - {a};
    }
  }

  lemma {:induction false} HoldingsWeigh(t: FS.Table<PoolKey>, stamps: set<nat>, keys: set<PoolKey>)
    requires keys <= t.Keys
    requires forall s | s in stamps :: Holding(s) in keys && t[Holding(s)].weight == FRAME_OVERHEAD_BYTES
    requires forall k | k in keys :: k.Holding? && k.stamp in stamps
    ensures FS.WeightOf(t, keys) == FRAME_OVERHEAD_BYTES * |stamps|
    decreases stamps
  {
    if stamps == {} {
      assert keys == {};
    } else {
      var s :| s in stamps;
      FS.WeightOut(t, keys, Holding(s));
      HoldingsWeigh(t, stamps - {s}, keys - {Holding(s)});
    }
  }

  lemma {:induction false} NothingWeighs(t: FS.Table<PoolKey>)
    ensures FS.WeightOf(t, {}) == 0 && SizeSum({}) == 0
  {}

  lemma {:induction false} BytesWeigh(t: FS.Table<PoolKey>, ids: BufferOf, names: set<nat>, bufs: set<Buf>,
                                      keys: set<PoolKey>)
    requires keys <= t.Keys && names <= ids.Keys
    requires forall i | i in names :: ids[i] in bufs
    requires forall b | b in bufs :: exists i | i in names :: ids[i] == b
    requires forall i, j | i in names && j in names && ids[i] == ids[j] :: i == j
    requires forall i | i in names && ids[i].data != [] :: Bytes(i) in keys && t[Bytes(i)].weight == |ids[i].data|
    requires forall k | k in keys :: k.Bytes? && k.id in names && ids[k.id].data != []
    ensures FS.WeightOf(t, keys) == SizeSum(bufs)
    decreases names
  {
    hide FS.WeightOf, SizeSum;
    if names == {} {
      NothingWeighs(t);
      assert bufs == {} && keys == {};
    } else {
      var i :| i in names;
      var b := ids[i];
      SizeOut(bufs, b);
      if b.data != [] {
        FS.WeightOut(t, keys, Bytes(i));
      } else {
        assert Bytes(i) !in keys;
        assert keys - {Bytes(i)} == keys;
      }
      forall o | o in bufs - {b} ensures exists j | j in names - {i} :: ids[j] == o {
        var j :| j in names && ids[j] == o;
        assert j in names - {i};
      }
      BytesWeigh(t, ids, names - {i}, bufs - {b}, keys - {Bytes(i)});
    }
  }

  lemma {:induction false} HeldBuffers(bufferOf: BufferOf, shared: SharedBuffers)
    requires HoldersExact(bufferOf, shared)
    ensures bufferOf.Values == shared.Keys
  {
    forall b | b in shared ensures b in bufferOf.Values {
      var s :| s in shared[b].holders;
      assert s in bufferOf && bufferOf[s] == b;
    }
  }

  lemma {:induction false} ChargedTotal(at: Where, ids: BufferOf, bufs: set<Buf>, t: FS.Table<PoolKey>)
    requires Charged(at, ids, t)
    requires forall i | i in ids :: ids[i] in bufs
    requires forall b | b in bufs :: exists i | i in ids.Keys :: ids[i] == b
    requires forall i, j | i in ids && j in ids && ids[i] == ids[j] :: i == j
    ensures FS.Total(t) == FRAME_OVERHEAD_BYTES * |at.Keys| + SizeSum(bufs)
  {
    hide FS.WeightOf, SizeSum;
    var holdings := set k | k in t && k.Holding?;
    var bytes := set k | k in t && k.Bytes?;
    assert t.Keys == holdings + bytes;
    FS.WeightSplit(t, holdings, bytes);
    HoldingsWeigh(t, at.Keys, holdings);
    BytesWeigh(t, ids, ids.Keys, bufs, bytes);
  }

  // What the pool charges is exactly one overhead per frame some ring holds and each
  // distinct buffer's bytes once.
  lemma {:induction false} Conserved(at: Where, bufferOf: BufferOf, shared: SharedBuffers, ids: BufferOf, next: nat,
                                     t: FS.Table<PoolKey>)
    requires HoldersExact(bufferOf, shared) && IdsExact(at, bufferOf, shared, ids, next) && Charged(at, ids, t)
    ensures FS.Total(t) == FRAME_OVERHEAD_BYTES * |at| + SizeSum(bufferOf.Values)
  {
    HeldBuffers(bufferOf, shared);
    hide HoldersExact, Charged, FS.Total, SizeSum;
    forall b | b in shared.Keys ensures exists i | i in ids.Keys :: ids[i] == b {
      assert ids[shared[b].id] == b;
    }
    ChargedTotal(at, ids, shared.Keys, t);
    assert |at.Keys| == |at|;
  }

  // ---- A frame comes ----

  function HeldBy(shared: SharedBuffers, b: Buf, s: nat): SharedBuffers {
    shared[b := if b in shared then shared[b].(holders := shared[b].holders + {s}) else Shared(s, {s})]
  }

  function Named(ids: BufferOf, shared: SharedBuffers, b: Buf, s: nat): BufferOf {
    if b in shared then ids else ids[s := b]
  }

  lemma {:induction false} StampedIds(at: Where, bufferOf: BufferOf, shared: SharedBuffers, ids: BufferOf, s: nat,
                                      peer: string)
    requires IdsExact(at, bufferOf, shared, ids, s) && s !in at && s !in ids && s > 0
    ensures IdsExact(at[s := peer], bufferOf, shared, ids, s)
  {}

  lemma {:induction false} BufferedHolders(bufferOf: BufferOf, shared: SharedBuffers, s: nat, b: Buf)
    requires HoldersExact(bufferOf, shared) && s !in bufferOf
    ensures HoldersExact(bufferOf[s := b], HeldBy(shared, b, s))
  {}

  lemma {:induction false} BufferedIds(at: Where, bufferOf: BufferOf, shared: SharedBuffers, ids: BufferOf, s: nat,
                                       b: Buf)
    requires IdsExact(at, bufferOf, shared, ids, s) && s in at && s !in ids
    ensures IdsExact(at, bufferOf[s := b], HeldBy(shared, b, s), Named(ids, shared, b, s), s)
  {}

  lemma {:induction false} StampedHolding(at: Where, ids: BufferOf, t: FS.Table<PoolKey>, s: nat, peer: string,
                                          e: FS.Entry)
    requires Charged(at, ids, t) && e.weight == FRAME_OVERHEAD_BYTES
    ensures Charged(at[s := peer], ids, t[Holding(s) := e])
  {}

  lemma {:induction false} StampedBytes(at: Where, ids: BufferOf, t: FS.Table<PoolKey>, s: nat, b: Buf, e: FS.Entry)
    requires Charged(at, ids, t) && s !in ids && e.weight == |b.data|
    ensures Charged(at, ids[s := b], if b.data == [] then t else t[Bytes(s) := e])
  {}

  // What the table charges once a frame is stamped: its holding to the ring's own share
  // and, unless some ring holds the buffer already, the buffer's bytes to the sender's.
  ghost function WithStamp(t: FS.Table<PoolKey>, tick: nat, s: nat, holder: nat, sender: nat, buffer: Option<Buf>,
                           held: set<Buf>): FS.Table<PoolKey>
  {
    var charged := t[Holding(s) := FS.Entry(holder, FRAME_OVERHEAD_BYTES, tick + 1)];
    if buffer.None? || buffer.value in held || buffer.value.data == [] then charged
    else charged[Bytes(s) := FS.Entry(sender, |buffer.value.data|, tick + 2)]
  }

  // ---- A frame goes ----

  // `u` is `t` with some entries gone.
  ghost predicate Part<K, V>(u: map<K, V>, t: map<K, V>) {
    forall k | k in u :: k in t && u[k] == t[k]
  }

  function LetGo(shared: SharedBuffers, b: Buf, s: nat): SharedBuffers
    requires b in shared
  {
    if shared[b].holders - {s} == {} then shared - {b}
    else shared[b := shared[b].(holders := shared[b].holders - {s})]
  }

  function Unnamed(ids: BufferOf, shared: SharedBuffers, b: Buf, s: nat): BufferOf
    requires b in shared
  {
    if shared[b].holders - {s} == {} then ids - {shared[b].id} else ids
  }

  lemma {:induction false} ForgottenHolders(bufferOf: BufferOf, shared: SharedBuffers, s: nat)
    requires HoldersExact(bufferOf, shared) && s in bufferOf
    ensures HoldersExact(bufferOf - {s}, LetGo(shared, bufferOf[s], s))
  {}

  lemma {:induction false} ForgottenIds(at: Where, bufferOf: BufferOf, shared: SharedBuffers, ids: BufferOf, next: nat,
                                        s: nat)
    requires HoldersExact(bufferOf, shared) && IdsExact(at, bufferOf, shared, ids, next) && s in bufferOf && s !in at
    ensures IdsExact(at, bufferOf - {s}, LetGo(shared, bufferOf[s], s), Unnamed(ids, shared, bufferOf[s], s), next)
  {}

  lemma {:induction false} FewerIds(at: Where, bufferOf: BufferOf, shared: SharedBuffers, ids: BufferOf, next: nat,
                                    s: nat)
    requires IdsExact(at, bufferOf, shared, ids, next)
    ensures IdsExact(at - {s}, bufferOf, shared, ids, next)
  {}

  lemma {:induction false} ForgottenHolding(at: Where, ids: BufferOf, t: FS.Table<PoolKey>, s: nat,
                                            u: FS.Table<PoolKey>)
    requires Charged(at, ids, t) && FS.Without(t, Holding(s), u)
    ensures Charged(at - {s}, ids, u)
  {}

  lemma {:induction false} ForgottenBytes(at: Where, ids: BufferOf, t: FS.Table<PoolKey>, i: nat, u: FS.Table<PoolKey>)
    requires Charged(at, ids, t) && FS.Without(t, Bytes(i), u)
    ensures Charged(at, ids - {i}, u)
  {}

  class OfflineIndex {
    var nextSeq: nat
    const rings: FS.FairShare<PoolKey>
    var at: Where
    var shared: SharedBuffers
    var bufferOf: BufferOf
    var bufferOfId: BufferOf
    var ringFrames: nat

    ghost predicate Valid()
      reads this, rings
    {
      && rings.Valid()
      && bufferOf.Keys <= at.Keys
      && HoldersExact(bufferOf, shared)
      && IdsExact(at, bufferOf, shared, bufferOfId, nextSeq)
      && Charged(at, bufferOfId, rings.entries)
      && ringFrames == |at|
    }

    constructor ()
      ensures Valid() && fresh(rings) && at == map[] && bufferOf == map[]
    {
      nextSeq, at, shared, bufferOf, bufferOfId, ringFrames := 0, map[], map[], map[], map[], 0;
      rings := new FS.FairShare<PoolKey>();
    }

    // The live total of the rings' pool.
    function RingBytes(): nat
      reads this, rings
    {
      rings.total
    }

    lemma {:induction false} RingBytesExact()
      requires Valid()
      ensures RingBytes() == FRAME_OVERHEAD_BYTES * |at| + SizeSum(bufferOf.Values)
    {
      hide HoldersExact, IdsExact, Charged;
      Conserved(at, bufferOf, shared, bufferOfId, nextSeq, rings.entries);
    }

    // A frame in `peer`'s ring, its holding charged to `holder` and, for the first ring
    // that holds its buffer, the bytes to `sender`.
    method StampSession(peer: string, holder: nat, sender: nat, buffer: Option<Buf>) returns (seq0: nat)
      requires Valid()
      modifies this, rings
      ensures Valid()
      ensures seq0 == old(nextSeq) + 1 && nextSeq == seq0 && seq0 !in old(at)
      ensures at == old(at)[seq0 := peer]
      ensures bufferOf == if buffer.Some? then old(bufferOf)[seq0 := buffer.value] else old(bufferOf)
      ensures rings.entries == WithStamp(old(rings.entries), old(rings.tick), seq0, holder, sender, buffer,
                                         old(bufferOf).Values)
    {
      hide OfflineIndex.Valid;
      seq0 := StampHolding(peer, holder);
      if buffer.Some? { StampBuffer(seq0, sender, buffer.value); }
    }

    // The frame's holding, under a new stamp.
    method StampHolding(peer: string, holder: nat) returns (s: nat)
      requires Valid()
      modifies this, rings
      ensures Valid()
      ensures s == old(nextSeq) + 1 && nextSeq == s && s !in old(at) && s !in bufferOf && s !in bufferOfId
      ensures at == old(at)[s := peer] && bufferOf == old(bufferOf)
      ensures rings.entries ==
              old(rings.entries)[Holding(s) := FS.Entry(holder, FRAME_OVERHEAD_BYTES, old(rings.tick) + 1)]
      ensures rings.tick == old(rings.tick) + 1
    {
      hide HoldersExact, IdsExact, Charged, FS.FairShare.Valid;
      Bounds(at, bufferOf, shared, bufferOfId, nextSeq);
      nextSeq := nextSeq + 1;
      s := nextSeq;
      StampedIds(at, bufferOf, shared, bufferOfId, s, peer);
      ghost var e := FS.Entry(holder, FRAME_OVERHEAD_BYTES, rings.tick + 1);
      StampedHolding(at, bufferOfId, rings.entries, s, peer, e);
      at := at[s := peer];
      rings.Put(Holding(s), holder, FRAME_OVERHEAD_BYTES);
      ringFrames := ringFrames + 1;
    }

    // The frame's buffer, charged unless some ring holds it already.
    method StampBuffer(s: nat, sender: nat, b: Buf)
      requires Valid() && s == nextSeq && s in at && s !in bufferOf && s !in bufferOfId
      modifies this`shared, this`bufferOf, this`bufferOfId, rings
      ensures Valid() && bufferOf == old(bufferOf)[s := b]
      ensures rings.entries ==
              if b in old(bufferOf).Values || b.data == [] then old(rings.entries)
              else old(rings.entries)[Bytes(s) := FS.Entry(sender, |b.data|, old(rings.tick) + 1)]
    {
      hide HoldersExact, IdsExact, Charged, FS.FairShare.Valid, HeldBy;
      var known := b in shared;
      assert known <==> b in bufferOf.Values by { HeldBuffers(bufferOf, shared); }
      BufferedHolders(bufferOf, shared, s, b);
      BufferedIds(at, bufferOf, shared, bufferOfId, s, b);
      if !known {
        StampedBytes(at, bufferOfId, rings.entries, s, b, FS.Entry(sender, |b.data|, rings.tick + 1));
        if b.data != [] { rings.Put(Bytes(s), sender, |b.data|); }
        bufferOfId := bufferOfId[s := b];
      }
      shared := HeldBy(shared, b, s);
      bufferOf := bufferOf[s := b];
    }

    // A ring let its frame `s` go.
    method Forget(s: nat)
      requires Valid()
      modifies this, rings
      ensures Valid() && nextSeq == old(nextSeq)
      ensures at == old(at) - {s} && bufferOf == old(bufferOf) - {s}
      ensures s in old(at) ==> RingBytes() < old(RingBytes())
      ensures s !in old(at) ==> RingBytes() == old(RingBytes())
      ensures Part(rings.entries, old(rings.entries)) && Part(bufferOfId, old(bufferOfId))
    {
      hide HoldersExact, IdsExact, Charged, FS.FairShare.Valid;
      if s !in at {
        MinusAbsent(at, s);
        MinusAbsent(bufferOf, s);
        return;
      }
      if s !in bufferOf { NeverNamed(at, bufferOf, shared, bufferOfId, nextSeq, s); }
      DropHolding(s);
      if s in bufferOf {
        DropBuffer(s);
      } else {
        ghost var t := rings.entries;
        NotCharged(at, bufferOfId, t, s);
        TableTotal(rings);
        var _ := rings.Remove(Bytes(s));
        TableTotal(rings);
        WithoutAbsent(t, Bytes(s), rings.entries);
        MinusAbsent(bufferOf, s);
      }
    }

    method DropHolding(s: nat)
      requires Valid() && s in at
      modifies this`at, this`ringFrames, rings
      ensures rings.Valid() && at == old(at) - {s} && ringFrames == |at|
      ensures IdsExact(at, bufferOf, shared, bufferOfId, nextSeq) && Charged(at, bufferOfId, rings.entries)
      ensures RingBytes() < old(RingBytes()) && Part(rings.entries, old(rings.entries))
    {
      hide HoldersExact, IdsExact, FS.FairShare.Valid;
      FewerIds(at, bufferOf, shared, bufferOfId, nextSeq, s);
      ghost var t := rings.entries;
      assert Holding(s) in t && t[Holding(s)].weight == FRAME_OVERHEAD_BYTES;
      hide Charged;
      TableTotal(rings);
      var _ := rings.Remove(Holding(s));
      TableTotal(rings);
      ForgottenHolding(at, bufferOfId, t, s, rings.entries);
      FS.WithoutTotal(t, Holding(s), rings.entries);
      at := at - {s};
      ringFrames := ringFrames - 1;
    }

    method DropBuffer(s: nat)
      requires rings.Valid() && s in bufferOf && s !in at && HoldersExact(bufferOf, shared)
      requires IdsExact(at, bufferOf, shared, bufferOfId, nextSeq) && Charged(at, bufferOfId, rings.entries)
      modifies this`shared, this`bufferOf, this`bufferOfId, rings
      ensures rings.Valid() && HoldersExact(bufferOf, shared) && bufferOf == old(bufferOf) - {s}
      ensures IdsExact(at, bufferOf, shared, bufferOfId, nextSeq) && Charged(at, bufferOfId, rings.entries)
      ensures RingBytes() <= old(RingBytes())
      ensures Part(rings.entries, old(rings.entries)) && Part(bufferOfId, old(bufferOfId))
    {
      hide IdsExact, Charged, FS.FairShare.Valid;
      ForgottenHolders(bufferOf, shared, s);
      ForgottenIds(at, bufferOf, shared, bufferOfId, nextSeq, s);
      var b := bufferOf[s];
      if shared[b].holders - {s} == {} {
        ghost var t := rings.entries;
        var id := shared[b].id;
        TableTotal(rings);
        var _ := rings.Remove(Bytes(id));
        TableTotal(rings);
        ForgottenBytes(at, bufferOfId, t, id, rings.entries);
        if Bytes(id) in t {
          FS.WithoutTotal(t, Bytes(id), rings.entries);
        } else {
          WithoutAbsent(t, Bytes(id), rings.entries);
        }
        bufferOfId := bufferOfId - {id};
      }
      shared := LetGo(shared, b, s);
      bufferOf := bufferOf - {s};
    }

    // A holding answers for its own stamp; a buffer's bytes for exactly the stamps that hold
    // that buffer, each once.
    method FramesOf(key: PoolKey) returns (stamps: seq<nat>)
      requires Valid() && key in rings.entries
      ensures key.Holding? ==> stamps == [key.stamp] && key.stamp in at
      ensures key.Bytes? ==>
                && key.id in bufferOfId && stamps != []
                && (forall i, j | 0 <= i < j < |stamps| :: stamps[i] != stamps[j])
                && (forall s :: s in stamps <==> s in bufferOf && bufferOf[s] == bufferOfId[key.id])
                && (forall s | s in stamps :: s in at)
    {
      hide FS.FairShare.Valid, HoldersExact, IdsExact, Charged;
      KeyStandsFor(at, bufferOf, shared, bufferOfId, nextSeq, rings.entries, key);
      if key.Holding? { return [key.stamp]; }
      var holders := shared[bufferOfId[key.id]].holders;
      ghost var all := holders;
      stamps := [];
      while holders != {}
        invariant holders <= all
        invariant forall s :: s in all <==> s in holders || s in stamps
        invariant forall i, j | 0 <= i < j < |stamps| :: stamps[i] != stamps[j]
        invariant forall s | s in stamps :: s !in holders
        decreases holders
      {
        var s :| s in holders;
        stamps := stamps + [s];
        holders := holders - {s};
      }
      assert forall s :: s in all <==> s in stamps;
      ghost var s0 :| s0 in all;
      assert stamps != [];
    }
  }

  lemma {:induction false} MinusAbsent<K, V>(m: map<K, V>, k: K)
    requires k !in m
    ensures m - {k} == m
  {}

  lemma {:induction false} WithoutAbsent(t: FS.Table<PoolKey>, k: PoolKey, u: FS.Table<PoolKey>)
    requires FS.Without(t, k, u) && k !in t
    ensures u == t
  {
    assert u.Keys == t.Keys;
  }

  // The table's total is what its entries weigh.
  lemma {:induction false} TableTotal(rings: FS.FairShare<PoolKey>)
    requires rings.Valid()
    ensures rings.total == FS.Total(rings.entries)
  {}

  // What a key of the table names.
  lemma {:induction false} KeyStandsFor(at: Where, bufferOf: BufferOf, shared: SharedBuffers, ids: BufferOf, next: nat,
                                        t: FS.Table<PoolKey>, key: PoolKey)
    requires HoldersExact(bufferOf, shared) && IdsExact(at, bufferOf, shared, ids, next) && Charged(at, ids, t)
    requires key in t && bufferOf.Keys <= at.Keys
    ensures key.Holding? ==> key.stamp in at
    ensures key.Bytes? ==>
              && key.id in ids && ids[key.id] in shared && shared[ids[key.id]].holders != {}
              && (forall s :: s in shared[ids[key.id]].holders <==> s in bufferOf && bufferOf[s] == ids[key.id])
  {}

  lemma {:induction false} NotCharged(at: Where, ids: BufferOf, t: FS.Table<PoolKey>, i: nat)
    requires Charged(at, ids, t) && i !in ids
    ensures Bytes(i) !in t
  {}

  lemma {:induction false} Bounds(at: Where, bufferOf: BufferOf, shared: SharedBuffers, ids: BufferOf, next: nat)
    requires IdsExact(at, bufferOf, shared, ids, next)
    ensures forall s | s in at :: 0 < s <= next
    ensures forall i | i in ids :: 0 < i <= next
    ensures IdsExact(at, bufferOf, shared, ids, next + 1)
  {}

  // A frame without a buffer names no live one.
  lemma {:induction false} NeverNamed(at: Where, bufferOf: BufferOf, shared: SharedBuffers, ids: BufferOf, next: nat,
                                      s: nat)
    requires IdsExact(at, bufferOf, shared, ids, next) && s in at && s !in bufferOf
    ensures s !in ids
  {}
}
