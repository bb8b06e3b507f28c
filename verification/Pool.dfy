// relay-uws/src/session_bounds.h: what changes a session's ring also settles the pool's
// index, so that the two agree over all sessions and the pool keeps to its budget.
module Pools {
  import opened Base
  import opened Streams
  import opened Rings
  import opened OfflineIndexes
  import opened Matching
  import FS = FairShares

  const RING_MAX_BYTES: nat := 8 * 1024 * 1024
  const RING_MAX_FRAMES: nat := 4096

  datatype Session = Session(ring: Ring, share: nat)

  // What a push dropped: the ring's own victims, then the pool's turns.
  datatype Pushing = Pushing(stamp: nat, victims: seq<nat>, run: seq<Charges>, keys: seq<PoolKey>)

  // The ring of `peer` took `m`, lost its victims while past its own limits and no more;
  // then the pool took its turns while past its budget and no more.
  ghost predicate MadeRoom(pushing: Pushing, views: Matching.Rings, peer: string, m: Msg, budget: nat)
    requires peer in views
  {
    && PoolRun(pushing.run, pushing.keys, budget) && peer in pushing.run[0].rings
    && var within := pushing.run[0].rings[peer];
       && Evicted(Pushed(views[peer], m.(stamp := pushing.stamp)), pushing.victims, within, RING_MAX_BYTES,
                  RING_MAX_FRAMES)
       && !Over(within, RING_MAX_BYTES, RING_MAX_FRAMES)
       && pushing.run[0].rings == views[peer := within]
  }

  lemma {:induction false} RoomMade(pushing: Pushing, views: Matching.Rings, peer: string, m: Msg, budget: nat,
                                    within: Matching.Rings)
    requires peer in views && peer in within && PoolRun(pushing.run, pushing.keys, budget)
    requires pushing.run[0].rings == within == views[peer := within[peer]]
    requires Evicted(Pushed(views[peer], m.(stamp := pushing.stamp)), pushing.victims, within[peer], RING_MAX_BYTES,
                     RING_MAX_FRAMES)
    requires !Over(within[peer], RING_MAX_BYTES, RING_MAX_FRAMES)
    ensures MadeRoom(pushing, views, peer, m, budget)
  {
    hide Evicted, Over;
  }

  // A frame that fits beside what is held costs nobody anything.
  lemma {:induction false} RoomCostsNothing(pushing: Pushing, views: Matching.Rings, peer: string, m: Msg, budget: nat)
    requires peer in views && MadeRoom(pushing, views, peer, m, budget)
    requires !Over(Pushed(views[peer], m.(stamp := pushing.stamp)), RING_MAX_BYTES, RING_MAX_FRAMES)
    requires FS.Total(pushing.run[0].table) <= budget
    ensures pushing.run[|pushing.keys|].rings == views[peer := Pushed(views[peer], m.(stamp := pushing.stamp))]
  {
    hide Over, FS.Total, GivesWay, IsVictim;
    assert pushing.keys == [] && pushing.victims == [];
  }

  class Relay {
    var sessions: map<string, Session>
    const ix: OfflineIndex
    var ringBudget: nat

    ghost function RingSet(): set<Ring>
      reads this
    {
      set p | p in sessions :: sessions[p].ring
    }

    // What every session's ring holds.
    ghost function Views(): Matching.Rings
      reads this, RingSet()
    {
      map p | p in sessions :: sessions[p].ring.State()
    }

    // The rings are whole and no two sessions share one.
    ghost predicate RingsValid()
      reads this, RingSet()
    {
      && (forall p | p in sessions :: sessions[p].ring.Valid())
      && (forall p, q | p in sessions && q in sessions && p != q :: sessions[p].ring != sessions[q].ring)
    }

    ghost predicate ValidBut(extra: set<nat>)
      reads this, RingSet(), ix, ix.rings
    {
      RingsValid() && ix.Valid() && MatchedBut(Views(), ix.at, ix.bufferOf, extra)
    }

    ghost predicate Valid()
      reads this, RingSet(), ix, ix.rings
    {
      ValidBut({})
    }

    constructor (budget: nat)
      ensures Valid() && sessions == map[] && ringBudget == budget
    {
      sessions, ringBudget := map[], budget;
      ix := new OfflineIndex();
    }

    ghost function Now(): Charges
      reads this, RingSet(), ix, ix.rings
    {
      Charges(Views(), ix.at, ix.bufferOfId, ix.rings.entries)
    }

    // What the pool charges, in terms of the rings alone: an overhead for every frame some
    // ring keeps, and every distinct buffer among them once.
    lemma {:induction false} PoolExact()
      requires Valid()
      ensures ix.RingBytes() == 1024 * |KeptFrames(Views())| + SizeSum(HeldBuffersOf(Views()))
      ensures ix.ringFrames == |KeptFrames(Views())|
    {
      ix.RingBytesExact();
      MatchedCounts(Views(), ix.at, ix.bufferOf);
    }

    // Every frame of `dropped` has left its ring: the index lets each go.
    method ForgetAll(dropped: seq<Msg>)
      requires ValidBut(StampsOf(dropped))
      modifies ix, ix.rings
      ensures Valid() && Views() == old(Views())
      ensures ix.RingBytes() <= old(ix.RingBytes())
      ensures (exists m | m in dropped :: m.stamp in old(ix.at)) ==> ix.RingBytes() < old(ix.RingBytes())
      ensures Part(ix.rings.entries, old(ix.rings.entries))
    {
      hide MatchedBut, OfflineIndex.Valid, Ring.Valid, Ring.State, OfflineIndex.RingBytes;
      ghost var extra, views := StampsOf(dropped), Views();
      for i := 0 to |dropped|
        invariant RingsValid() && ix.Valid() && Views() == views
        invariant MatchedBut(views, ix.at, ix.bufferOf, extra)
        invariant forall j | 0 <= j < i :: dropped[j].stamp !in ix.at
        invariant ix.at.Keys <= old(ix.at.Keys)
        invariant ix.RingBytes() <= old(ix.RingBytes()) && Part(ix.rings.entries, old(ix.rings.entries))
        invariant (exists j | 0 <= j < i :: dropped[j].stamp in old(ix.at)) ==> ix.RingBytes() < old(ix.RingBytes())
        invariant forall s | s in old(ix.at) && s !in ix.at :: exists j | 0 <= j < i :: dropped[j].stamp == s
      {
        var s := dropped[i].stamp;
        assert dropped[i] in dropped;
        Forgotten(views, ix.at, ix.bufferOf, extra, s);
        ix.Forget(s);
        assert Views() == views;
      }
      Settled(views, ix.at, ix.bufferOf, extra);
    }

    // Only the ring of `peer` has changed.
    twostate lemma {:induction false} OneRing(peer: string)
      requires old(RingsValid()) && sessions == old(sessions) && peer in sessions
      requires forall p | p in sessions && p != peer :: unchanged(sessions[p].ring)
      requires sessions[peer].ring.Valid()
      ensures RingsValid() && Views() == old(Views())[peer := sessions[peer].ring.State()]
    {
      hide Ring.Valid, Ring.State;
    }

    // The ring of `peer` is acked through `h`, and what that dropped is no longer charged.
    method RingAck(peer: string, h: nat) returns (ok: bool)
      requires Valid() && peer in sessions
      modifies sessions[peer].ring, ix, ix.rings
      ensures Valid()
      ensures ok == old(Views())[peer].CanResumeFrom(h)
      ensures Views() == old(Views())[peer := Acked(old(Views())[peer], h)]
      ensures ix.RingBytes() <= old(ix.RingBytes())
    {
      hide MatchedBut, OfflineIndex.Valid, Ring.Valid, Ring.State, OfflineIndex.RingBytes, RingsValid, Acked;
      ghost var views := Views();
      var dropped;
      ok, dropped := AckRing(peer, h);
      ForgetAll(dropped);
    }

    method AckRing(peer: string, h: nat) returns (ok: bool, dropped: seq<Msg>)
      requires Valid() && peer in sessions
      modifies sessions[peer].ring
      ensures ValidBut(StampsOf(dropped))
      ensures ok == old(Views())[peer].CanResumeFrom(h)
      ensures Views() == old(Views())[peer := Acked(old(Views())[peer], h)]
    {
      hide MatchedBut, OfflineIndex.Valid, Ring.Valid, Ring.State;
      ghost var views := Views();
      var ring := sessions[peer].ring;
      ok, dropped := ring.Ack(h);
      OneRing(peer);
      if ok {
        AckLoses(views[peer], h);
      } else {
        NothingLost(views[peer]);
      }
      hide RingsValid;
      Shrink(views, ix.at, ix.bufferOf, peer, Acked(views[peer], h), StampsOf(dropped));
    }

    // The session of `peer` ends: every real frame, oldest first, out of the pool.
    method RingTakeAll(peer: string) returns (out: seq<Msg>)
      requires Valid() && peer in sessions
      modifies sessions[peer].ring, ix, ix.rings
      ensures Valid()
      ensures out == Messages(old(Views())[peer].slots)
      ensures Views() == old(Views())[peer := Stream(old(Views())[peer].Sent(), [])]
      ensures ix.RingBytes() <= old(ix.RingBytes())
    {
      hide MatchedBut, OfflineIndex.Valid, Ring.Valid, Ring.State, OfflineIndex.RingBytes;
      ghost var views := Views();
      out := sessions[peer].ring.TakeAll();
      OneRing(peer);
      TakeAllLoses(views[peer]);
      hide RingsValid;
      Shrink(views, ix.at, ix.bufferOf, peer, Stream(views[peer].Sent(), []), StampsOf(out));
      ForgetAll(out);
    }

    // The frame charged as `s` was picked by the budget: out of the index and buried.
    method Release(s: nat)
      requires Valid() && s in ix.at
      modifies RingSet(), ix, ix.rings
      ensures Valid() && Views() == PurgedAll(old(Views()), {s})
      ensures ix.at == old(ix.at) - {s} && ix.RingBytes() < old(ix.RingBytes())
      ensures Part(ix.rings.entries, old(ix.rings.entries)) && Part(ix.bufferOfId, old(ix.bufferOfId))
    {
      hide MatchedBut, OfflineIndex.Valid, Ring.Valid, Ring.State, OfflineIndex.RingBytes, OneEach, PurgedAll, Part;
      ghost var views := Views();
      var peer := ix.at[s];
      ghost var n := CarriedAt(views, ix.at, ix.bufferOf, s);
      assert s > 0 by { StampsPositive(ix, s); }
      assert IsStamped(views[peer], s, n);
      ghost var at, bufferOf := ix.at, ix.bufferOf;
      ix.Forget(s);
      assert sessions[peer].ring.State() == views[peer];
      var found, num := sessions[peer].ring.EvictStamp(s);
      OneRing(peer);
      hide RingsValid;
      Dropped(views, at, bufferOf, peer, num);
      PurgedOne(views, at, bufferOf, peer, num);
    }

    // The ring of `peer`, holding the frame charged as `s`, loses its own next victim, and
    // no other ring anything.
    method EvictFrom(peer: string, ghost s: nat) returns (ghost num: nat)
      requires Valid() && s in ix.at && ix.at[s] == peer
      modifies RingSet(), ix, ix.rings
      ensures Valid() && peer in old(Views()) && IsVictim(old(Views())[peer], num)
      ensures Views() == old(Views())[peer := Buried(old(Views())[peer], num)]
      ensures ix.RingBytes() < old(ix.RingBytes())
      ensures Part(ix.rings.entries, old(ix.rings.entries)) && Part(ix.bufferOfId, old(ix.bufferOfId))
      ensures Part(ix.at, old(ix.at))
    {
      hide MatchedBut, OfflineIndex.Valid, Ring.Valid, Ring.State, OfflineIndex.RingBytes;
      ghost var views := Views();
      ghost var n := CarriedAt(views, ix.at, ix.bufferOf, s);
      assert views[peer].KeptBy(n, views[peer].At(n).msg.share);
      ghost var at, bufferOf := ix.at, ix.bufferOf;
      var dropped;
      dropped, num := sessions[peer].ring.EvictOne();
      OneRing(peer);
      hide RingsValid;
      Dropped(views, at, bufferOf, peer, num);
      ix.Forget(dropped.value.stamp);
      assert Views() == views[peer := Buried(views[peer], num)];
    }

    // Every turn of the pool is taken while it is past its budget, and falls on the table's
    // victim; it ends within. Every key the table can name is answered for, so each turn
    // frees something.
    method BuryOverPool() returns (ghost run: seq<Charges>, ghost keys: seq<PoolKey>)
      requires Valid()
      modifies RingSet(), ix, ix.rings
      ensures Valid() && PoolRun(run, keys, ringBudget) && run[0] == old(Now()) && run[|keys|] == Now()
      ensures AllThinned(old(Views()), Views())
      ensures ix.RingBytes() <= ringBudget && ix.RingBytes() <= old(ix.RingBytes())
      ensures old(ix.RingBytes()) <= ringBudget ==> Now() == old(Now())
    {
      hide MatchedBut, OfflineIndex.Valid, Ring.Valid, Ring.State, RingsValid, Thinned, PoolRun, GivesWay;
      run, keys := [Now()], [];
      assert AllThinned(Views(), Views()) by { ThinnedSelf(Views()); }
      assert PoolRun(run, keys, ringBudget) by { NoTurns(Now(), ringBudget); }
      while ix.RingBytes() > ringBudget
        invariant sessions == old(sessions) && Valid() && AllThinned(old(Views()), Views())
        invariant |run| == |keys| + 1 && PoolRun(run, keys, ringBudget) && run[0] == old(Now()) && run[|keys|] == Now()
        invariant ix.RingBytes() <= old(ix.RingBytes())
        invariant old(ix.RingBytes()) <= ringBudget ==> keys == []
        decreases ix.RingBytes()
      {
        ghost var was := Now();
        TableValid(ix);
        var key := GiveWay();
        ThinnedTrans(old(Views()), was.rings, Views());
        PoolRunMore(run, keys, ringBudget, key, Now());
        run, keys := run + [Now()], keys + [key];
      }
    }

    // One turn: the table's victim gives way.
    method GiveWay() returns (ghost key: PoolKey)
      requires Valid() && ix.RingBytes() > 0
      modifies RingSet(), ix, ix.rings
      ensures Valid() && GivesWay(old(Now()), Now(), key) && AllThinned(old(Views()), Views())
      ensures ix.RingBytes() < old(ix.RingBytes())
    {
      hide MatchedBut, OfflineIndex.Valid, Ring.Valid, Ring.State, RingsValid, AllThinned, WithoutBuffer, GivesWay,
           Part, IsVictim, FS.IsVictim;
      var k := NextKey();
      key := k;
      if k.Bytes? { BytesGo(k); } else { RingTurn(k); }
    }

    // Whose turn it is: the table's victim, which the index answers for.
    method NextKey() returns (key: PoolKey)
      requires ix.Valid() && ix.RingBytes() > 0
      ensures FS.IsVictim(ix.rings.entries, key) && key in ix.rings.entries && (key.Holding? ==> key.stamp in ix.at)
    {
      hide OfflineIndex.Valid, FS.FairShare.Valid, FS.IsVictim;
      TableValid(ix);
      var v := ix.rings.Victim();
      if v.None? {
        NothingCharged(ix);
        assert false;
      }
      KeyAnswered(ix, v.value);
      return v.value;
    }

    // A buffer's bytes give way: every ring loses the frames that hold it.
    method BytesGo(key: PoolKey)
      requires Valid() && key.Bytes? && key in ix.rings.entries && FS.IsVictim(ix.rings.entries, key)
      modifies RingSet(), ix, ix.rings
      ensures Valid() && GivesWay(old(Now()), Now(), key) && AllThinned(old(Views()), Views())
      ensures ix.RingBytes() < old(ix.RingBytes())
    {
      hide MatchedBut, OfflineIndex.Valid, Ring.Valid, Ring.State, RingsValid, AllThinned, WithoutBuffer, GivesWay,
           Part, IsVictim, FS.IsVictim;
      BuryBuffer(key);
      BytesTurn(old(Now()), Now(), key);
    }

    // A holding gives way: its ring loses a frame.
    method RingTurn(key: PoolKey)
      requires Valid() && key.Holding? && key.stamp in ix.at && FS.IsVictim(ix.rings.entries, key)
      modifies RingSet(), ix, ix.rings
      ensures Valid() && GivesWay(old(Now()), Now(), key) && AllThinned(old(Views()), Views())
      ensures ix.RingBytes() < old(ix.RingBytes())
    {
      hide MatchedBut, OfflineIndex.Valid, Ring.Valid, Ring.State, RingsValid, AllThinned, WithoutBuffer, GivesWay,
           Part, IsVictim, FS.IsVictim;
      ghost var num := EvictFrom(ix.at[key.stamp], key.stamp);
      HoldingTurn(old(Now()), Now(), key, num);
    }

    // No ring keeps a frame with the named buffer any more; every other frame is untouched.
    method BuryBuffer(key: PoolKey)
      requires Valid() && key.Bytes? && key in ix.rings.entries
      modifies RingSet(), ix, ix.rings
      ensures Valid() && key.id in old(ix.bufferOfId)
      ensures Views() == WithoutBuffer(old(Views()), old(ix.bufferOfId[key.id])) && AllThinned(old(Views()), Views())
      ensures ix.RingBytes() < old(ix.RingBytes())
      ensures Part(ix.rings.entries, old(ix.rings.entries)) && Part(ix.bufferOfId, old(ix.bufferOfId))
      ensures Part(ix.at, old(ix.at))
    {
      hide MatchedBut, OfflineIndex.Valid, Ring.Valid, Ring.State, RingsValid, OfflineIndex.RingBytes, Thinned,
           PurgedAll, WithoutBuffer;
      ghost var views, at, bufferOf := Views(), ix.at, ix.bufferOf;
      var stamps := ix.FramesOf(key);
      PurgedNone(views);
      ghost var gone := {};
      for i := 0 to |stamps|
        invariant sessions == old(sessions) && Valid() && Views() == PurgedAll(views, gone)
        invariant forall s :: s in gone <==> s in stamps[..i]
        invariant ix.at == at - gone
        invariant Part(ix.rings.entries, old(ix.rings.entries)) && Part(ix.bufferOfId, old(ix.bufferOfId))
        invariant if i == 0 then ix.RingBytes() == old(ix.RingBytes()) else ix.RingBytes() < old(ix.RingBytes())
      {
        assert stamps[i] !in gone && stamps[i] in stamps;
        PurgedMore(views, gone, stamps[i]);
        Release(stamps[i]);
        gone := gone + {stamps[i]};
        assert stamps[..i + 1] == stamps[..i] + [stamps[i]];
        assert ix.at == at - gone;
      }
      assert stamps[..|stamps|] == stamps;
      PurgedBuffer(views, at, bufferOf, old(ix.bufferOfId[key.id]), gone);
      PurgedThins(views, gone);
    }

    // Charge `m` to the pool and keep it in the ring of `peer`.
    method ChargeAndPush(peer: string, m: Msg) returns (n: nat, ghost stamp: nat)
      requires Valid() && peer in sessions
      modifies sessions[peer].ring, ix, ix.rings
      ensures Valid()
      ensures n == old(Views())[peer].Sent() + 1
      ensures Views() == old(Views())[peer := Pushed(old(Views())[peer], m.(stamp := stamp))]
      ensures ix.rings.entries == WithStamp(old(ix.rings.entries), old(ix.rings.tick), stamp, sessions[peer].share,
                                            m.share, m.bytes, old(ix.bufferOf).Values)
    {
      hide MatchedBut, OfflineIndex.Valid, Ring.Valid, Ring.State, WithStamp;
      ghost var views, at, bufferOf := Views(), ix.at, ix.bufferOf;
      BuffersKnown(ix);
      var s := ix.StampSession(peer, sessions[peer].share, m.share, m.bytes);
      stamp := s;
      var f := m.(stamp := s);
      Grown(views, at, bufferOf, peer, f);
      assert sessions[peer].ring.State() == views[peer];
      n := sessions[peer].ring.Push(f);
      OneRing(peer);
    }

    // Past its own caps the ring of `peer` buries the heaviest sender's oldest frames, and
    // only then.
    method EnforceRing(peer: string) returns (ghost victims: seq<nat>)
      requires Valid() && peer in sessions
      modifies sessions[peer].ring, ix, ix.rings
      ensures Valid()
      ensures Views() == old(Views())[peer := Views()[peer]] && AllThinned(old(Views()), Views())
      ensures Evicted(old(Views())[peer], victims, Views()[peer], RING_MAX_BYTES, RING_MAX_FRAMES)
      ensures !Over(Views()[peer], RING_MAX_BYTES, RING_MAX_FRAMES)
      ensures Part(ix.rings.entries, old(ix.rings.entries))
    {
      hide MatchedBut, OfflineIndex.Valid, Ring.Valid, Ring.State, OfflineIndex.RingBytes, Total, Evicted, Over;
      ghost var views := Views();
      var dropped;
      dropped, victims := sessions[peer].ring.Enforce(RING_MAX_BYTES, RING_MAX_FRAMES);
      OneRing(peer);
      hide RingsValid;
      ghost var st := sessions[peer].ring.State();
      EvictedLoses(views[peer], victims, st, RING_MAX_BYTES, RING_MAX_FRAMES);
      EvictedThins(views[peer], victims, st, RING_MAX_BYTES, RING_MAX_FRAMES);
      OneThinned(views, peer, st);
      Shrink(views, ix.at, ix.bufferOf, peer, st, StampsOf(dropped));
      ForgetAll(dropped);
    }

    // `m` takes the next number of `peer`: as a gap if no ring may hold it, else kept and
    // charged. `pushing` tells what went to make room, and that nothing went without need.
    method RingPush(peer: string, m: Msg) returns (n: nat, ghost pushing: Pushing)
      requires Valid() && peer in sessions
      modifies RingSet(), ix, ix.rings
      ensures Valid()
      ensures n == old(Views())[peer].Sent() + 1
      ensures m.Size() > 8_388_608 ==>
                Views() == old(Views())[peer := PushedGap(old(Views())[peer])] && ix.RingBytes() == old(ix.RingBytes())
      ensures m.Size() <= 8_388_608 ==>
                && MadeRoom(pushing, old(Views()), peer, m, ringBudget) && pushing.run[|pushing.keys|] == Now()
                && Part(pushing.run[0].table,
                        WithStamp(old(ix.rings.entries), old(ix.rings.tick), pushing.stamp, sessions[peer].share,
                                  m.share, m.bytes, old(ix.bufferOf).Values))
                && ix.RingBytes() <= ringBudget && !Over(Views()[peer], 8_388_608, 4096)
    {
      hide MatchedBut, OfflineIndex.Valid, Ring.Valid, Ring.State, OfflineIndex.RingBytes, WithStamp, Over, Part,
           MadeRoom;
      if m.Size() <= RING_MAX_BYTES {
        n, pushing := PushKept(peer, m);
      } else {
        ghost var views := Views();
        n := sessions[peer].ring.PushGap();
        pushing := Pushing(0, [], [], []);
        OneRing(peer);
        GapMatched(views, ix.at, ix.bufferOf, peer);
      }
    }

    // A frame the ring may hold: charged, kept, then room made for it.
    method PushKept(peer: string, m: Msg) returns (n: nat, ghost pushing: Pushing)
      requires Valid() && peer in sessions
      modifies RingSet(), ix, ix.rings
      ensures Valid() && n == old(Views())[peer].Sent() + 1
      ensures MadeRoom(pushing, old(Views()), peer, m, ringBudget) && pushing.run[|pushing.keys|] == Now()
      ensures Part(pushing.run[0].table,
                   WithStamp(old(ix.rings.entries), old(ix.rings.tick), pushing.stamp, sessions[peer].share, m.share,
                             m.bytes, old(ix.bufferOf).Values))
      ensures ix.RingBytes() <= ringBudget && !Over(Views()[peer], RING_MAX_BYTES, RING_MAX_FRAMES)
    {
      hide MatchedBut, OfflineIndex.Valid, Ring.Valid, Ring.State, OfflineIndex.RingBytes, RingsValid, Total, Evicted,
           PoolRun, WithStamp, AllThinned, Over, Part, MadeRoom, Now;
      ghost var views := Views();
      ghost var stamp;
      n, stamp := ChargeAndPush(peer, m);
      ghost var victims := EnforceRing(peer);
      ghost var within := Views();
      assert within == views[peer := within[peer]];
      assert Now().rings == within && Now().table == ix.rings.entries by { NowIs(); }
      ghost var run, keys := BuryOverPool();
      pushing := Pushing(stamp, victims, run, keys);
      RoomMade(pushing, views, peer, m, ringBudget, within);
      StillWithin(within, Views(), peer);
    }

    lemma {:induction false} NowIs()
      ensures Now().rings == Views() && Now().table == ix.rings.entries
    {}

    // `peer` has an empty ring, charged to `share`.
    method Mint(peer: string, share: nat)
      requires Valid() && peer !in sessions
      modifies this
      ensures Valid() && Views() == old(Views())[peer := Stream(0, [])]
      ensures ringBudget == old(ringBudget)
    {
      hide MatchedBut, OfflineIndex.Valid, Ring.Valid, Ring.State;
      ghost var views := Views();
      EmptyAdded(views, ix.at, ix.bufferOf, peer);
      var ring := new Ring();
      sessions := sessions[peer := Session(ring, share)];
      assert Views() == views[peer := Stream(0, [])];
    }

    // The session of `peer` is gone, its frames handed to the caller.
    method End(peer: string) returns (out: seq<Msg>)
      requires Valid() && peer in sessions
      modifies this, sessions[peer].ring, ix, ix.rings
      ensures Valid() && Views() == old(Views()) - {peer}
      ensures out == Messages(old(Views())[peer].slots)
      ensures ix.RingBytes() <= old(ix.RingBytes()) && ringBudget == old(ringBudget)
    {
      hide MatchedBut, OfflineIndex.Valid, Ring.Valid, Ring.State, OfflineIndex.RingBytes;
      ghost var before := Views();
      out := RingTakeAll(peer);
      ghost var views := Views();
      EmptyRemoved(views, ix.at, ix.bufferOf, peer);
      sessions := sessions - {peer};
      assert Views() == views - {peer};
      assert views - {peer} == before - {peer};
    }
  }

  lemma {:induction false} ThinnedSelf(rs: Matching.Rings)
    ensures AllThinned(rs, rs)
  {}

  lemma {:induction false} NoTurns(now: Charges, budget: nat)
    ensures PoolRun([now], [], budget)
  {}

  lemma {:induction false} HoldingTurn(a: Charges, b: Charges, key: PoolKey, n: nat)
    requires key.Holding? && FS.IsVictim(a.table, key) && Part(b.table, a.table) && Part(b.at, a.at)
              && Part(b.ids, a.ids)
    requires key.stamp in a.at && a.at[key.stamp] in a.rings && IsVictim(a.rings[a.at[key.stamp]], n)
    requires b.rings == a.rings[a.at[key.stamp] := Buried(a.rings[a.at[key.stamp]], n)]
    ensures GivesWay(a, b, key) && AllThinned(a.rings, b.rings)
  {
    hide FS.IsVictim, Part;
    assert RingGivesWay(a, b, a.at[key.stamp]);
  }

  lemma {:induction false} BytesTurn(a: Charges, b: Charges, key: PoolKey)
    requires key.Bytes? && FS.IsVictim(a.table, key) && Part(b.table, a.table) && Part(b.at, a.at) && Part(b.ids, a.ids)
    requires key.id in a.ids && b.rings == WithoutBuffer(a.rings, a.ids[key.id])
    ensures GivesWay(a, b, key)
  {
    hide FS.IsVictim, Part, WithoutBuffer;
  }

  lemma {:induction false} StillWithin(a: Matching.Rings, b: Matching.Rings, p: string)
    requires AllThinned(a, b) && p in a && !Over(a[p], RING_MAX_BYTES, RING_MAX_FRAMES)
    ensures p in b && !Over(b[p], RING_MAX_BYTES, RING_MAX_FRAMES)
  {
    hide Thinned, Total;
    ThinnedTotals(a, b, p);
  }

  lemma {:induction false} TableValid(ix: OfflineIndex)
    requires ix.Valid()
    ensures ix.rings.Valid() && ix.RingBytes() == FS.Total(ix.rings.entries)
  {}

  lemma {:induction false} BuffersKnown(ix: OfflineIndex)
    requires ix.Valid()
    ensures ix.bufferOf.Keys <= ix.at.Keys
  {}

  lemma {:induction false} KeyAnswered(ix: OfflineIndex, key: PoolKey)
    requires ix.Valid() && FS.IsVictim(ix.rings.entries, key)
    ensures key in ix.rings.entries && (key.Holding? ==> key.stamp in ix.at)
  {}

  lemma {:induction false} NothingCharged(ix: OfflineIndex)
    requires ix.Valid() && ix.rings.entries == map[]
    ensures ix.RingBytes() == 0
  {}

  lemma {:induction false} StampsPositive(ix: OfflineIndex, s: nat)
    requires ix.Valid() && s in ix.at
    ensures s > 0
  {}
}
