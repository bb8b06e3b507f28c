// How the rings and the pool's index answer for each other, on values alone: every frame a
// ring keeps is charged under its own stamp, and every charge is for a frame some ring keeps.
module Matching {
  import opened Base
  import opened Streams
  import opened OfflineIndexes
  import FS = FairShares

  type Rings = map<string, Stream>

  predicate KeptAt(st: Stream, n: nat) {
    st.Numbers(n) && st.At(n).Kept?
  }

  function BufferAt(bufferOf: BufferOf, s: nat): Option<Buf> {
    if s in bufferOf then Some(bufferOf[s]) else None
  }

  // The frame numbered `n` of `p`'s ring is the one charged under its stamp.
  ghost predicate Answered(p: string, m: Msg, at: Where, bufferOf: BufferOf) {
    m.stamp in at && at[m.stamp] == p && m.bytes == BufferAt(bufferOf, m.stamp)
  }

  ghost predicate OneEach(st: Stream) {
    forall i, j | KeptAt(st, i) && KeptAt(st, j) && st.At(i).msg.stamp == st.At(j).msg.stamp :: i == j
  }

  ghost predicate Carried(st: Stream, s: nat) {
    exists n :: KeptAt(st, n) && st.At(n).msg.stamp == s
  }

  // The rings and the index answer for each other, the stamps of `extra` aside: their
  // frames have left the rings and not yet the index.
  ghost predicate MatchedBut(rs: Rings, at: Where, bufferOf: BufferOf, extra: set<nat>) {
    && (forall p, n | p in rs && KeptAt(rs[p], n) ::
          Answered(p, rs[p].At(n).msg, at, bufferOf) && rs[p].At(n).msg.stamp !in extra)
    && (forall p | p in rs :: OneEach(rs[p]))
    && (forall s | s in at && s !in extra :: at[s] in rs && Carried(rs[at[s]], s))
  }

  ghost predicate Matched(rs: Rings, at: Where, bufferOf: BufferOf) {
    MatchedBut(rs, at, bufferOf, {})
  }

  // `b` is `a` with some frames gone and perhaps some numbers acked.
  ghost predicate Fewer(a: Stream, b: Stream) {
    forall n | KeptAt(b, n) :: KeptAt(a, n) && a.At(n) == b.At(n)
  }

  // `lost` are the stamps of exactly the frames of `a` that `b` no longer keeps.
  ghost predicate Lost(a: Stream, b: Stream, lost: set<nat>) {
    && (forall n | KeptAt(a, n) && !KeptAt(b, n) :: a.At(n).msg.stamp in lost)
    && (forall s | s in lost :: exists n :: KeptAt(a, n) && !KeptAt(b, n) && a.At(n).msg.stamp == s)
  }

  lemma {:induction false} Shrink(rs: Rings, at: Where, bufferOf: BufferOf, p: string, st: Stream, lost: set<nat>)
    requires Matched(rs, at, bufferOf) && p in rs && Fewer(rs[p], st) && Lost(rs[p], st, lost)
    ensures MatchedBut(rs[p := st], at, bufferOf, lost)
  {
    var after := rs[p := st];
    forall q, n: nat | q in after && KeptAt(after[q], n)
      ensures Answered(q, after[q].At(n).msg, at, bufferOf) && after[q].At(n).msg.stamp !in lost
    {
      assert KeptAt(rs[q], n);
    }
    forall s | s in at && s !in lost ensures at[s] in after && Carried(after[at[s]], s) {
      var n: nat :| KeptAt(rs[at[s]], n) && rs[at[s]].At(n).msg.stamp == s;
      assert KeptAt(after[at[s]], n);
    }
  }

  lemma {:induction false} Forgotten(rs: Rings, at: Where, bufferOf: BufferOf, extra: set<nat>, s: nat)
    requires MatchedBut(rs, at, bufferOf, extra) && s in extra
    ensures MatchedBut(rs, at - {s}, bufferOf - {s}, extra)
  {
    forall p, n | p in rs && KeptAt(rs[p], n)
      ensures Answered(p, rs[p].At(n).msg, at - {s}, bufferOf - {s}) && rs[p].At(n).msg.stamp !in extra
    {
      assert Answered(p, rs[p].At(n).msg, at, bufferOf);
    }
  }

  // Once none of the stamps aside is charged any more, nothing is aside.
  lemma {:induction false} Settled(rs: Rings, at: Where, bufferOf: BufferOf, extra: set<nat>)
    requires MatchedBut(rs, at, bufferOf, extra) && extra !! at.Keys
    ensures Matched(rs, at, bufferOf)
  {}

  function Buffered(bufferOf: BufferOf, m: Msg): BufferOf {
    if m.bytes.Some? then bufferOf[m.stamp := m.bytes.value] else bufferOf
  }

  lemma {:induction false} GrownAnswered(rs: Rings, at: Where, bufferOf: BufferOf, p: string, m: Msg, q: string, n: nat)
    requires Matched(rs, at, bufferOf) && p in rs && m.stamp !in at && m.stamp !in bufferOf
    requires q in rs && KeptAt(rs[p := Pushed(rs[p], m)][q], n)
    ensures Answered(q, rs[p := Pushed(rs[p], m)][q].At(n).msg, at[m.stamp := p], Buffered(bufferOf, m))
    ensures q == p ==> n > rs[p].Sent() || KeptAt(rs[q], n)
  {
    if q != p || n <= rs[p].Sent() {
      assert KeptAt(rs[q], n);
      assert Answered(q, rs[q].At(n).msg, at, bufferOf);
    }
  }

  lemma {:induction false} GrownOnce(st: Stream, m: Msg)
    requires OneEach(st) && forall n | KeptAt(st, n) :: st.At(n).msg.stamp != m.stamp
    ensures OneEach(Pushed(st, m))
  {
    var grown := Pushed(st, m);
    forall i: nat, j: nat | KeptAt(grown, i) && KeptAt(grown, j) && grown.At(i).msg.stamp == grown.At(j).msg.stamp
      ensures i == j
    {
      if i <= st.Sent() { assert KeptAt(st, i); }
      if j <= st.Sent() { assert KeptAt(st, j); }
    }
  }

  lemma {:induction false} GrownCarried(st: Stream, m: Msg, s: nat)
    requires Carried(st, s) || s == m.stamp
    ensures Carried(Pushed(st, m), s)
  {
    var grown := Pushed(st, m);
    if s == m.stamp {
      assert KeptAt(grown, grown.Sent()) && grown.At(grown.Sent()).msg.stamp == s;
    } else {
      var n: nat :| KeptAt(st, n) && st.At(n).msg.stamp == s;
      assert KeptAt(grown, n) && grown.At(n) == st.At(n);
    }
  }

  // A frame pushed under a stamp nothing else carries.
  lemma {:induction false} Grown(rs: Rings, at: Where, bufferOf: BufferOf, p: string, m: Msg)
    requires Matched(rs, at, bufferOf) && p in rs && m.stamp !in at && m.stamp !in bufferOf
    ensures Matched(rs[p := Pushed(rs[p], m)], at[m.stamp := p], Buffered(bufferOf, m))
  {
    var after, at2 := rs[p := Pushed(rs[p], m)], at[m.stamp := p];
    assert forall n | KeptAt(rs[p], n) :: rs[p].At(n).msg.stamp != m.stamp by {
      forall n | KeptAt(rs[p], n) ensures rs[p].At(n).msg.stamp != m.stamp {
        assert Answered(p, rs[p].At(n).msg, at, bufferOf);
      }
    }
    GrownOnce(rs[p], m);
    hide OneEach, Carried;
    forall q, n: nat | q in after && KeptAt(after[q], n)
      ensures Answered(q, after[q].At(n).msg, at2, Buffered(bufferOf, m))
    {
      GrownAnswered(rs, at, bufferOf, p, m, q, n);
    }
    forall s | s in at2 ensures at2[s] in after && Carried(after[at2[s]], s) {
      if at2[s] == p { GrownCarried(rs[p], m, s); }
    }
  }

  // A frame leaves its ring and the index at once.
  lemma {:induction false} Dropped(rs: Rings, at: Where, bufferOf: BufferOf, p: string, n: nat)
    requires Matched(rs, at, bufferOf) && p in rs && KeptAt(rs[p], n)
    ensures var s := rs[p].At(n).msg.stamp;
            s in at && at[s] == p && Matched(rs[p := Buried(rs[p], n)], at - {s}, bufferOf - {s})
  {
    hide MatchedBut;
    var s := rs[p].At(n).msg.stamp;
    StampKnown(rs, at, bufferOf, p, n);
    BuryLoses(rs[p], n);
    Shrink(rs, at, bufferOf, p, Buried(rs[p], n), {s});
    Forgotten(rs[p := Buried(rs[p], n)], at, bufferOf, {s}, s);
    Settled(rs[p := Buried(rs[p], n)], at - {s}, bufferOf - {s}, {s});
  }

  lemma {:induction false} StampKnown(rs: Rings, at: Where, bufferOf: BufferOf, p: string, n: nat)
    requires Matched(rs, at, bufferOf) && p in rs && KeptAt(rs[p], n)
    ensures Answered(p, rs[p].At(n).msg, at, bufferOf)
  {}

  lemma {:induction false} CarriedAt(rs: Rings, at: Where, bufferOf: BufferOf, s: nat) returns (n: nat)
    requires Matched(rs, at, bufferOf) && s in at
    ensures at[s] in rs && KeptAt(rs[at[s]], n) && rs[at[s]].At(n).msg.stamp == s
  {
    n :| KeptAt(rs[at[s]], n) && rs[at[s]].At(n).msg.stamp == s;
  }

  // `b` is `a` with perhaps some slots gone.
  ghost predicate Thinned(a: Stream, b: Stream) {
    && b.acked == a.acked && |b.slots| == |a.slots|
    && forall i | 0 <= i < |a.slots| :: b.slots[i] == a.slots[i] || b.slots[i] == Gone
  }

  ghost predicate AllThinned(a: Rings, b: Rings) {
    a.Keys == b.Keys && forall p | p in a :: Thinned(a[p], b[p])
  }

  lemma {:induction false} OneThinned(rs: Rings, p: string, st: Stream)
    requires p in rs && Thinned(rs[p], st)
    ensures AllThinned(rs, rs[p := st])
  {}

  lemma {:induction false} ThinnedTrans(a: Rings, b: Rings, c: Rings)
    requires AllThinned(a, b) && AllThinned(b, c)
    ensures AllThinned(a, c)
  {
    forall p | p in a ensures Thinned(a[p], c[p]) {
      assert Thinned(a[p], b[p]) && Thinned(b[p], c[p]);
    }
  }

  lemma {:induction false} EvictedThins(st: Stream, nums: seq<nat>, after: Stream, maxBytes: nat, maxFrames: nat)
    requires Evicted(st, nums, after, maxBytes, maxFrames)
    ensures Thinned(st, after)
    decreases |nums|
  {
    if nums != [] {
      EvictedThins(Buried(st, nums[0]), nums[1..], after, maxBytes, maxFrames);
    }
  }

  // ---- Frames that go from every ring at once ----

  // The frames stamped by one of `gone` are gone.
  ghost function Purged(st: Stream, gone: set<nat>): Stream {
    st.(slots := seq(|st.slots|, i requires 0 <= i < |st.slots| =>
                       if st.slots[i].Kept? && st.slots[i].msg.stamp in gone then Gone else st.slots[i]))
  }

  ghost function PurgedAll(rs: Rings, gone: set<nat>): Rings {
    map p | p in rs :: Purged(rs[p], gone)
  }

  // The frames that hold the buffer `b` are gone.
  ghost function Unbuffered(st: Stream, b: Buf): Stream {
    st.(slots := seq(|st.slots|, i requires 0 <= i < |st.slots| =>
                       if st.slots[i].Kept? && st.slots[i].msg.bytes == Some(b) then Gone else st.slots[i]))
  }

  ghost function WithoutBuffer(rs: Rings, b: Buf): Rings {
    map p | p in rs :: Unbuffered(rs[p], b)
  }

  lemma {:induction false} PurgedNone(rs: Rings)
    ensures PurgedAll(rs, {}) == rs
  {
    forall p | p in rs ensures Purged(rs[p], {}) == rs[p] {
      assert Purged(rs[p], {}).slots == rs[p].slots;
    }
  }

  lemma {:induction false} PurgedMore(rs: Rings, gone: set<nat>, s: nat)
    ensures PurgedAll(PurgedAll(rs, gone), {s}) == PurgedAll(rs, gone + {s})
  {
    forall p | p in rs ensures Purged(Purged(rs[p], gone), {s}) == Purged(rs[p], gone + {s}) {
      assert Purged(Purged(rs[p], gone), {s}).slots == Purged(rs[p], gone + {s}).slots;
    }
  }

  // One stamp names one frame, so burying it is all there is to do.
  lemma {:induction false} PurgedOne(rs: Rings, at: Where, bufferOf: BufferOf, p: string, n: nat)
    requires Matched(rs, at, bufferOf) && p in rs && KeptAt(rs[p], n)
    ensures rs[p := Buried(rs[p], n)] == PurgedAll(rs, {rs[p].At(n).msg.stamp})
  {
    var s := rs[p].At(n).msg.stamp;
    assert OneEach(rs[p]) && Answered(p, rs[p].At(n).msg, at, bufferOf);
    forall q | q in rs ensures Purged(rs[q], {s}) == if q == p then Buried(rs[p], n) else rs[q] {
      var st := rs[q];
      var after := if q == p then Buried(rs[p], n) else st;
      forall i | 0 <= i < |st.slots| ensures Purged(st, {s}).slots[i] == after.slots[i] {
        var k := st.acked + 1 + i;
        if st.slots[i].Kept? && st.slots[i].msg.stamp == s {
          assert KeptAt(st, k) && st.At(k).msg.stamp == s;
          assert Answered(q, st.At(k).msg, at, bufferOf);
          assert q == p && k == n;
        }
      }
      assert Purged(st, {s}).slots == after.slots;
    }
  }

  // The stamps that hold a buffer are those of the frames that do.
  lemma {:induction false} PurgedBuffer(rs: Rings, at: Where, bufferOf: BufferOf, b: Buf, gone: set<nat>)
    requires Matched(rs, at, bufferOf) && forall s :: s in gone <==> s in bufferOf && bufferOf[s] == b
    ensures PurgedAll(rs, gone) == WithoutBuffer(rs, b)
  {
    forall p | p in rs ensures Purged(rs[p], gone) == Unbuffered(rs[p], b) {
      var st := rs[p];
      forall i | 0 <= i < |st.slots| ensures Purged(st, gone).slots[i] == Unbuffered(st, b).slots[i] {
        if st.slots[i].Kept? {
          var k := st.acked + 1 + i;
          assert KeptAt(st, k) && st.At(k) == st.slots[i];
          assert Answered(p, st.At(k).msg, at, bufferOf);
        }
      }
      assert Purged(st, gone).slots == Unbuffered(st, b).slots;
    }
  }

  lemma {:induction false} PurgedThins(rs: Rings, gone: set<nat>)
    ensures AllThinned(rs, PurgedAll(rs, gone))
  {}

  // ---- The pool's turn ----

  // The rings and what the pool charges for them.
  datatype Charges = Charges(rings: Rings, at: Where, ids: BufferOf, table: FS.Table<PoolKey>)

  // One turn of the pool: the table's victim gives way. A holding costs its ring that ring's
  // own next victim; a buffer's bytes cost every ring the frames that hold the buffer.
  ghost predicate GivesWay(a: Charges, b: Charges, key: PoolKey) {
    && FS.IsVictim(a.table, key)
    && Part(b.table, a.table) && Part(b.at, a.at) && Part(b.ids, a.ids)
    && (key.Holding? ==> key.stamp in a.at && a.at[key.stamp] in a.rings && RingGivesWay(a, b, a.at[key.stamp]))
    && (key.Bytes? ==> key.id in a.ids && b.rings == WithoutBuffer(a.rings, a.ids[key.id]))
  }

  ghost predicate RingGivesWay(a: Charges, b: Charges, p: string)
    requires p in a.rings
  {
    exists n: nat :: IsVictim(a.rings[p], n) && b.rings == a.rings[p := Buried(a.rings[p], n)]
  }

  // What a turn costs, slot by slot. A holding: one slot of the ring it is in, the first that
  // the sender with the most bytes there has. A buffer: the slots of all rings that hold it.
  lemma {:induction false} TurnCosts(a: Charges, b: Charges, key: PoolKey)
    requires GivesWay(a, b, key)
    ensures key.Holding? ==>
              var p := a.at[key.stamp];
              exists i: nat :: GoesFirst(a.rings[p].slots, i)
                               && b.rings == a.rings[p := Stream(a.rings[p].acked, a.rings[p].slots[i := Gone])]
    ensures key.Bytes? ==>
              && b.rings.Keys == a.rings.Keys
              && forall p | p in a.rings ::
                   && b.rings[p].acked == a.rings[p].acked && |b.rings[p].slots| == |a.rings[p].slots|
                   && forall j | 0 <= j < |a.rings[p].slots| ::
                        var was := a.rings[p].slots[j];
                        b.rings[p].slots[j] == if was.Kept? && was.msg.bytes == Some(a.ids[key.id]) then Gone else was
  {
    if key.Holding? {
      hide IsVictim, GoesFirst, FS.IsVictim;
      var st := a.rings[a.at[key.stamp]];
      var n: nat :| IsVictim(st, n) && b.rings == a.rings[a.at[key.stamp] := Buried(st, n)];
      VictimExactly(st, n);
      assert GoesFirst(st.slots, n - st.acked - 1);
    }
  }

  // Turn after turn, each while what is charged is past the budget.
  ghost predicate PoolRun(run: seq<Charges>, keys: seq<PoolKey>, budget: nat) {
    && |run| == |keys| + 1
    && forall i | 0 <= i < |keys| :: FS.Total(run[i].table) > budget && GivesWay(run[i], run[i + 1], keys[i])
  }

  lemma {:induction false} PoolRunMore(run: seq<Charges>, keys: seq<PoolKey>, budget: nat, key: PoolKey, next: Charges)
    requires PoolRun(run, keys, budget)
    requires FS.Total(run[|keys|].table) > budget && GivesWay(run[|keys|], next, key)
    ensures PoolRun(run + [next], keys + [key], budget)
  {
    hide GivesWay, FS.Total;
    var longer, names := run + [next], keys + [key];
    forall i | 0 <= i < |names| ensures FS.Total(longer[i].table) > budget
        && GivesWay(longer[i], longer[i + 1], names[i]) {
      if i < |keys| {
        assert longer[i] == run[i] && longer[i + 1] == run[i + 1] && names[i] == keys[i];
      } else {
        assert longer[i] == run[|keys|] && longer[i + 1] == next && names[i] == key;
      }
    }
  }

  // Whoever gives way to the pool belongs to a share that holds more than the budget split
  // evenly over all shares charged.
  lemma {:induction false} PoolTurnIsFair(run: seq<Charges>, keys: seq<PoolKey>, budget: nat, i: nat)
    requires PoolRun(run, keys, budget) && i < |keys|
    ensures keys[i] in run[i].table
    ensures budget < |FS.SharesOf(run[i].table)| * FS.Held(run[i].table, run[i].table[keys[i]].share)
  {
    hide FS.Total, FS.Held, FS.SharesOf;
    assert GivesWay(run[i], run[i + 1], keys[i]);
    FS.VictimIsHeavy(run[i].table, keys[i], budget);
  }

  // ---- What each way out of a ring loses ----

  function StampsOf(ms: seq<Msg>): set<nat> {
    set m | m in ms :: m.stamp
  }

  lemma {:induction false} InMessages(slots: seq<Slot>, m: Msg)
    ensures m in Messages(slots) <==> Kept(m) in slots
  {
    if slots != [] {
      InMessages(slots[1..], m);
      assert slots == [slots[0]] + slots[1..];
    }
  }

  lemma {:induction false} AckLoses(st: Stream, h: nat)
    requires st.CanResumeFrom(h)
    ensures Fewer(st, Acked(st, h)) && Lost(st, Acked(st, h), StampsOf(Messages(st.slots[..h - st.acked])))
  {
    var b, gone := Acked(st, h), st.slots[..h - st.acked];
    forall n: nat | KeptAt(st, n) && !KeptAt(b, n) ensures st.At(n).msg.stamp in StampsOf(Messages(gone)) {
      assert n <= h;
      assert gone[n - st.acked - 1] == st.At(n);
      InMessages(gone, st.At(n).msg);
    }
    forall s | s in StampsOf(Messages(gone))
      ensures exists n :: KeptAt(st, n) && !KeptAt(b, n) && st.At(n).msg.stamp == s
    {
      var m :| m in Messages(gone) && m.stamp == s;
      InMessages(gone, m);
      var i :| 0 <= i < |gone| && gone[i] == Kept(m);
      assert KeptAt(st, st.acked + 1 + i) && !KeptAt(b, st.acked + 1 + i);
    }
  }

  lemma {:induction false} TakeAllLoses(st: Stream)
    ensures var b := Stream(st.Sent(), []); Fewer(st, b) && Lost(st, b, StampsOf(Messages(st.slots)))
  {
    AckLoses(st, st.Sent());
    assert st.slots[..st.Sent() - st.acked] == st.slots;
  }

  lemma {:induction false} NothingLost(st: Stream)
    ensures Fewer(st, st) && Lost(st, st, StampsOf([]))
  {}

  lemma {:induction false} BuryLoses(st: Stream, n: nat)
    requires KeptAt(st, n)
    ensures Fewer(st, Buried(st, n)) && Lost(st, Buried(st, n), {st.At(n).msg.stamp})
  {
    assert !KeptAt(Buried(st, n), n);
    forall k | KeptAt(st, k) && k != n ensures KeptAt(Buried(st, n), k) && Buried(st, n).At(k) == st.At(k) {}
  }

  lemma {:induction false} LostTrans(a: Stream, b: Stream, c: Stream, ab: set<nat>, bc: set<nat>)
    requires Fewer(a, b) && Lost(a, b, ab) && Fewer(b, c) && Lost(b, c, bc)
    ensures Fewer(a, c) && Lost(a, c, ab + bc)
  {
    forall s | s in ab + bc ensures exists n :: KeptAt(a, n) && !KeptAt(c, n) && a.At(n).msg.stamp == s {
      if s in ab {
        var n :| KeptAt(a, n) && !KeptAt(b, n) && a.At(n).msg.stamp == s;
        assert !KeptAt(c, n);
      } else {
        var n :| KeptAt(b, n) && !KeptAt(c, n) && b.At(n).msg.stamp == s;
        assert KeptAt(a, n);
      }
    }
  }

  // Victims buried one after another lose exactly their own stamps.
  lemma {:induction false} EvictedLoses(st: Stream, nums: seq<nat>, after: Stream, maxBytes: nat, maxFrames: nat)
    requires Evicted(st, nums, after, maxBytes, maxFrames)
    ensures Fewer(st, after) && Lost(st, after, StampsOf(Evictees(st, nums)))
    decreases |nums|
  {
    if nums != [] {
      var mid, m := Buried(st, nums[0]), st.At(nums[0]).msg;
      EvictedLoses(mid, nums[1..], after, maxBytes, maxFrames);
      BuryLoses(st, nums[0]);
      LostTrans(st, mid, after, {m.stamp}, StampsOf(Evictees(mid, nums[1..])));
      StampsMore(m, Evictees(mid, nums[1..]));
    }
  }

  lemma {:induction false} StampsMore(m: Msg, ms: seq<Msg>)
    ensures StampsOf([m] + ms) == {m.stamp} + StampsOf(ms)
  {
    assert forall x :: x in [m] + ms <==> x == m || x in ms;
  }

  // ---- Counting ----

  ghost function KeptFrames(rs: Rings): set<(string, nat)> {
    set p, n | p in rs && rs[p].acked < n <= rs[p].Sent() && rs[p].At(n).Kept? :: (p, n)
  }

  ghost function HeldBuffersOf(rs: Rings): set<Buf> {
    set p, n | p in rs && rs[p].acked < n <= rs[p].Sent() && rs[p].At(n).Kept? && rs[p].At(n).msg.bytes.Some?
      :: rs[p].At(n).msg.bytes.value
  }

  // A frame of some ring and the stamp it is charged under.
  ghost predicate Stamp(rs: Rings, f: (string, nat), s: nat) {
    f.0 in rs && KeptAt(rs[f.0], f.1) && rs[f.0].At(f.1).msg.stamp == s
  }

  lemma {:induction false} SameCount(rs: Rings, frames: set<(string, nat)>, stamps: set<nat>)
    requires forall f | f in frames :: exists s | s in stamps :: Stamp(rs, f, s)
    requires forall s | s in stamps :: exists f | f in frames :: Stamp(rs, f, s)
    requires forall f, g, s | f in frames && g in frames && Stamp(rs, f, s) && Stamp(rs, g, s) :: f == g
    ensures |frames| == |stamps|
    decreases frames
  {
    if frames == {} {
      assert stamps == {};
    } else {
      var f :| f in frames;
      var s :| s in stamps && Stamp(rs, f, s);
      forall g | g in frames - {f} ensures exists r | r in stamps - {s} :: Stamp(rs, g, r) {
        var r :| r in stamps && Stamp(rs, g, r);
        assert r != s;
      }
      forall r | r in stamps - {s} ensures exists g | g in frames - {f} :: Stamp(rs, g, r) {
        var g :| g in frames && Stamp(rs, g, r);
        assert g != f;
      }
      SameCount(rs, frames - {f}, stamps - {s});
    }
  }

  lemma {:induction false} MatchedBuffers(rs: Rings, at: Where, bufferOf: BufferOf)
    requires Matched(rs, at, bufferOf) && bufferOf.Keys <= at.Keys
    ensures bufferOf.Values == HeldBuffersOf(rs)
  {
    forall b | b in bufferOf.Values ensures b in HeldBuffersOf(rs) {
      var s :| s in bufferOf && bufferOf[s] == b;
      var n: nat :| KeptAt(rs[at[s]], n) && rs[at[s]].At(n).msg.stamp == s;
      assert Answered(at[s], rs[at[s]].At(n).msg, at, bufferOf);
    }
    forall b | b in HeldBuffersOf(rs) ensures b in bufferOf.Values {
      var p, n: nat :| p in rs && KeptAt(rs[p], n) && rs[p].At(n).msg.bytes == Some(b);
      assert Answered(p, rs[p].At(n).msg, at, bufferOf);
      assert bufferOf[rs[p].At(n).msg.stamp] == b;
    }
  }

  // As many charges as frames in the rings, and the buffers charged are the ones they hold.
  lemma {:induction false} MatchedCounts(rs: Rings, at: Where, bufferOf: BufferOf)
    requires Matched(rs, at, bufferOf) && bufferOf.Keys <= at.Keys
    ensures |at| == |KeptFrames(rs)| && bufferOf.Values == HeldBuffersOf(rs)
  {
    MatchedBuffers(rs, at, bufferOf);
    hide HeldBuffersOf;
    var frames := KeptFrames(rs);
    forall f | f in frames ensures exists s | s in at.Keys :: Stamp(rs, f, s) {
      assert KeptAt(rs[f.0], f.1);
      assert Stamp(rs, f, rs[f.0].At(f.1).msg.stamp);
    }
    forall s | s in at.Keys ensures exists f | f in frames :: Stamp(rs, f, s) {
      var n: nat :| KeptAt(rs[at[s]], n) && rs[at[s]].At(n).msg.stamp == s;
      assert Stamp(rs, (at[s], n), s) && (at[s], n) in frames;
    }
    forall f, g, s | f in frames && g in frames && Stamp(rs, f, s) && Stamp(rs, g, s) ensures f == g {
      assert Answered(f.0, rs[f.0].At(f.1).msg, at, bufferOf) && Answered(g.0, rs[g.0].At(g.1).msg, at, bufferOf);
      assert OneEach(rs[f.0]);
    }
    SameCount(rs, frames, at.Keys);
    assert |at.Keys| == |at|;
  }

  // A number counted and not kept changes nothing the index answers for.
  lemma {:induction false} GapMatched(rs: Rings, at: Where, bufferOf: BufferOf, p: string)
    requires Matched(rs, at, bufferOf) && p in rs
    ensures Matched(rs[p := PushedGap(rs[p])], at, bufferOf)
  {
    GapSame(rs[p]);
    var after := rs[p := PushedGap(rs[p])];
    hide OneEach, Carried, KeptAt;
    forall q, n: nat | q in after && KeptAt(after[q], n) ensures Answered(q, after[q].At(n).msg, at, bufferOf) {
      assert KeptAt(rs[q], n) && after[q].At(n) == rs[q].At(n);
    }
  }

  lemma {:induction false} GapSame(st: Stream)
    ensures var g := PushedGap(st);
            && (forall n :: KeptAt(g, n) <==> KeptAt(st, n))
            && (forall n | KeptAt(g, n) :: g.Numbers(n) && st.Numbers(n) && g.At(n) == st.At(n))
            && (OneEach(st) ==> OneEach(g)) && (forall s | Carried(st, s) :: Carried(g, s))
  {
    var g := PushedGap(st);
    assert forall n | KeptAt(g, n) :: g.At(n) == st.At(n);
    forall s | Carried(st, s) ensures Carried(g, s) {
      var n: nat :| KeptAt(st, n) && st.At(n).msg.stamp == s;
      assert KeptAt(g, n);
    }
  }

  lemma {:induction false} ThinnedTotal(a: seq<Slot>, b: seq<Slot>, f: Slot -> nat)
    requires |a| == |b| && f(Gone) == 0
    requires forall i | 0 <= i < |a| :: b[i] == a[i] || b[i] == Gone
    ensures Total(b, f) <= Total(a, f)
  {
    if a != [] { ThinnedTotal(a[1..], b[1..], f); }
  }

  lemma {:induction false} ThinnedTotals(a: Rings, b: Rings, p: string)
    requires AllThinned(a, b) && p in a
    ensures Total(b[p].slots, SizeOf()) <= Total(a[p].slots, SizeOf())
    ensures Total(b[p].slots, One()) <= Total(a[p].slots, One())
  {
    assert Thinned(a[p], b[p]);
    ThinnedTotal(a[p].slots, b[p].slots, SizeOf());
    ThinnedTotal(a[p].slots, b[p].slots, One());
  }

  lemma {:induction false} EmptyAdded(rs: Rings, at: Where, bufferOf: BufferOf, p: string)
    requires Matched(rs, at, bufferOf) && p !in rs
    ensures Matched(rs[p := Stream(0, [])], at, bufferOf)
  {}

  lemma {:induction false} EmptyRemoved(rs: Rings, at: Where, bufferOf: BufferOf, p: string)
    requires Matched(rs, at, bufferOf) && p in rs && rs[p].slots == []
    ensures Matched(rs - {p}, at, bufferOf)
  {}
}
