// What a session ring means (relay-uws/src/session.h): one slot for every number in
// (acked, sent], either the frame kept under it or gone. Everything a ring does is said
// here on that view alone; Ring.dfy proves the class against it.
module Streams {
  import opened Base

  const FRAME_WEIGHT_OVERHEAD: nat := 1024

  // A std::shared_ptr<const std::string>: two pointers are one buffer exactly when they
  // are the same value here, `addr` telling equal contents apart.
  datatype Buf = Buf(addr: nat, data: string)

  datatype Kind = Other | Direct | DirectImage | ChannelCopy

  // A frame as its sender gave it, without its place in a ring.
  datatype Msg = Msg(bytes: Option<Buf>, binary: bool, share: nat, kind: Kind, room: string, stamp: nat) {
    function Size(): nat {
      if bytes.Some? then |bytes.value.data| else 0
    }

    function Weight(): nat {
      Size() + FRAME_WEIGHT_OVERHEAD
    }
  }

  datatype Slot = Gone | Kept(msg: Msg)

  datatype Stream = Stream(acked: nat, slots: seq<Slot>) {
    function Sent(): nat {
      acked + |slots|
    }

    predicate Numbers(n: nat) {
      acked < n <= Sent()
    }

    function At(n: nat): Slot
      requires Numbers(n)
    {
      slots[n - acked - 1]
    }

    // The frame numbered `n` is here and came from `share`.
    predicate KeptBy(n: nat, share: nat) {
      Numbers(n) && At(n).Kept? && At(n).msg.share == share
    }

    predicate CanResumeFrom(h: nat) {
      acked <= h <= Sent()
    }
  }

  // ---- Sums over slots ----

  function Total(slots: seq<Slot>, f: Slot -> nat): nat {
    if slots == [] then 0 else f(slots[0]) + Total(slots[1..], f)
  }

  function WeightFrom(share: nat): Slot -> nat {
    (s: Slot) => if s.Kept? && s.msg.share == share then s.msg.Weight() else 0
  }

  function SizeOf(): Slot -> nat {
    (s: Slot) => if s.Kept? then s.msg.Size() else 0
  }

  function One(): Slot -> nat {
    (s: Slot) => if s.Kept? then 1 else 0
  }

  // What the frames of `share` weigh in `st`.
  function ShareWeight(st: Stream, share: nat): nat {
    Total(st.slots, WeightFrom(share))
  }

  lemma {:induction false} TotalConcat(a: seq<Slot>, b: seq<Slot>, f: Slot -> nat)
    ensures Total(a + b, f) == Total(a, f) + Total(b, f)
  {
    if a == [] {
      assert a + b == b;
    } else {
      TotalConcat(a[1..], b, f);
      assert (a + b)[1..] == a[1..] + b;
    }
  }

  lemma {:induction false} TotalUpdate(s: seq<Slot>, i: nat, x: Slot, f: Slot -> nat)
    requires i < |s|
    ensures Total(s[i := x], f) + f(s[i]) == Total(s, f) + f(x)
  {
    assert s == s[..i] + ([s[i]] + s[i + 1..]);
    assert s[i := x] == s[..i] + ([x] + s[i + 1..]);
    TotalConcat(s[..i], [s[i]] + s[i + 1..], f);
    TotalConcat(s[..i], [x] + s[i + 1..], f);
    assert ([s[i]] + s[i + 1..])[1..] == s[i + 1..] == ([x] + s[i + 1..])[1..];
  }

  lemma {:induction false} TotalGone(n: nat, f: Slot -> nat)
    requires f(Gone) == 0
    ensures Total(Gones(n), f) == 0
  {
    if n > 0 {
      TotalGone(n - 1, f);
      assert Gones(n)[1..] == Gones(n - 1);
    }
  }

  function Gones(n: nat): seq<Slot> {
    seq(n, _ => Gone)
  }

  // The frames kept in `slots`, oldest first.
  function Messages(slots: seq<Slot>): seq<Msg> {
    if slots == [] then []
    else (if slots[0].Kept? then [slots[0].msg] else []) + Messages(slots[1..])
  }

  lemma {:induction false} MessagesConcat(a: seq<Slot>, b: seq<Slot>)
    ensures Messages(a + b) == Messages(a) + Messages(b)
  {
    if a == [] {
      assert a + b == b;
    } else {
      assert (a + b)[0] == a[0] && (a + b)[1..] == a[1..] + b;
      MessagesConcat(a[1..], b);
    }
  }

  lemma {:induction false} MessagesGone(n: nat)
    ensures Messages(Gones(n)) == []
  {
    if n > 0 {
      MessagesGone(n - 1);
      assert Gones(n)[1..] == Gones(n - 1);
    }
  }

  // ---- What each operation does to a stream ----

  function Pushed(st: Stream, m: Msg): Stream {
    st.(slots := st.slots + [Kept(m)])
  }

  function PushedGap(st: Stream): Stream {
    st.(slots := st.slots + [Gone])
  }

  function Acked(st: Stream, h: nat): Stream {
    if st.CanResumeFrom(h) then Stream(h, st.slots[h - st.acked..]) else st
  }

  function Buried(st: Stream, n: nat): Stream
    requires st.Numbers(n)
  {
    st.(slots := st.slots[n - st.acked - 1 := Gone])
  }

  // ---- The eviction order, by a plain walk ----

  // `n` numbers the first frame of `share` after `after`, 0 when there is none.
  ghost predicate IsFirst(st: Stream, share: nat, after: nat, n: nat) {
    && (n == 0 ==> forall j | after < j :: !st.KeptBy(j, share))
    && (n != 0 ==> after < n && st.KeptBy(n, share) && forall j | after < j < n :: !st.KeptBy(j, share))
  }

  ghost predicate IsLast(st: Stream, share: nat, n: nat) {
    st.KeptBy(n, share) && forall j | n < j :: !st.KeptBy(j, share)
  }

  // The share of the frame numbered `n` outweighs `o`, or weighs as much and its oldest
  // frame is no newer than `o`'s.
  ghost predicate Outweighs(st: Stream, share: nat, first: nat, o: nat) {
    || ShareWeight(st, o) < ShareWeight(st, share)
    || (ShareWeight(st, o) == ShareWeight(st, share) && forall j | st.KeptBy(j, o) :: first <= j)
  }

  // `n` is the first frame kept of its share, and its share outweighs every other, or ties
  // with it and starts earlier.
  ghost predicate IsVictim(st: Stream, n: nat) {
    && st.Numbers(n) && st.At(n).Kept?
    && IsFirst(st, st.At(n).msg.share, 0, n)
    && forall j | st.Numbers(j) && st.At(j).Kept? :: Outweighs(st, st.At(n).msg.share, n, st.At(j).msg.share)
  }

  // Past what a ring may hold.
  ghost predicate Over(st: Stream, maxBytes: nat, maxFrames: nat) {
    Total(st.slots, SizeOf()) > maxBytes || Total(st.slots, One()) > maxFrames
  }

  // Victims buried one after another: `nums` in order, each the walk's choice in turn, and
  // each while the stream was past a limit.
  ghost predicate Evicted(st: Stream, nums: seq<nat>, after: Stream, maxBytes: nat, maxFrames: nat)
    decreases |nums|
  {
    if nums == [] then st == after
    else
      && Over(st, maxBytes, maxFrames) && IsVictim(st, nums[0])
      && Evicted(Buried(st, nums[0]), nums[1..], after, maxBytes, maxFrames)
  }

  lemma {:induction false} EvictedMore(st: Stream, nums: seq<nat>, after: Stream, n: nat, maxBytes: nat, maxFrames: nat)
    requires Evicted(st, nums, after, maxBytes, maxFrames) && IsVictim(after, n) && Over(after, maxBytes, maxFrames)
    ensures Evicted(st, nums + [n], Buried(after, n), maxBytes, maxFrames)
    decreases |nums|
  {
    hide Over;
    if nums == [] {
      assert [n][1..] == [];
    } else {
      EvictedMore(Buried(st, nums[0]), nums[1..], after, n, maxBytes, maxFrames);
      assert (nums + [n])[1..] == nums[1..] + [n];
    }
  }

  // What an eviction run to within the limits leaves is decided by the stream alone.
  lemma {:induction false} EvictedUnique(st: Stream, a: seq<nat>, x: Stream, b: seq<nat>, y: Stream, maxBytes: nat,
                                         maxFrames: nat)
    requires Evicted(st, a, x, maxBytes, maxFrames) && !Over(x, maxBytes, maxFrames)
    requires Evicted(st, b, y, maxBytes, maxFrames) && !Over(y, maxBytes, maxFrames)
    ensures a == b && x == y
    decreases |a|
  {
    hide Over;
    if a != [] && b != [] {
      VictimUnique(st, a[0], b[0]);
      EvictedUnique(Buried(st, a[0]), a[1..], x, b[1..], y, maxBytes, maxFrames);
      assert a == [a[0]] + a[1..] && b == [b[0]] + b[1..];
    }
  }

  // The frames those victims were.
  ghost function Evictees(st: Stream, nums: seq<nat>): seq<Msg>
    decreases |nums|
  {
    if nums == [] || !st.Numbers(nums[0]) || st.At(nums[0]).Gone? then []
    else [st.At(nums[0]).msg] + Evictees(Buried(st, nums[0]), nums[1..])
  }

  lemma {:induction false} EvicteesMore(st: Stream, nums: seq<nat>, after: Stream, n: nat, maxBytes: nat,
                                        maxFrames: nat)
    requires Evicted(st, nums, after, maxBytes, maxFrames) && IsVictim(after, n)
    ensures Evictees(st, nums + [n]) == Evictees(st, nums) + [after.At(n).msg]
    decreases |nums|
  {
    if nums == [] {
      assert [n][1..] == [];
      assert ([n] + [])[0] == n;
    } else {
      EvicteesMore(Buried(st, nums[0]), nums[1..], after, n, maxBytes, maxFrames);
      assert (nums + [n])[1..] == nums[1..] + [n];
    }
  }

  // The walk names at most one frame, so two rings with one view pick the same victim.
  lemma {:induction false} VictimUnique(st: Stream, a: nat, b: nat)
    requires IsVictim(st, a) && IsVictim(st, b)
    ensures a == b
  {
    assert Outweighs(st, st.At(a).msg.share, a, st.At(b).msg.share);
    assert Outweighs(st, st.At(b).msg.share, b, st.At(a).msg.share);
    assert st.KeptBy(a, st.At(a).msg.share) && st.KeptBy(b, st.At(b).msg.share);
  }

  // ---- The same order, in bytes and frames ----

  predicate From(s: Slot, share: nat) {
    s.Kept? && s.msg.share == share
  }

  // How many bytes, and how many frames, the slots keep of `share`.
  function BytesFrom(slots: seq<Slot>, share: nat): nat {
    if slots == [] then 0
    else
      var s := slots[0];
      (if From(s, share) && s.msg.bytes.Some? then |s.msg.bytes.value.data| else 0) + BytesFrom(slots[1..], share)
  }

  function FramesFrom(slots: seq<Slot>, share: nat): nat {
    if slots == [] then 0 else (if From(slots[0], share) then 1 else 0) + FramesFrom(slots[1..], share)
  }

  // And of everyone.
  function BytesIn(slots: seq<Slot>): nat {
    if slots == [] then 0
    else
      var s := slots[0];
      (if s.Kept? && s.msg.bytes.Some? then |s.msg.bytes.value.data| else 0) + BytesIn(slots[1..])
  }

  function FramesIn(slots: seq<Slot>): nat {
    if slots == [] then 0 else (if slots[0].Kept? then 1 else 0) + FramesIn(slots[1..])
  }

  lemma {:induction false} WeightInBytes(slots: seq<Slot>, share: nat)
    ensures Total(slots, WeightFrom(share)) == BytesFrom(slots, share) + 1024 * FramesFrom(slots, share)
  {
    if slots != [] { WeightInBytes(slots[1..], share); }
  }

  // A stream is past a limit when its frames are too many or hold too many bytes.
  lemma {:induction false} OverInBytes(st: Stream, maxBytes: nat, maxFrames: nat)
    ensures Over(st, maxBytes, maxFrames) <==> BytesIn(st.slots) > maxBytes || FramesIn(st.slots) > maxFrames
  {
    TotalsInBytes(st.slots);
  }

  lemma {:induction false} TotalsInBytes(slots: seq<Slot>)
    ensures Total(slots, SizeOf()) == BytesIn(slots) && Total(slots, One()) == FramesIn(slots)
  {
    if slots != [] { TotalsInBytes(slots[1..]); }
  }

  // The bytes of `share` and 1024 for each of its frames.
  function Load(slots: seq<Slot>, share: nat): nat {
    BytesFrom(slots, share) + 1024 * FramesFrom(slots, share)
  }

  // Slot `i` holds the oldest frame of its share, no share's load is greater, and a share
  // with as great a load has no older frame.
  ghost predicate GoesFirst(slots: seq<Slot>, i: nat) {
    && i < |slots| && slots[i].Kept?
    && var share := slots[i].msg.share;
       && (forall j | 0 <= j < i :: !From(slots[j], share))
       && forall j | 0 <= j < |slots| && slots[j].Kept? ::
            var other := slots[j].msg.share;
            || Load(slots, other) < Load(slots, share)
            || (Load(slots, other) == Load(slots, share) && forall k | 0 <= k < i :: !From(slots[k], other))
  }

  // The walk's victim is the oldest frame of the share with the most bytes, each frame
  // counted as 1024 more.
  lemma {:induction false} VictimExactly(st: Stream, n: nat)
    ensures IsVictim(st, n) <==> st.acked < n && GoesFirst(st.slots, n - st.acked - 1)
  {
    forall o: nat ensures ShareWeight(st, o) == Load(st.slots, o) { WeightInBytes(st.slots, o); }
    hide ShareWeight, Load;
    if st.acked < n && GoesFirst(st.slots, n - st.acked - 1) { FirstIsVictim(st, n); }
    if IsVictim(st, n) { VictimGoesFirst(st, n); }
  }

  lemma {:induction false} VictimGoesFirst(st: Stream, n: nat)
    requires IsVictim(st, n) && forall o: nat :: ShareWeight(st, o) == Load(st.slots, o)
    ensures st.acked < n && GoesFirst(st.slots, n - st.acked - 1)
  {
    hide ShareWeight, Load;
    var at, share := st.acked + 1, st.At(n).msg.share;
    forall j | 0 <= j < n - at ensures !From(st.slots[j], share) { assert !st.KeptBy(at + j, share); }
    forall j | 0 <= j < |st.slots| && st.slots[j].Kept?
      ensures var other := st.slots[j].msg.share;
              || Load(st.slots, other) < Load(st.slots, share)
              || (Load(st.slots, other) == Load(st.slots, share)
                  && forall k | 0 <= k < n - at :: !From(st.slots[k], other))
    {
      var other := st.slots[j].msg.share;
      assert st.At(at + j) == st.slots[j];
      assert Outweighs(st, share, n, other);
      forall k | 0 <= k < n - at ensures From(st.slots[k], other) ==> st.KeptBy(at + k, other) {}
    }
  }

  lemma {:induction false} FirstIsVictim(st: Stream, n: nat)
    requires st.acked < n && GoesFirst(st.slots, n - st.acked - 1)
    requires forall o: nat :: ShareWeight(st, o) == Load(st.slots, o)
    ensures IsVictim(st, n)
  {
    hide ShareWeight, Load;
    var at := st.acked + 1;
    assert forall j: nat, o: nat | st.KeptBy(j, o) :: From(st.slots[j - at], o);
    forall j: nat | st.Numbers(j) && st.At(j).Kept? ensures Outweighs(st, st.At(n).msg.share, n, st.At(j).msg.share) {
      assert st.slots[j - at].Kept?;
    }
  }

  // Of two shares with as many frames, one with more bytes never outlasts the other.
  lemma {:induction false} MoreBytesGoFirst(st: Stream, n: nat, o: nat)
    requires IsVictim(st, n) && FramesFrom(st.slots, o) == FramesFrom(st.slots, st.At(n).msg.share) > 0
    ensures BytesFrom(st.slots, o) <= BytesFrom(st.slots, st.At(n).msg.share)
  {
    VictimExactly(st, n);
    var j := SomeFrame(st.slots, o);
  }

  lemma {:induction false} SomeFrame(slots: seq<Slot>, share: nat) returns (i: nat)
    requires FramesFrom(slots, share) > 0
    ensures i < |slots| && From(slots[i], share)
  {
    if From(slots[0], share) {
      i := 0;
    } else {
      i := SomeFrame(slots[1..], share);
      i := i + 1;
    }
  }

  // ---- Replay ----

  // What a replay sends: a kept frame under its number, or one gap standing for the `n`
  // numbers ending at `num`.
  datatype Item = Real(num: nat, msg: Msg) | Gap(num: nat, n: nat) {
    // How far the receiving device's count moves.
    function Counts(): nat {
      if Real? then 1 else n
    }
  }

  predicate EndsInGap(items: seq<Item>) {
    items != [] && items[|items| - 1].Gap?
  }

  // `items` with the slot numbered `num` after them.
  function Extended(items: seq<Item>, s: Slot, num: nat): seq<Item> {
    if s.Kept? then items + [Real(num, s.msg)]
    else if EndsInGap(items) then items[..|items| - 1] + [Gap(num, items[|items| - 1].n + 1)]
    else items + [Gap(num, 1)]
  }

  // The slots numbered from `h + 1`: each kept frame, each maximal run of gone ones as one gap.
  function Runs(slots: seq<Slot>, h: nat): seq<Item> {
    if slots == [] then []
    else Extended(Runs(slots[..|slots| - 1], h), slots[|slots| - 1], h + |slots|)
  }

  lemma {:induction false} RunsSnoc(slots: seq<Slot>, s: Slot, h: nat)
    ensures Runs(slots + [s], h) == Extended(Runs(slots, h), s, h + |slots| + 1)
  {
    Snoc(slots, s);
  }

  // A replay for a device holding everything up to `h`.
  function Replay(st: Stream, h: nat): seq<Item>
    requires st.CanResumeFrom(h)
  {
    Runs(st.slots[h - st.acked..], h)
  }

  // The slots an item, and a sequence of them, stands for.
  function Standing(i: Item): seq<Slot> {
    if i.Real? then [Kept(i.msg)] else Gones(i.n)
  }

  function Unrolled(items: seq<Item>): seq<Slot> {
    if items == [] then [] else Unrolled(items[..|items| - 1]) + Standing(items[|items| - 1])
  }

  // Numbers count on from `h`, each item under its last; gaps are not empty and never touch.
  ghost predicate WellRun(items: seq<Item>, h: nat) {
    items != [] ==>
      var front, i := items[..|items| - 1], items[|items| - 1];
      && WellRun(front, h)
      && i.num == h + |Unrolled(items)|
      && (i.Gap? ==> i.n > 0 && !EndsInGap(front))
  }

  lemma {:induction false} Snoc<T>(s: seq<T>, x: T)
    ensures (s + [x])[..|s + [x]| - 1] == s && (s + [x])[|s + [x]| - 1] == x
  {}

  // `items` stand for exactly the slots numbered from `h + 1`.
  ghost predicate Tells(items: seq<Item>, slots: seq<Slot>, h: nat) {
    Unrolled(items) == slots && WellRun(items, h)
  }

  lemma {:induction false} ExtendedMeaning(items: seq<Item>, slots: seq<Slot>, s: Slot, h: nat)
    requires Tells(items, slots, h)
    ensures Tells(Extended(items, s, h + |slots| + 1), slots + [s], h)
  {
    var num := h + |slots| + 1;
    if s.Kept? {
      Snoc(items, Real(num, s.msg));
    } else if EndsInGap(items) {
      var front, n := items[..|items| - 1], items[|items| - 1].n;
      Snoc(front, Gap(num, n + 1));
      assert Gones(n + 1) == Gones(n) + [Gone];
    } else {
      Snoc(items, Gap(num, 1));
      assert Gones(1) == [Gone];
    }
  }

  // A replay stands for exactly the slots after `h`, each item under its own number, and
  // no two gaps touch.
  lemma {:induction false} RunsMeaning(slots: seq<Slot>, h: nat)
    ensures Tells(Runs(slots, h), slots, h)
    decreases |slots|
  {
    if slots != [] {
      hide Runs, Extended, Tells;
      var front, s := slots[..|slots| - 1], slots[|slots| - 1];
      assert slots == front + [s];
      RunsMeaning(front, h);
      RunsSnoc(front, s, h);
      ExtendedMeaning(Runs(front, h), front, s, h);
    }
  }

  // Nothing else reads that way: a replay is the only such item sequence.
  lemma {:induction false} RunsUnique(items: seq<Item>, h: nat)
    requires WellRun(items, h)
    ensures items == Runs(Unrolled(items), h)
    decreases |items|
  {
    hide Unrolled, Runs;
    if items == [] {
      NothingRuns(h);
    } else {
      var front, i := items[..|items| - 1], items[|items| - 1];
      assert items == front + [i];
      UnrolledSnoc(items);
      assert WellRun(front, h);
      RunsUnique(front, h);
      if i.Real? {
        RunsSnoc(Unrolled(front), Kept(i.msg), h);
      } else {
        RunsGones(Unrolled(front), h, front, 0, i.n);
      }
    }
  }

  lemma {:induction false} NothingRuns(h: nat)
    ensures Unrolled([]) == [] && Runs([], h) == []
  {}

  lemma {:induction false} UnrolledSnoc(items: seq<Item>)
    requires items != []
    ensures Unrolled(items) == Unrolled(items[..|items| - 1]) + Standing(items[|items| - 1])
  {}

  // `items` with a run of `n` gone numbers ending at `num` after them.
  function Flushed(items: seq<Item>, n: nat, num: nat): seq<Item> {
    if n == 0 then items else items + [Gap(num, n)]
  }

  lemma {:induction false} RunsGones(slots: seq<Slot>, h: nat, items: seq<Item>, n: nat, more: nat)
    requires Runs(slots, h) == Flushed(items, n, h + |slots|) && !EndsInGap(items)
    ensures Runs(slots + Gones(more), h) == Flushed(items, n + more, h + |slots| + more)
    decreases more
  {
    hide Runs;
    if more == 0 {
      assert slots + Gones(0) == slots;
    } else {
      RunsGones(slots, h, items, n, more - 1);
      assert slots + Gones(more) == (slots + Gones(more - 1)) + [Gone];
      RunsSnoc(slots + Gones(more - 1), Gone, h);
      Snoc(items, Gap(h + |slots| + more - 1, n + more - 1));
    }
  }

  lemma {:induction false} RunsKept(slots: seq<Slot>, h: nat, m: Msg)
    ensures Runs(slots + [Kept(m)], h) == Runs(slots, h) + [Real(h + |slots| + 1, m)]
  {
    RunsSnoc(slots, Kept(m), h);
  }

  // Acking what the device holds anyway changes nothing a replay sends.
  lemma {:induction false} ReplayAfterAck(st: Stream, g: nat, h: nat)
    requires st.acked <= g <= h <= st.Sent()
    ensures Acked(st, g).CanResumeFrom(h) && Replay(Acked(st, g), h) == Replay(st, h)
  {
    assert st.slots[g - st.acked..][h - g..] == st.slots[h - st.acked..];
  }
}
