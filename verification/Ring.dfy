// relay-uws/src/session.h, class Ring: a stream kept as entries, gone numbers merged into
// runs only when that is cheap, with each share's frames linked and the shares ranked.
module Rings {
  import opened Base
  import opened Streams

  const MERGE_NEAR: nat := 32
  const COMPACT_SLACK: nat := 64

  // An entry: a real frame under its number, or a tombstone (`gap` non-zero) standing for
  // `gap` numbers ending at `num`. `next` numbers the next real frame of the same share.
  datatype Frame = Frame(num: nat, gap: nat, msg: Msg, next: nat) {
    predicate Tombstone() {
      gap != 0
    }

    function First(): int {
      if Tombstone() then num - gap + 1 else num
    }
  }

  datatype Held = Held(weight: nat, head: nat, tail: nat)

  // Orders shares so that the one to evict from is greatest: by weight, then the smaller head.
  datatype WeightKey = WeightKey(weight: nat, negHead: int, share: nat) {
    predicate Le(o: WeightKey) {
      || weight < o.weight
      || (weight == o.weight && negHead < o.negHead)
      || (weight == o.weight && negHead == o.negHead && share <= o.share)
    }
  }

  function KeyOf(h: Held, share: nat): WeightKey {
    WeightKey(h.weight, 0 - h.head, share)
  }

  function Emptied(m: Msg): Msg {
    Msg(None, m.binary, 0, Other, "", 0)
  }

  // ---- Entries and the slots they stand for ----

  function SlotsOf(f: Frame): seq<Slot> {
    if f.Tombstone() then Gones(f.gap) else [Kept(f.msg)]
  }

  function Expand(es: seq<Frame>): seq<Slot> {
    if es == [] then [] else Expand(es[..|es| - 1]) + SlotsOf(es[|es| - 1])
  }

  // The last number before entry `i`.
  function Before(es: seq<Frame>, lo: nat, i: nat): nat
    requires i <= |es|
  {
    if i == 0 then lo else es[i - 1].num
  }

  // Entry `i` starts right after the numbers before it; a tombstone carries no bytes.
  predicate Follows(es: seq<Frame>, lo: nat, i: nat)
    requires i < |es|
  {
    && es[i].gap <= es[i].num && es[i].First() == Before(es, lo, i) + 1
    && (es[i].Tombstone() ==> es[i].msg.bytes.None?)
  }

  // The entries cover (lo, hi] exactly once, in order.
  ghost predicate Covers(es: seq<Frame>, lo: nat, hi: nat) {
    && (forall i | 0 <= i < |es| :: Follows(es, lo, i))
    && Before(es, lo, |es|) == hi
  }

  function Tombs(es: seq<Frame>): nat {
    if es == [] then 0 else Tombs(es[..|es| - 1]) + (if es[|es| - 1].Tombstone() then 1 else 0)
  }

  lemma {:induction false} ExpandConcat(a: seq<Frame>, b: seq<Frame>)
    ensures Expand(a + b) == Expand(a) + Expand(b)
    ensures Tombs(a + b) == Tombs(a) + Tombs(b)
    decreases |b|
  {
    if b == [] {
      assert a + b == a;
    } else {
      var front, x := b[..|b| - 1], b[|b| - 1];
      Snoc(a + front, x);
      assert a + b == (a + front) + [x];
      ExpandConcat(a, front);
    }
  }

  lemma {:induction false} ExpandSplice(a: seq<Frame>, x: seq<Frame>, b: seq<Frame>)
    ensures Expand(a + x + b) == Expand(a) + Expand(x) + Expand(b)
    ensures Tombs(a + x + b) == Tombs(a) + Tombs(x) + Tombs(b)
  {
    hide Expand, Tombs;
    ExpandConcat(a, x);
    ExpandConcat(a + x, b);
  }

  lemma {:induction false} ExpandOne(f: Frame)
    ensures Expand([f]) == SlotsOf(f) && Tombs([f]) == if f.Tombstone() then 1 else 0
  {
    Snoc([], f);
    assert [] + [f] == [f];
    assert Expand([]) + SlotsOf(f) == SlotsOf(f);
  }

  // The slots before entry `i` are the numbers up to the one before it.
  lemma {:induction false} ExpandLength(es: seq<Frame>, lo: nat, hi: nat, i: nat)
    requires Covers(es, lo, hi) && i <= |es|
    ensures lo <= Before(es, lo, i) && |Expand(es[..i])| == Before(es, lo, i) - lo
    decreases i
  {
    if i > 0 {
      ExpandLength(es, lo, hi, i - 1);
      assert Follows(es, lo, i - 1);
      Snoc(es[..i - 1], es[i - 1]);
      assert es[..i] == es[..i - 1] + [es[i - 1]];
    } else {
      assert es[..0] == [];
    }
  }

  lemma {:induction false} Ascending(es: seq<Frame>, lo: nat, hi: nat, i: nat, j: nat)
    requires Covers(es, lo, hi) && i <= j < |es|
    ensures lo < es[i].First() && es[i].First() <= es[i].num && es[i].num <= es[j].num
    ensures i < j ==> es[i].num < es[j].First()
    decreases j - i
  {
    ExpandLength(es, lo, hi, i);
    assert Follows(es, lo, i);
    if i < j {
      assert Follows(es, lo, i + 1);
      Ascending(es, lo, hi, i + 1, j);
    }
  }

  // The view of the entries as a stream.
  function View(es: seq<Frame>, lo: nat): Stream {
    Stream(lo, Expand(es))
  }

  lemma {:induction false} ViewAt(es: seq<Frame>, lo: nat, hi: nat, i: nat)
    requires Covers(es, lo, hi) && i < |es|
    ensures View(es, lo).Sent() == hi
    ensures lo < es[i].First() <= es[i].num <= hi
    ensures forall n | es[i].First() <= n <= es[i].num :: View(es, lo).At(n) == SlotsOf(es[i])[n - es[i].First()]
  {
    hide Expand;
    var whole, part := Expand(es), SlotsOf(es[i]);
    assert Follows(es, lo, i);
    ExpandLength(es, lo, hi, i);
    ExpandLength(es, lo, hi, |es|);
    assert es[..|es|] == es;
    Ascending(es, lo, hi, i, |es| - 1);
    assert es == es[..i] + [es[i]] + es[i + 1..];
    ExpandSplice(es[..i], [es[i]], es[i + 1..]);
    ExpandOne(es[i]);
    var b := |Expand(es[..i])|;
    assert whole == Expand(es[..i]) + part + Expand(es[i + 1..]);
    forall n | es[i].First() <= n <= es[i].num
      ensures View(es, lo).At(n) == part[n - es[i].First()]
    {
      assert n - lo - 1 == b + (n - es[i].First());
    }
  }

  lemma {:induction false} ViewSent(es: seq<Frame>, lo: nat, hi: nat)
    requires Covers(es, lo, hi)
    ensures View(es, lo).Sent() == hi
  {
    ExpandLength(es, lo, hi, |es|);
    assert es[..|es|] == es;
  }

  // std::lower_bound over the numbers: the first entry numbered `v` or later.
  function IndexOf(es: seq<Frame>, v: nat): (i: nat)
    ensures i <= |es|
    ensures forall j | 0 <= j < i :: es[j].num < v
    ensures i < |es| ==> v <= es[i].num
    decreases |es|
  {
    if es == [] || v <= es[0].num then 0 else 1 + IndexOf(es[1..], v)
  }

  // The entry that stands for the number `n`.
  lemma {:induction false} Found(es: seq<Frame>, lo: nat, hi: nat, n: nat)
    requires Covers(es, lo, hi) && lo < n <= hi
    ensures var i := IndexOf(es, n);
            i < |es| && es[i].First() <= n <= es[i].num
  {
    var i := IndexOf(es, n);
    assert i < |es| ==> Follows(es, lo, i);
  }

  lemma {:induction false} FoundReal(es: seq<Frame>, lo: nat, hi: nat, n: nat)
    requires Covers(es, lo, hi) && View(es, lo).Numbers(n) && View(es, lo).At(n).Kept?
    ensures var i := IndexOf(es, n);
            i < |es| && es[i].num == n && !es[i].Tombstone() && View(es, lo).At(n) == Kept(es[i].msg)
  {
    ViewSent(es, lo, hi);
    Found(es, lo, hi, n);
    ViewAt(es, lo, hi, IndexOf(es, n));
  }

  // ---- The share index ----

  // `next` of every real frame but the one numbered `skip` names the next one of its share.
  ghost predicate LinksExact(es: seq<Frame>, skip: nat, st: Stream) {
    forall f | f in es && !f.Tombstone() && f.num != skip :: IsFirst(st, f.msg.share, f.num, f.next)
  }

  ghost predicate HeldExact(held: map<nat, Held>, st: Stream) {
    && (forall n, s | st.KeptBy(n, s) :: s in held)
    && (forall s | s in held ::
          && held[s].weight == ShareWeight(st, s)
          && held[s].head != 0 && IsFirst(st, s, 0, held[s].head)
          && IsLast(st, s, held[s].tail))
  }

  ghost predicate RankExact(byWeight: set<WeightKey>, held: map<nat, Held>) {
    && (forall s | s in held :: KeyOf(held[s], s) in byWeight)
    && (forall k | k in byWeight :: k.share in held && k == KeyOf(held[k.share], k.share))
  }

  // The rank of `share` once it holds `h`, and nothing for it once its head is 0.
  function Reranked(byWeight: set<WeightKey>, held: map<nat, Held>, share: nat, h: Held): set<WeightKey> {
    var out := if share in held then byWeight - {KeyOf(held[share], share)} else byWeight;
    if h.head == 0 then out else out + {KeyOf(h, share)}
  }

  lemma {:induction false} RankAfter(byWeight: set<WeightKey>, held: map<nat, Held>, share: nat, h: Held)
    requires RankExact(byWeight, held)
    ensures RankExact(Reranked(byWeight, held, share, h), if h.head == 0 then held - {share} else held[share := h])
  {}

  lemma {:induction false} GreatestKey(s: set<WeightKey>) returns (top: WeightKey)
    requires s != {}
    ensures top in s && forall k | k in s :: k.Le(top)
  {
    var q :| q in s;
    if s == {q} {
      top := q;
    } else {
      var rest := GreatestKey(s - {q});
      top := if q.Le(rest) then rest else q;
      forall k | k in s ensures k.Le(top) {
        if k != q { assert k in s - {q}; }
      }
    }
  }

  // ---- What the index says as frames come and go ----

  // A new frame is the next one of its share for whoever had none.
  lemma {:induction false} FirstAfterPush(st: Stream, m: Msg, share: nat, after: nat, n: nat)
    requires IsFirst(st, share, after, n) && after <= st.Sent()
    ensures IsFirst(Pushed(st, m), share, after, if share == m.share && n == 0 then st.Sent() + 1 else n)
  {
    var grown := Pushed(st, m);
    assert grown.KeptBy(st.Sent() + 1, m.share);
    assert forall j, s :: grown.KeptBy(j, s) <==> st.KeptBy(j, s) || (j == st.Sent() + 1 && s == m.share);
  }

  // A buried frame hands its place to the one after it.
  lemma {:induction false} FirstAfterBury(st: Stream, b: nat, heir: nat, share: nat, after: nat, n: nat)
    requires st.Numbers(b) && st.At(b).Kept? && IsFirst(st, st.At(b).msg.share, b, heir)
    requires IsFirst(st, share, after, n)
    ensures IsFirst(Buried(st, b), share, after, if n == b then heir else n)
  {
    assert forall j, s :: Buried(st, b).KeptBy(j, s) <==> st.KeptBy(j, s) && j != b;
  }

  lemma {:induction false} WeightAfterBury(st: Stream, b: nat, share: nat)
    requires st.Numbers(b) && st.At(b).Kept?
    ensures ShareWeight(st, share) ==
            ShareWeight(Buried(st, b), share) + (if st.At(b).msg.share == share then st.At(b).msg.Weight() else 0)
  {
    TotalUpdate(st.slots, b - st.acked - 1, Gone, WeightFrom(share));
  }

  lemma {:induction false} WeightAfterPush(st: Stream, m: Msg, share: nat)
    ensures ShareWeight(Pushed(st, m), share) == ShareWeight(st, share) + (if m.share == share then m.Weight() else 0)
  {
    TotalConcat(st.slots, [Kept(m)], WeightFrom(share));
    assert Total([Kept(m)], WeightFrom(share)) == WeightFrom(share)(Kept(m)) + Total([], WeightFrom(share));
  }

  lemma {:induction false} NoneWeighs(slots: seq<Slot>, share: nat)
    requires forall i | 0 <= i < |slots| :: slots[i].Kept? ==> slots[i].msg.share != share
    ensures Total(slots, WeightFrom(share)) == 0
  {
    if slots != [] { NoneWeighs(slots[1..], share); }
  }

  // What a share holds once `m`, numbered `n`, joins it.
  function Joined(held: map<nat, Held>, m: Msg, n: nat): Held {
    if m.share in held then Held(held[m.share].weight + m.Weight(), held[m.share].head, n)
    else Held(m.Weight(), n, n)
  }

  lemma {:induction false} HeldAfterPush(held: map<nat, Held>, st: Stream, m: Msg)
    requires HeldExact(held, st)
    ensures HeldExact(held[m.share := Joined(held, m, st.Sent() + 1)], Pushed(st, m))
    ensures Joined(held, m, st.Sent() + 1).head != 0
  {
    hide ShareWeight;
    var grown := Pushed(st, m);
    assert grown.KeptBy(st.Sent() + 1, m.share);
    assert forall j, s :: grown.KeptBy(j, s) <==> st.KeptBy(j, s) || (j == st.Sent() + 1 && s == m.share);
    forall s | s in held || s == m.share
      ensures ShareWeight(grown, s) ==
              (if s in held then held[s].weight else 0) + (if s == m.share then m.Weight() else 0)
      ensures IsFirst(grown, s, 0, if s in held then held[s].head else st.Sent() + 1)
    {
      WeightAfterPush(st, m, s);
      if s in held {
        FirstAfterPush(st, m, s, 0, held[s].head);
      } else {
        FirstAfterPush(st, m, s, 0, 0);
        NothingFrom(st, s);
      }
    }
  }

  lemma {:induction false} NothingFrom(st: Stream, share: nat)
    requires forall n :: !st.KeptBy(n, share)
    ensures ShareWeight(st, share) == 0
  {
    forall i | 0 <= i < |st.slots| ensures st.slots[i].Kept? ==> st.slots[i].msg.share != share {
      assert !st.KeptBy(st.acked + 1 + i, share);
    }
    NoneWeighs(st.slots, share);
  }

  // What a share holds once its frame numbered `b` leaves: `heir` is the one after it and
  // `prev` the one before it, 0 for none.
  function Left(h: Held, m: Msg, b: nat, heir: nat, prev: nat): Held
    requires m.Weight() <= h.weight
  {
    Held(h.weight - m.Weight(), if h.head == b then heir else h.head, if h.tail == b then prev else h.tail)
  }

  // `prev` numbers the last frame of the share before `b`, 0 for none.
  ghost predicate IsPrevious(st: Stream, share: nat, b: nat, prev: nat) {
    && (prev == 0 ==> forall j: nat | j < b :: !st.KeptBy(j, share))
    && (prev != 0 ==> prev < b && st.KeptBy(prev, share) && forall j | prev < j < b :: !st.KeptBy(j, share))
  }

  // `b` numbers a kept frame, `heir` and `prev` its neighbours in its share.
  ghost predicate Neighbours(st: Stream, b: nat, heir: nat, prev: nat) {
    && st.Numbers(b) && st.At(b).Kept?
    && IsFirst(st, st.At(b).msg.share, b, heir)
    && IsPrevious(st, st.At(b).msg.share, b, prev)
  }

  lemma {:induction false} HeldAfterBury(held: map<nat, Held>, st: Stream, b: nat, heir: nat, prev: nat)
    requires HeldExact(held, st) && Neighbours(st, b, heir, prev)
    ensures var m := st.At(b).msg;
            && m.share in held && m.Weight() <= held[m.share].weight
            && var h := Left(held[m.share], m, b, heir, prev);
               HeldExact(if h.head == 0 then held - {m.share} else held[m.share := h], Buried(st, b))
  {
    hide ShareWeight, IsFirst, IsLast, IsPrevious;
    var m, after := st.At(b).msg, Buried(st, b);
    assert st.KeptBy(b, m.share);
    BuriedKeeps(st, b);
    forall s | s in held
      ensures held[s].weight == ShareWeight(after, s) + (if s == m.share then m.Weight() else 0)
      ensures var head := if held[s].head == b then heir else held[s].head;
              && IsFirst(after, s, 0, head)
              && (head == 0 ==> forall n :: !after.KeptBy(n, s))
              && (head != 0 ==> IsLast(after, s, if held[s].tail == b then prev else held[s].tail))
      ensures s != m.share ==> held[s].head != b && held[s].tail != b
    {
      ShareAfterBury(held, st, b, heir, prev, s);
    }
  }

  lemma {:induction false} BuriedKeeps(st: Stream, b: nat)
    requires st.Numbers(b)
    ensures forall j, s :: Buried(st, b).KeptBy(j, s) <==> st.KeptBy(j, s) && j != b
  {}

  lemma {:induction false} ShareAfterBury(held: map<nat, Held>, st: Stream, b: nat, heir: nat, prev: nat, s: nat)
    requires HeldExact(held, st) && Neighbours(st, b, heir, prev) && s in held
    ensures var h, m, after := held[s], st.At(b).msg, Buried(st, b);
            && h.weight == ShareWeight(after, s) + (if s == m.share then m.Weight() else 0)
            && var head := if h.head == b then heir else h.head;
               && IsFirst(after, s, 0, head)
               && (head == 0 ==> forall n :: !after.KeptBy(n, s))
               && (head != 0 ==> IsLast(after, s, if h.tail == b then prev else h.tail))
               && (s != m.share ==> h.head != b && h.tail != b)
  {
    hide ShareWeight;
    WeightAfterBury(st, b, s);
    FirstAfterBury(st, b, heir, s, 0, held[s].head);
    BuriedKeeps(st, b);
    assert st.KeptBy(b, st.At(b).msg.share);
  }

  // ---- Relinking ----

  // Entry `k` now names `n` as the next of its share.
  function Relinked(es: seq<Frame>, k: nat, n: nat): seq<Frame>
    requires k < |es|
  {
    es[k := es[k].(next := n)]
  }

  lemma {:induction false} RelinkedSame(es: seq<Frame>, k: nat, n: nat, lo: nat, hi: nat)
    requires k < |es|
    ensures Expand(Relinked(es, k, n)) == Expand(es) && Tombs(Relinked(es, k, n)) == Tombs(es)
    ensures Covers(es, lo, hi) ==> Covers(Relinked(es, k, n), lo, hi)
  {
    hide Expand, Tombs;
    var x, r := es[k].(next := n), Relinked(es, k, n);
    assert es == es[..k] + [es[k]] + es[k + 1..];
    assert r == es[..k] + [x] + es[k + 1..];
    ExpandSplice(es[..k], [es[k]], es[k + 1..]);
    ExpandSplice(es[..k], [x], es[k + 1..]);
    ExpandOne(es[k]);
    ExpandOne(x);
    if Covers(es, lo, hi) {
      forall i | 0 <= i < |es| ensures Follows(r, lo, i) {
        assert Follows(es, lo, i);
      }
    }
  }

  // The entries once a frame of `m`'s share numbered `n` is to follow them.
  function Tailed(es: seq<Frame>, held: map<nat, Held>, m: Msg, n: nat): seq<Frame>
    requires m.share in held ==> IndexOf(es, held[m.share].tail) < |es|
  {
    if m.share in held then Relinked(es, IndexOf(es, held[m.share].tail), n) else es
  }

  lemma {:induction false} LinksAfterPush(es: seq<Frame>, lo: nat, hi: nat, held: map<nat, Held>, m: Msg)
    requires Covers(es, lo, hi) && LinksExact(es, 0, View(es, lo)) && HeldExact(held, View(es, lo))
    ensures m.share in held ==> IndexOf(es, held[m.share].tail) < |es|
    ensures LinksExact(Tailed(es, held, m, hi + 1) + [Frame(hi + 1, 0, m, 0)], 0, Pushed(View(es, lo), m))
  {
    hide Expand;
    var st := View(es, lo);
    ViewSent(es, lo, hi);
    if m.share in held { FoundReal(es, lo, hi, held[m.share].tail); }
    var r := Tailed(es, held, m, hi + 1);
    assert IsFirst(Pushed(st, m), m.share, hi + 1, 0);
    forall f | f in r && !f.Tombstone() ensures IsFirst(Pushed(st, m), f.msg.share, f.num, f.next) {
      var i :| 0 <= i < |r| && r[i] == f;
      LinkAfterPush(es, lo, hi, held, m, i);
    }
  }

  lemma {:induction false} LinkAfterPush(es: seq<Frame>, lo: nat, hi: nat, held: map<nat, Held>, m: Msg, i: nat)
    requires Covers(es, lo, hi) && LinksExact(es, 0, View(es, lo)) && HeldExact(held, View(es, lo)) && i < |es|
    requires m.share in held ==> IndexOf(es, held[m.share].tail) < |es|
    ensures var f := Tailed(es, held, m, hi + 1)[i];
            !f.Tombstone() ==> IsFirst(Pushed(View(es, lo), m), f.msg.share, f.num, f.next)
  {
    hide Expand, IsFirst, HeldExact, IndexOf;
    var st, g := View(es, lo), es[i];
    if !g.Tombstone() {
      ViewSent(es, lo, hi);
      ViewAt(es, lo, hi, i);
      assert st.KeptBy(g.num, g.msg.share);
      assert g in es;
      FirstAfterPush(st, m, g.msg.share, g.num, g.next);
      TailLast(es, lo, hi, held, m.share, i);
    }
  }

  // The share's newest frame is the one with no next.
  lemma {:induction false} TailLast(es: seq<Frame>, lo: nat, hi: nat, held: map<nat, Held>, share: nat, i: nat)
    requires Covers(es, lo, hi) && LinksExact(es, 0, View(es, lo)) && HeldExact(held, View(es, lo)) && i < |es|
    requires !es[i].Tombstone() && View(es, lo).KeptBy(es[i].num, es[i].msg.share)
    ensures es[i].msg.share == share ==>
              && share in held && IndexOf(es, held[share].tail) < |es|
              && (i == IndexOf(es, held[share].tail) <==> es[i].next == 0)
    ensures share in held && i == IndexOf(es, held[share].tail) ==> es[i].msg.share == share
  {
    hide Expand;
    var st, g := View(es, lo), es[i];
    assert g in es;
    if share in held {
      FoundReal(es, lo, hi, held[share].tail);
      if g.msg.share == share {
        SameEntry(es, lo, hi, i, IndexOf(es, held[share].tail));
        assert g.next == 0 <==> g.num == held[share].tail;
      }
    }
  }

  lemma {:induction false} SameEntry(es: seq<Frame>, lo: nat, hi: nat, i: nat, k: nat)
    requires Covers(es, lo, hi) && i < |es| && k < |es|
    ensures i == k <==> es[i].num == es[k].num
  {
    if i < k { Ascending(es, lo, hi, i, k); }
    if k < i { Ascending(es, lo, hi, k, i); }
  }

  // The entries once the frame numbered `b` is passed over.
  function Unlinked(es: seq<Frame>, prev: nat, heir: nat): seq<Frame>
    requires prev != 0 ==> IndexOf(es, prev) < |es|
  {
    if prev != 0 then Relinked(es, IndexOf(es, prev), heir) else es
  }

  lemma {:induction false} LinksAfterBury(es: seq<Frame>, lo: nat, hi: nat, b: nat, heir: nat, prev: nat)
    requires Covers(es, lo, hi) && LinksExact(es, 0, View(es, lo)) && Neighbours(View(es, lo), b, heir, prev)
    ensures prev != 0 ==> IndexOf(es, prev) < |es|
    ensures LinksExact(Unlinked(es, prev, heir), b, Buried(View(es, lo), b))
  {
    hide Expand;
    var st := View(es, lo);
    var share := st.At(b).msg.share;
    if prev != 0 { FoundReal(es, lo, hi, prev); }
    var r := Unlinked(es, prev, heir);
    forall f | f in r && !f.Tombstone() && f.num != b ensures IsFirst(Buried(st, b), f.msg.share, f.num, f.next) {
      var i :| 0 <= i < |r| && r[i] == f;
      LinkAfterBury(es, lo, hi, b, heir, prev, i);
    }
  }

  lemma {:induction false} LinkAfterBury(es: seq<Frame>, lo: nat, hi: nat, b: nat, heir: nat, prev: nat, i: nat)
    requires Covers(es, lo, hi) && LinksExact(es, 0, View(es, lo)) && Neighbours(View(es, lo), b, heir, prev)
              && i < |es|
    requires prev != 0 ==> IndexOf(es, prev) < |es|
    ensures var f := Unlinked(es, prev, heir)[i];
            !f.Tombstone() && f.num != b ==> IsFirst(Buried(View(es, lo), b), f.msg.share, f.num, f.next)
  {
    hide Expand;
    var st, g := View(es, lo), es[i];
    if !g.Tombstone() && g.num != b {
      if prev != 0 { FoundReal(es, lo, hi, prev); }
      ViewAt(es, lo, hi, i);
      assert st.KeptBy(g.num, g.msg.share) && st.KeptBy(b, st.At(b).msg.share);
      assert g in es;
      FirstAfterBury(st, b, heir, g.msg.share, g.num, g.next);
      assert g.next == b <==> prev != 0 && g.num == prev;
      if prev != 0 {
        var k := IndexOf(es, prev);
        assert i == k <==> g.num == prev by {
          if i < k { Ascending(es, lo, hi, i, k); }
          if k < i { Ascending(es, lo, hi, k, i); }
        }
      }
    }
  }

  // The index once the real frame at `i` has left it.
  lemma {:induction false} UnheldExact(es: seq<Frame>, lo: nat, hi: nat, held: map<nat, Held>, i: nat, prev: nat)
    requires Covers(es, lo, hi) && LinksExact(es, 0, View(es, lo)) && HeldExact(held, View(es, lo))
    requires i < |es| && !es[i].Tombstone() && IsPrevious(View(es, lo), es[i].msg.share, es[i].num, prev)
    ensures var f, st := es[i], View(es, lo);
            && st.Numbers(f.num) && f.msg.share in held && f.msg.Weight() <= held[f.msg.share].weight
            && (prev != 0 ==> IndexOf(es, prev) < |es| && IndexOf(es, prev) != i)
            && LinksExact(Unlinked(es, prev, f.next), f.num, Buried(st, f.num))
            && var h := Left(held[f.msg.share], f.msg, f.num, f.next, prev);
               HeldExact(if h.head == 0 then held - {f.msg.share} else held[f.msg.share := h], Buried(st, f.num))
  {
    hide Expand, IsPrevious, IsFirst;
    ViewAt(es, lo, hi, i);
    assert es[i] in es;
    LinksAfterBury(es, lo, hi, es[i].num, es[i].next, prev);
    HeldAfterBury(held, View(es, lo), es[i].num, es[i].next, prev);
    hide LinksExact, HeldExact;
    if prev != 0 { PreviousElsewhere(es, lo, hi, i, prev); }
  }

  ghost predicate Indexed(es: seq<Frame>, st: Stream, held: map<nat, Held>, byWeight: set<WeightKey>) {
    LinksExact(es, 0, st) && HeldExact(held, st) && RankExact(byWeight, held)
  }

  lemma {:induction false} GoneWeighsNothing()
    ensures Total([Gone], SizeOf()) == 0 && Total([Gone], One()) == 0
  {}

  // Two streams with the same frames under the same numbers.
  ghost predicate SameKept(a: Stream, b: Stream) {
    && (forall n, s :: a.KeptBy(n, s) <==> b.KeptBy(n, s))
    && (forall s :: ShareWeight(a, s) == ShareWeight(b, s))
  }

  lemma {:induction false} SameIndex(a: Stream, b: Stream, es: seq<Frame>, skip: nat, held: map<nat, Held>)
    requires SameKept(a, b) && LinksExact(es, skip, a) && HeldExact(held, a)
    ensures LinksExact(es, skip, b) && HeldExact(held, b)
  {
    hide ShareWeight;
  }

  lemma {:induction false} GonesAfter(st: Stream, n: nat)
    ensures SameKept(st, st.(slots := st.slots + Gones(n)))
  {
    hide Total;
    forall s ensures ShareWeight(st.(slots := st.slots + Gones(n)), s) == ShareWeight(st, s) {
      TotalConcat(st.slots, Gones(n), WeightFrom(s));
      TotalGone(n, WeightFrom(s));
    }
  }

  lemma {:induction false} GonesBefore(lo: nat, n: nat, slots: seq<Slot>)
    ensures SameKept(Stream(lo, Gones(n) + slots), Stream(lo + n, slots))
  {
    hide Total;
    forall s ensures ShareWeight(Stream(lo, Gones(n) + slots), s) == ShareWeight(Stream(lo + n, slots), s) {
      TotalConcat(Gones(n), slots, WeightFrom(s));
      TotalGone(n, WeightFrom(s));
    }
  }

  // A tombstone after the entries changes nothing in the index.
  lemma {:induction false} IndexedGap(es: seq<Frame>, st: Stream, held: map<nat, Held>, byWeight: set<WeightKey>,
                                      t: Frame)
    requires Indexed(es, st, held, byWeight) && t.Tombstone()
    ensures Indexed(es + [t], st.(slots := st.slots + Gones(t.gap)), held, byWeight)
  {
    hide IsFirst;
    GonesAfter(st, t.gap);
    SameIndex(st, st.(slots := st.slots + Gones(t.gap)), es, 0, held);
  }

  class Ring {
    var entries: seq<Frame>
    var held: map<nat, Held>
    var byWeight: set<WeightKey>
    var sent: nat
    var acked: nat
    var bytes: nat
    var reals: nat
    var tombs: nat

    ghost function State(): Stream
      reads this
    {
      View(entries, acked)
    }

    ghost predicate Counted()
      reads this
    {
      && bytes == Total(Expand(entries), SizeOf())
      && reals == Total(Expand(entries), One())
      && tombs == Tombs(entries)
    }

    // The ring is whole, its entries starting after the number `lo`.
    ghost predicate ValidFrom(lo: nat)
      reads this
    {
      Covers(entries, lo, sent) && Indexed(entries, View(entries, lo), held, byWeight) && Counted()
    }

    ghost predicate Valid()
      reads this
    {
      ValidFrom(acked)
    }

    constructor ()
      ensures Valid() && State() == Stream(0, [])
      ensures held == map[] && byWeight == {} && bytes == reals == tombs == 0
    {
      entries, held, byWeight := [], map[], {};
      sent, acked, bytes, reals, tombs := 0, 0, 0, 0, 0;
    }

    // The real frame at `k`, its share's newest so far, joins the index.
    method Hold(k: nat, ghost lo: nat)
      requires k < |entries| && !entries[k].Tombstone() && entries[k].next == 0
      requires Covers(entries, lo, sent)
      requires Indexed(entries[..k], View(entries[..k], lo), held, byWeight)
      modifies this`entries, this`held, this`byWeight
      ensures |entries| == |old(entries)| && entries[k..] == old(entries)[k..]
      ensures Covers(entries, lo, sent) && Expand(entries) == Expand(old(entries))
              && Tombs(entries) == Tombs(old(entries))
      ensures Indexed(entries[..k + 1], View(entries[..k + 1], lo), held, byWeight)
    {
      hide Expand, Tombs, LinksExact, HeldExact, RankExact;
      var f := entries[k];
      ghost var es, st := entries[..k], View(entries[..k], lo);
      PrefixCovers(entries, lo, sent, k);
      assert Follows(entries, lo, k);
      var n := f.num;
      assert n == st.Sent() + 1 by { ViewSent(es, lo, n - 1); }
      LinksAfterPush(es, lo, n - 1, held, f.msg);
      HeldAfterPush(held, st, f.msg);
      var h := Joined(held, f.msg, n);
      RankAfter(byWeight, held, f.msg.share, h);
      byWeight := Reranked(byWeight, held, f.msg.share, h);
      if f.msg.share in held {
        var t := IndexOf(entries, held[f.msg.share].tail);
        IndexOfPrefix(entries, k, held[f.msg.share].tail);
        RelinkedSame(entries, t, n, lo, sent);
        entries := Relinked(entries, t, n);
        RelinkedSame(es, t, n, lo, n - 1);
      }
      assert entries[..k] == Tailed(es, held, f.msg, n);
      assert entries[..k + 1] == entries[..k] + [f];
      ExpandConcat(entries[..k], [f]);
      ExpandOne(f);
      assert View(entries[..k + 1], lo) == Pushed(st, f.msg);
      held := held[f.msg.share := h];
    }

    // The stream grows by `m`, kept under the next number.
    method Push(m: Msg) returns (n: nat)
      requires Valid()
      modifies this
      ensures Valid() && acked == old(acked)
      ensures State() == Pushed(old(State()), m) && n == State().Sent()
    {
      hide Expand, Tombs, LinksExact, HeldExact, RankExact;
      ViewSent(entries, acked, sent);
      ghost var es := entries;
      ExpandConcat(es, [Frame(sent + 1, 0, m, 0)]);
      ExpandOne(Frame(sent + 1, 0, m, 0));
      TotalConcat(Expand(es), [Kept(m)], SizeOf());
      TotalConcat(Expand(es), [Kept(m)], One());
      CoversMore(es, acked, sent, Frame(sent + 1, 0, m, 0));
      sent := sent + 1;
      bytes := bytes + m.Size();
      reals := reals + 1;
      entries := entries + [Frame(sent, 0, m, 0)];
      assert entries[..|es|] == es;
      Hold(|entries| - 1, acked);
      assert entries[..|es| + 1] == entries;
      return sent;
    }

    // The stream grows by a number that is gone from the start.
    method PushGap() returns (n: nat)
      requires Valid()
      modifies this
      ensures Valid() && acked == old(acked)
      ensures State() == PushedGap(old(State())) && n == State().Sent()
    {
      hide Expand, Tombs, LinksExact, HeldExact, RankExact, Total;
      ViewSent(entries, acked, sent);
      ghost var es, st := entries, State();
      ghost var one := Frame(sent + 1, 1, Emptied(Msg(None, true, 0, Other, "", 0)), 0);
      ExpandConcat(es, [one]);
      ExpandOne(one);
      assert Gones(1) == [Gone];
      IndexedGap(es, st, held, byWeight, one);
      TotalConcat(Expand(es), [Gone], SizeOf());
      TotalConcat(Expand(es), [Gone], One());
      GoneWeighsNothing();
      CoversMore(es, acked, sent, one);
      sent := sent + 1;
      if entries != [] && entries[|entries| - 1].Tombstone() {
        var t := entries[|entries| - 1];
        assert Follows(entries, acked, |entries| - 1);
        entries := entries[|entries| - 1 := t.(num := sent, gap := t.gap + 1)];
        ghost var x := entries[|entries| - 1];
        MergedSame(es + [one], |es| - 1, x, acked, sent);
        MergedLinks(es + [one], |es| - 1, x, 0, PushedGap(st));
        assert entries == Merged(es + [one], |es| - 1, x);
      } else {
        entries := entries + [Frame(sent, 1, Msg(None, true, 0, Other, "", 0), 0)];
        tombs := tombs + 1;
      }
      return sent;
    }

    // A ring is one Restore takes exactly when every frame it keeps came with bytes.
    lemma {:induction false} Restores()
      requires Valid()
      ensures Restorable(entries, acked, sent) <==>
              forall n | State().Numbers(n) && State().At(n).Kept? :: State().At(n).msg.bytes.Some?
    {
      hide Expand, Indexed;
      ViewSent(entries, acked, sent);
      forall i | 0 <= i < |entries|
        ensures if entries[i].Tombstone() then entries[i].msg.bytes.None?
                else State().Numbers(entries[i].num) && State().At(entries[i].num) == Kept(entries[i].msg)
      {
        ViewAt(entries, acked, sent, i);
        assert Follows(entries, acked, i);
        assert State().At(entries[i].num) == SlotsOf(entries[i])[entries[i].num - entries[i].First()];
      }
      forall n | State().Numbers(n) && State().At(n).Kept?
        ensures exists i | 0 <= i < |entries| :: !entries[i].Tombstone() && State().At(n) == Kept(entries[i].msg)
      {
        FoundReal(entries, acked, sent, n);
      }
    }

    // Walk the share's frames to the one numbered `num`: the frame before it, 0 for none.
    method Previous(share: nat, num: nat, ghost lo: nat) returns (prev: nat)
      requires Covers(entries, lo, sent) && Indexed(entries, View(entries, lo), held, byWeight)
      requires View(entries, lo).KeptBy(num, share)
      ensures IsPrevious(View(entries, lo), share, num, prev)
    {
      hide Expand;
      ghost var st := View(entries, lo);
      prev := 0;
      var at := held[share].head;
      while at != 0 && at != num
        invariant at != 0 && st.KeptBy(at, share) && at <= num
        invariant IsPrevious(st, share, at, prev)
        decreases num - at
      {
        prev := at;
        FoundReal(entries, lo, sent, at);
        at := entries[IndexOf(entries, at)].next;
      }
    }

    // The index becomes exact for the stream with the frame at `i` buried; the entries still
    // hold it.
    method Unhold(i: nat, ghost lo: nat)
      requires i < |entries| && !entries[i].Tombstone()
      requires Covers(entries, lo, sent) && Indexed(entries, View(entries, lo), held, byWeight)
      modifies this`entries, this`held, this`byWeight
      ensures |entries| == |old(entries)| && entries[i] == old(entries)[i]
      ensures Covers(entries, lo, sent) && Expand(entries) == Expand(old(entries))
              && Tombs(entries) == Tombs(old(entries))
      ensures View(entries, lo).Numbers(entries[i].num)
      ensures var st := Buried(View(entries, lo), entries[i].num);
              LinksExact(entries, entries[i].num, st) && HeldExact(held, st) && RankExact(byWeight, held)
    {
      hide Expand, Tombs, IsPrevious, IsLast, RankExact;
      var f := entries[i];
      var share := f.msg.share;
      ghost var st := View(entries, lo);
      ViewAt(entries, lo, sent, i);
      assert st.At(f.num) == Kept(f.msg) && st.KeptBy(f.num, share);
      var h := held[share];
      // The head of its share has nothing before it; any other frame has.
      var prev := 0;
      if h.head == f.num {
        HeadFirst(st, share, f.num);
      } else {
        prev := Previous(share, f.num, lo);
      }
      hide IsFirst, LinksExact, HeldExact;
      UnheldExact(entries, lo, sent, held, i, prev);
      var left := Left(h, f.msg, f.num, f.next, prev);
      RankAfter(byWeight, held, share, left);
      byWeight := Reranked(byWeight, held, share, left);
      if prev != 0 {
        var p := IndexOf(entries, prev);
        RelinkedSame(entries, p, f.next, lo, sent);
        entries := Relinked(entries, p, f.next);
      }
      held := if left.head == 0 then held - {share} else held[share := left];
    }

    // The first entry leaves.
    method DropFront(ghost lo: nat) returns (dropped: seq<Msg>)
      requires ValidFrom(lo) && entries != []
      modifies this
      ensures sent == old(sent) && acked == old(acked)
      ensures ValidFrom(old(entries[0].num)) && |entries| < |old(entries)|
      ensures lo < old(entries[0].num) <= sent
      ensures Expand(old(entries)) == SlotsOf(old(entries[0])) + Expand(entries)
      ensures dropped == Messages(SlotsOf(old(entries[0])))
    {
      hide Expand, Tombs, Total, IsFirst, HeldExact, RankExact, LinksExact, Messages, Covers;
      var f := entries[0];
      FrontCounts(entries, lo, sent);
      if !f.Tombstone() {
        dropped := [f.msg];
        Unhold(0, lo);
        FrontCounts(entries, lo, sent);
        RealFrontIndexed(entries, lo, sent, held);
        bytes := bytes - f.msg.Size();
        reals := reals - 1;
      } else {
        dropped := [];
        GoneFrontIndexed(entries, lo, sent, held);
        tombs := tombs - 1;
      }
      entries := entries[1..];
    }

    // Every entry whose numbers end by `h` leaves.
    method DropThrough(h: nat) returns (dropped: seq<Msg>, ghost lo: nat)
      requires Valid() && acked <= h <= sent
      modifies this
      ensures acked == old(acked) && sent == old(sent) && acked <= lo <= h
      ensures ValidFrom(lo) && (entries != [] ==> h < entries[0].num)
      ensures lo - acked <= |old(State()).slots| && Expand(entries) == old(State()).slots[lo - acked..]
      ensures dropped == Messages(old(State()).slots[..lo - acked])
    {
      hide Expand, Tombs, Total, Covers, Indexed, Messages;
      ghost var slots := Expand(entries);
      ViewSent(entries, acked, sent);
      dropped, lo := [], acked;
      MessagesGone(0);
      assert Gones(0) == [] == slots[..0];
      while entries != [] && entries[0].num <= h
        invariant acked == old(acked) && sent == old(sent) && acked <= lo <= h <= sent
        invariant ValidFrom(lo)
        invariant Expand(entries) == slots[lo - acked..]
        invariant dropped == Messages(slots[..lo - acked])
        decreases |entries|
      {
        ghost var f, n := entries[0], entries[0].num - lo;
        FrontOut(entries, lo, sent);
        var out := DropFront(lo);
        DroppedSlots(slots, lo - acked, SlotsOf(f), Expand(entries));
        dropped := dropped + out;
        lo := lo + n;
      }
    }

    // In range, the stream is acked through `h` and what it kept up to there handed back in
    // order; out of range, nothing changes.
    method Ack(h: nat) returns (ok: bool, dropped: seq<Msg>)
      requires Valid()
      modifies this
      ensures Valid()
      ensures ok == old(State()).CanResumeFrom(h)
      ensures State() == Acked(old(State()), h)
      ensures dropped == if ok then Messages(old(State()).slots[..h - old(State()).acked]) else []
    {
      hide Expand, Tombs, Total, Covers, Indexed, Messages;
      ghost var slots := Expand(entries);
      ViewSent(entries, acked, sent);
      if !(acked <= h <= sent) { return false, []; }
      ghost var lo;
      dropped, lo := DropThrough(h);
      ViewSent(entries, lo, sent);
      if entries == [] {
        EmptyCovers(lo, sent);
      } else {
        ghost var rest := Expand(entries);
        TrimFront(h, lo);
        MessagesGone(h - lo);
        DroppedSlots(slots, lo - acked, Gones(h - lo), Expand(entries));
        assert dropped + [] == dropped;
      }
      acked := h;
      return true, dropped;
    }

    // Part of the leading tombstone is acked.
    method TrimFront(h: nat, ghost lo: nat)
      requires ValidFrom(lo) && entries != [] && lo <= h < entries[0].num
      modifies this`entries
      ensures ValidFrom(h)
      ensures h <= lo + |Expand(old(entries))| && Expand(old(entries)) == Gones(h - lo) + Expand(entries)
    {
      hide Expand, Tombs, Total, IsFirst, HeldExact, RankExact;
      FrontOut(entries, lo, sent);
      ghost var es := entries;
      var t := entries[0];
      if t.Tombstone() && t.First() <= h {
        var x := t.(gap := t.num - h);
        entries := entries[0 := x];
        TrimmedCovers(es, lo, sent, h);
        assert Follows(es, lo, 0);
        assert Gones(t.gap) == Gones(h - lo) + Gones(x.gap);
        assert Expand(es) == Gones(h - lo) + Expand(entries);
        TotalConcat(Gones(h - lo), Expand(entries), SizeOf());
        TotalConcat(Gones(h - lo), Expand(entries), One());
        TotalGone(h - lo, SizeOf());
        TotalGone(h - lo, One());
        GonesBefore(lo, h - lo, Expand(entries));
        SameIndex(View(es, lo), View(entries, h), es, 0, held);
      } else {
        assert Follows(entries, lo, 0);
        assert Gones(0) + Expand(entries) == Expand(entries);
      }
    }

    predicate NearEnd(i: nat)
      requires i <= |entries|
      reads this
    {
      i < MERGE_NEAR || |entries| - i <= MERGE_NEAR
    }

    // The tombstone at `i` joins the one after it.
    method MergeAt(i: nat)
      requires Valid() && i + 1 < |entries| && entries[i].Tombstone() && entries[i + 1].Tombstone()
      modifies this`entries, this`tombs
      ensures Valid() && State() == old(State()) && |entries| + 1 == |old(entries)| && entries[i].Tombstone()
      ensures tombs + 1 == old(tombs)
    {
      hide Expand, Tombs, Total, LinksExact, HeldExact, RankExact;
      assert Follows(entries, acked, i + 1);
      var x := entries[i + 1].(gap := entries[i + 1].gap + entries[i].gap);
      MergedSame(entries, i, x, acked, sent);
      MergedLinks(entries, i, x, 0, State());
      entries := Merged(entries, i, x);
      tombs := tombs - 1;
    }

    // The number of entry `i` is gone; entries and counters say so, and nothing is merged yet.
    method Entomb(i: nat) returns (dropped: Msg)
      requires Valid() && i < |entries| && !entries[i].Tombstone()
      modifies this
      ensures Valid() && acked == old(acked) && sent == old(sent)
      ensures |entries| == |old(entries)| && entries[i].Tombstone()
      ensures old(State()).Numbers(old(entries[i].num)) && old(State()).At(old(entries[i].num)) == Kept(dropped)
      ensures State() == Buried(old(State()), old(entries[i].num))
      ensures reals + 1 == old(reals) && bytes + dropped.Size() == old(bytes)
    {
      hide Expand, Tombs, Total, HeldExact, RankExact, IsFirst;
      var f := entries[i];
      ViewAt(entries, acked, sent, i);
      dropped := f.msg;
      ghost var st := State();
      assert st.At(f.num) == Kept(f.msg);
      Unhold(i, acked);
      TotalUpdate(st.slots, f.num - acked - 1, Gone, SizeOf());
      TotalUpdate(st.slots, f.num - acked - 1, Gone, One());
      EntombedSame(entries, acked, sent, i);
      bytes := bytes - f.msg.Size();
      reals := reals - 1;
      entries := entries[i := Frame(f.num, 1, Emptied(f.msg), 0)];
      tombs := tombs + 1;
    }

    // The same stream in entries of which no two tombstones touch.
    method Compact()
      requires Valid()
      modifies this`entries, this`tombs
      ensures Valid() && State() == old(State())
      ensures NoTombsTouch(entries) && tombs <= reals + 1
    {
      hide Expand, Tombs, Total, HeldExact, RankExact, IsFirst;
      var out: seq<Frame> := [];
      ghost var es := entries;
      assert es[..0] == [];
      for i := 0 to |entries|
        invariant entries == es
        invariant Covers(out, acked, Before(es, acked, i)) && Expand(out) == Expand(es[..i])
        invariant forall f | f in out && !f.Tombstone() :: f in es
        invariant NoTombsTouch(out)
      {
        var f := entries[i];
        assert Follows(es, acked, i);
        CoversMore(out, acked, Before(es, acked, i), f);
        assert es[..i + 1] == es[..i] + [f];
        ExpandConcat(es[..i], [f]);
        ExpandConcat(out, [f]);
        if f.Tombstone() && out != [] && out[|out| - 1].Tombstone() {
          var k := |out| - 1;
          assert Follows(out, acked, k);
          var x := out[k].(num := f.num, gap := out[k].gap + f.gap);
          MergedSame(out + [f], k, x, acked, f.num);
          assert Merged(out + [f], k, x) == out[k := x];
          out := out[k := x];
        } else {
          out := out + [f];
        }
      }
      assert es[..|es|] == es;
      entries := out;
      FewTombs(out);
      tombs := 0;
      assert Tombs(entries[..0]) == 0 by { NoTombs(); assert entries[..0] == []; }
      for i := 0 to |entries|
        invariant entries == out && tombs == Tombs(entries[..i])
      {
        assert entries[..i + 1] == entries[..i] + [entries[i]];
        ExpandConcat(entries[..i], [entries[i]]);
        ExpandOne(entries[i]);
        tombs := tombs + (if entries[i].Tombstone() then 1 else 0);
      }
      assert entries[..|entries|] == entries;
    }

    // The number of entry `i` is gone and no other; tombstones stay within their slack.
    method Bury(i: nat) returns (dropped: Msg)
      requires Valid() && i < |entries| && !entries[i].Tombstone()
      modifies this
      ensures Valid() && acked == old(acked)
      ensures old(State()).Numbers(old(entries[i].num)) && old(State()).At(old(entries[i].num)) == Kept(dropped)
      ensures State() == Buried(old(State()), old(entries[i].num))
      ensures tombs <= reals + 64
      ensures reals + 1 == old(reals) && bytes + dropped.Size() == old(bytes)
    {
      hide Expand, Tombs, Total, Covers, Indexed;
      dropped := Entomb(i);
      if i + 1 < |entries| && entries[i + 1].Tombstone() && NearEnd(i) {
        MergeAt(i);
      }
      if i > 0 && i < |entries| && entries[i - 1].Tombstone() && entries[i].Tombstone() && NearEnd(i - 1) {
        MergeAt(i - 1);
      }
      if tombs > reals + COMPACT_SLACK { Compact(); }
    }

    // Buries the walk's victim, or finds that the stream keeps nothing.
    method EvictOne() returns (dropped: Option<Msg>, ghost victim: nat)
      requires Valid()
      modifies this
      ensures Valid() && acked == old(acked)
      ensures dropped.None? ==> State() == old(State()) && forall n, s :: !State().KeptBy(n, s)
      ensures dropped.Some? ==>
                && IsVictim(old(State()), victim) && GoesFirst(old(State()).slots, victim - old(State()).acked - 1)
                && old(State()).At(victim) == Kept(dropped.value)
                && State() == Buried(old(State()), victim)
                && tombs <= reals + 64
                && reals + 1 == old(reals) && bytes + dropped.value.Size() == old(bytes)
      ensures dropped.None? ==> reals == old(reals) && bytes == old(bytes)
    {
      hide Expand, Tombs, Total, GoesFirst, LinksExact, HeldExact, RankExact, Covers, IsVictim;
      if byWeight == {} {
        NothingHeld(State(), held, byWeight);
        return None, 0;
      }
      ghost var g := GreatestKey(byWeight);
      var top :| top in byWeight && forall k | k in byWeight :: k.Le(top);
      TopIsVictim(State(), held, byWeight, top);
      var h := held[top.share];
      FoundReal(entries, acked, sent, h.head);
      victim := h.head;
      VictimExactly(State(), victim);
      var m := Bury(IndexOf(entries, h.head));
      dropped := Some(m);
    }

    // Ends within both limits: buries the next victim while past one, and no further.
    method Enforce(maxBytes: nat, maxFrames: nat) returns (dropped: seq<Msg>, ghost victims: seq<nat>)
      requires Valid()
      modifies this
      ensures Valid() && acked == old(acked)
      ensures Evicted(old(State()), victims, State(), maxBytes, maxFrames)
      ensures Evictees(old(State()), victims) == dropped
      ensures !Over(State(), maxBytes, maxFrames)
      ensures !Over(old(State()), maxBytes, maxFrames) ==> State() == old(State()) && dropped == []
    {
      hide Expand, Tombs, Covers, Indexed, IsVictim, Total;
      dropped, victims := [], [];
      var more := true;
      while (bytes > maxBytes || reals > maxFrames) && more
        invariant Valid() && acked == old(acked)
        invariant Evicted(old(State()), victims, State(), maxBytes, maxFrames)
        invariant Evictees(old(State()), victims) == dropped
        invariant !more ==> forall n, s :: !State().KeptBy(n, s)
        decreases reals, more
      {
        ghost var st := State();
        assert Over(st, maxBytes, maxFrames);
        var m, v := EvictOne();
        if m.Some? {
          EvictedMore(old(State()), victims, st, v, maxBytes, maxFrames);
          EvicteesMore(old(State()), victims, st, v, maxBytes, maxFrames);
          dropped := dropped + [m.value];
          victims := victims + [v];
        } else {
          more := false;
        }
      }
      if !more { NothingTotals(State()); }
      assert !Over(old(State()), maxBytes, maxFrames) ==> victims == [];
    }

    // The pool picked the frame stamped `stamp`: bury it here.
    method EvictStamp(stamp: nat) returns (found: bool, ghost num: nat)
      requires Valid()
      modifies this
      ensures Valid() && acked == old(acked)
      ensures found ==> IsStamped(old(State()), stamp, num) && State() == Buried(old(State()), num)
      ensures !found ==> State() == old(State()) && forall n :: !IsStamped(State(), stamp, n)
    {
      hide Expand, Tombs, Total, Covers, Indexed;
      num := 0;
      if stamp == 0 { return false, 0; }
      var i := 0;
      while i < |entries|
        invariant i <= |entries|
        invariant forall j | 0 <= j < i :: !entries[j].Tombstone() ==> entries[j].msg.stamp != stamp
      {
        if !entries[i].Tombstone() && entries[i].msg.stamp == stamp {
          num := entries[i].num;
          ViewAt(entries, acked, sent, i);
          assert State().At(num) == Kept(entries[i].msg);
          var m := Bury(i);
          return true, num;
        }
        i := i + 1;
      }
      forall n ensures !IsStamped(State(), stamp, n) {
        if State().Numbers(n) && State().At(n).Kept? { FoundReal(entries, acked, sent, n); }
      }
      return false, 0;
    }

    // Hands over all the stream kept, in order, and leaves it acked to its end.
    method TakeAll() returns (out: seq<Msg>)
      requires Valid()
      modifies this
      ensures Valid()
      ensures out == Messages(old(State()).slots)
      ensures State() == Stream(old(State()).Sent(), [])
    {
      hide Expand, Tombs, Covers, Indexed, Total, Messages;
      ghost var es := entries;
      ViewSent(entries, acked, sent);
      out := [];
      assert es[..0] == [];
      assert out == Messages(Expand(es[..0])) by { NothingAtAll(); }
      for i := 0 to |entries|
        invariant entries == es && acked == old(acked) && sent == old(sent)
        invariant out == Messages(Expand(es[..i]))
      {
        assert es[..i + 1] == es[..i] + [es[i]];
        ExpandConcat(es[..i], [es[i]]);
        ExpandOne(es[i]);
        MessagesConcat(Expand(es[..i]), SlotsOf(es[i]));
        MessagesGone(es[i].gap);
        MessagesOne(es[i].msg);
        if !entries[i].Tombstone() { out := out + [entries[i].msg]; }
      }
      assert es[..|es|] == es;
      entries, held, byWeight, bytes, reals, tombs, acked := [], map[], {}, 0, 0, 0, sent;
      EmptyRing(sent);
    }

    // How many entries end at or before `h` (std::upper_bound).
    function FirstAfter(h: nat): (i: nat)
      reads this
      ensures i <= |entries|
      ensures forall j | 0 <= j < i :: entries[j].num <= h
      ensures i < |entries| ==> h < entries[i].num
    {
      IndexOf(entries, h + 1)
    }

    // Everything after `h`, in order, each run of tombstones as one gap.
    method ReplayAfter(h: nat) returns (out: seq<Item>)
      requires Valid() && State().CanResumeFrom(h)
      ensures out == Replay(State(), h)
    {
      hide Expand, Tombs, Total, Indexed, Runs, Follows;
      ghost var st := State();
      ViewSent(entries, acked, sent);
      out := [];
      var run: nat, runEnd: nat := 0, h;
      var i := FirstAfter(h);
      ghost var at: nat := h;
      NothingReplayed(h);
      assert st.slots[h - acked..h - acked] == [];
      while i < |entries|
        invariant FirstAfter(h) <= i <= |entries|
        invariant h <= at <= sent
        invariant at == if Before(entries, acked, i) <= h then h else Before(entries, acked, i)
        invariant run > 0 ==> runEnd == at
        invariant !EndsInGap(out)
        invariant Runs(st.slots[h - acked..at - acked], h) == Flushed(out, run, at)
      {
        var f := entries[i];
        Ascending(entries, acked, sent, FirstAfter(h), i);
        ReplayOne(entries, acked, sent, i, h, at, out, run);
        if f.Tombstone() {
          var n := if f.First() > h then f.gap else f.num - h;
          run, runEnd := run + n, f.num;
        } else {
          if run > 0 { out := out + [Gap(runEnd, run)]; }
          run := 0;
          out := out + [Real(f.num, f.msg)];
        }
        at := f.num;
        i := i + 1;
      }
      assert at == sent;
      assert st.slots[h - acked..sent - acked] == st.slots[h - acked..];
      if run > 0 { out := out + [Gap(runEnd, run)]; }
    }

    method GapAfter(h: nat) returns (gap: bool)
      requires Valid() && State().CanResumeFrom(h)
      ensures gap <==> exists n :: h < n && State().Numbers(n) && State().At(n).Gone?
    {
      hide Expand, Tombs, Total, Indexed;
      ghost var st := State();
      var i := FirstAfter(h);
      while i < |entries|
        invariant FirstAfter(h) <= i <= |entries|
        invariant forall j | FirstAfter(h) <= j < i :: !entries[j].Tombstone()
      {
        if entries[i].Tombstone() {
          ViewAt(entries, acked, sent, i);
          Ascending(entries, acked, sent, FirstAfter(h), i);
          assert st.At(entries[i].num) == Gone;
          return true;
        }
        i := i + 1;
      }
      forall n | h < n && st.Numbers(n) ensures st.At(n).Kept? {
        ViewSent(entries, acked, sent);
        Found(entries, acked, sent, n);
        ViewAt(entries, acked, sent, IndexOf(entries, n));
      }
      return false;
    }
  }

  // What Restore takes: entries that follow on from `acked` to `sent`, with bytes in the kept
  // frames and in no tombstone.
  ghost predicate Restorable(es: seq<Frame>, acked: nat, sent: nat) {
    && acked <= sent && Covers(es, acked, sent)
    && forall i | 0 <= i < |es| :: es[i].msg.bytes.Some? <==> !es[i].Tombstone()
  }

  datatype Tally = Tally(bytes: nat, reals: nat, tombs: nat)

  // The counters of a ring's entries, or nothing when they are not what a ring holds.
  method TallyUp(sent: nat, acked: nat, entries: seq<Frame>) returns (r: Option<Tally>)
    ensures r.Some? <==> Restorable(entries, acked, sent)
    ensures r.Some? ==>
              r.value == Tally(Total(Expand(entries), SizeOf()), Total(Expand(entries), One()), Tombs(entries))
  {
    hide Expand, Tombs, Total;
    if acked > sent { return None; }
    var bytes, reals, tombs, next := 0, 0, 0, acked + 1;
    assert entries[..0] == [];
    EmptyRing(acked);
    for i := 0 to |entries|
      invariant next == Before(entries, acked, i) + 1
      invariant forall j | 0 <= j < i :: Follows(entries, acked, j)
      invariant forall j | 0 <= j < i :: entries[j].msg.bytes.Some? <==> !entries[j].Tombstone()
      invariant bytes == Total(Expand(entries[..i]), SizeOf())
      invariant reals == Total(Expand(entries[..i]), One())
      invariant tombs == Tombs(entries[..i])
    {
      var f := entries[i];
      TallyOne(entries, i);
      if f.Tombstone() {
        if f.msg.bytes.Some? || f.gap > f.num || f.num - f.gap + 1 != next {
          assert !Follows(entries, acked, i);
          return None;
        }
        tombs := tombs + 1;
      } else {
        if f.msg.bytes.None? || f.num != next {
          assert !Follows(entries, acked, i) || f.msg.bytes.None?;
          return None;
        }
        bytes := bytes + f.msg.Size();
        reals := reals + 1;
      }
      next := f.num + 1;
    }
    if next != sent + 1 { return None; }
    assert entries[..|entries|] == entries;
    return Some(Tally(bytes, reals, tombs));
  }

  lemma {:induction false} TallyOne(es: seq<Frame>, i: nat)
    requires i < |es|
    ensures var f := es[i];
            && Total(Expand(es[..i + 1]), SizeOf()) ==
               Total(Expand(es[..i]), SizeOf()) + (if f.Tombstone() then 0 else f.msg.Size())
            && Total(Expand(es[..i + 1]), One()) == Total(Expand(es[..i]), One()) + (if f.Tombstone() then 0 else 1)
            && Tombs(es[..i + 1]) == Tombs(es[..i]) + (if f.Tombstone() then 1 else 0)
  {
    hide Expand, Tombs, Total;
    var f := es[i];
    assert es[..i + 1] == es[..i] + [f];
    ExpandConcat(es[..i], [f]);
    ExpandOne(f);
    TotalConcat(Expand(es[..i]), SlotsOf(f), SizeOf());
    TotalConcat(Expand(es[..i]), SlotsOf(f), One());
    TotalGone(f.gap, SizeOf());
    TotalGone(f.gap, One());
    OneTotal(Kept(f.msg));
  }

  // A whole ring with the stream the entries stand for; none unless they are restorable.
  method Restore(sent: nat, acked: nat, entries: seq<Frame>) returns (r: Option<Ring>)
    ensures r.Some? <==> Restorable(entries, acked, sent)
    ensures r.Some? ==> fresh(r.value) && r.value.Valid() && r.value.State() == View(entries, acked)
  {
    hide Expand, Tombs, LinksExact, HeldExact, RankExact, Total, Covers;
    var tally := TallyUp(sent, acked, entries);
    if tally.None? { return None; }
    var ring := new Ring();
    ring.sent, ring.acked := sent, acked;
    ring.bytes, ring.reals, ring.tombs := tally.value.bytes, tally.value.reals, tally.value.tombs;
    ring.entries := entries;
    EmptyRing(acked);
    assert ring.entries[..0] == [];
    for i := 0 to |ring.entries|
      invariant ring.sent == sent && ring.acked == acked && fresh(ring)
      invariant |ring.entries| == |entries| && ring.entries[i..] == entries[i..]
      invariant Covers(ring.entries, acked, sent)
      invariant Expand(ring.entries) == Expand(entries) && Tombs(ring.entries) == Tombs(entries)
      invariant ring.Counted()
      invariant Indexed(ring.entries[..i], View(ring.entries[..i], acked), ring.held, ring.byWeight)
    {
      ghost var es := ring.entries;
      RelinkedSame(es, i, 0, acked, sent);
      ring.entries := Relinked(ring.entries, i, 0);
      assert ring.entries[..i] == es[..i];
      assert ring.entries[i + 1..] == entries[i + 1..];
      var f := ring.entries[i];
      if !f.Tombstone() {
        ring.Hold(i, acked);
        assert ring.entries[i + 1..] == entries[i + 1..];
      } else {
        assert ring.entries[..i + 1] == ring.entries[..i] + [f];
        ExpandConcat(ring.entries[..i], [f]);
        ExpandOne(f);
        IndexedGap(ring.entries[..i], View(ring.entries[..i], acked), ring.held, ring.byWeight, f);
      }
    }
    assert ring.entries[..|ring.entries|] == ring.entries;
    return Some(ring);
  }

  lemma {:induction false} HeadFirst(st: Stream, share: nat, n: nat)
    requires IsFirst(st, share, 0, n) && n != 0
    ensures IsPrevious(st, share, n, 0)
  {}

  lemma {:induction false} PreviousElsewhere(es: seq<Frame>, lo: nat, hi: nat, i: nat, prev: nat)
    requires Covers(es, lo, hi) && i < |es| && prev != 0 && !es[i].Tombstone()
    requires IsPrevious(View(es, lo), es[i].msg.share, es[i].num, prev)
    ensures IndexOf(es, prev) < |es| && IndexOf(es, prev) != i
  {
    FoundReal(es, lo, hi, prev);
  }

  lemma {:induction false} PrefixCovers(es: seq<Frame>, lo: nat, hi: nat, k: nat)
    requires Covers(es, lo, hi) && k <= |es|
    ensures Covers(es[..k], lo, Before(es, lo, k))
  {
    forall i | 0 <= i < k ensures Follows(es[..k], lo, i) {
      assert Follows(es, lo, i);
    }
  }

  lemma {:induction false} CoversMore(es: seq<Frame>, lo: nat, hi: nat, f: Frame)
    requires Covers(es, lo, hi) && f.gap <= f.num && f.First() == hi + 1
    requires f.Tombstone() ==> f.msg.bytes.None?
    ensures Covers(es + [f], lo, f.num)
  {
    forall i | 0 <= i < |es| + 1 ensures Follows(es + [f], lo, i) {
      if i < |es| { assert Follows(es, lo, i); }
    }
  }

  lemma {:induction false} IndexOfPrefix(es: seq<Frame>, k: nat, v: nat)
    requires k <= |es| && IndexOf(es[..k], v) < k
    ensures IndexOf(es, v) == IndexOf(es[..k], v)
  {
    var i, j := IndexOf(es, v), IndexOf(es[..k], v);
    assert es[..k][j] == es[j];
    assert forall t | 0 <= t < j :: es[t] == es[..k][t];
  }

  // `x` stands for what the tombstones at `i` and `i + 1` stand for.
  ghost predicate Stands(es: seq<Frame>, i: nat, x: Frame) {
    && i + 1 < |es| && es[i].Tombstone() && es[i + 1].Tombstone()
    && x.num == es[i + 1].num && x.gap == es[i].gap + es[i + 1].gap && x.msg.bytes.None?
  }

  function Merged(es: seq<Frame>, i: nat, x: Frame): seq<Frame>
    requires i + 1 < |es|
  {
    es[..i] + [x] + es[i + 2..]
  }

  lemma {:induction false} MergedSame(es: seq<Frame>, i: nat, x: Frame, lo: nat, hi: nat)
    requires Stands(es, i, x)
    ensures Expand(Merged(es, i, x)) == Expand(es) && Tombs(Merged(es, i, x)) + 1 == Tombs(es)
    ensures Covers(es, lo, hi) ==> Covers(Merged(es, i, x), lo, hi)
  {
    hide Expand, Tombs;
    assert es == es[..i] + ([es[i]] + [es[i + 1]]) + es[i + 2..];
    ExpandSplice(es[..i], [es[i]] + [es[i + 1]], es[i + 2..]);
    ExpandSplice(es[..i], [x], es[i + 2..]);
    ExpandConcat([es[i]], [es[i + 1]]);
    ExpandOne(es[i]);
    ExpandOne(es[i + 1]);
    ExpandOne(x);
    assert Gones(es[i].gap + es[i + 1].gap) == Gones(es[i].gap) + Gones(es[i + 1].gap);
    if Covers(es, lo, hi) {
      var r := Merged(es, i, x);
      forall j | 0 <= j < |r| ensures Follows(r, lo, j) {
        assert Follows(es, lo, i) && Follows(es, lo, i + 1);
        assert Follows(es, lo, if j < i then j else j + 1);
      }
    }
  }

  lemma {:induction false} MergedLinks(es: seq<Frame>, i: nat, x: Frame, skip: nat, st: Stream)
    requires Stands(es, i, x) && LinksExact(es, skip, st)
    ensures LinksExact(Merged(es, i, x), skip, st)
  {
    hide IsFirst;
    forall f | f in Merged(es, i, x) && !f.Tombstone() ensures f in es {
      assert f in es[..i] || f in es[i + 2..];
    }
  }

  // What the first entry counts for, and what is left without it.
  lemma {:induction false} FrontCounts(es: seq<Frame>, lo: nat, hi: nat)
    requires Covers(es, lo, hi) && es != []
    ensures var f, rest := es[0], Expand(es[1..]);
            && Expand(es) == SlotsOf(f) + rest && Covers(es[1..], f.num, hi) && lo < f.num <= hi
            && Total(Expand(es), SizeOf()) == (if f.Tombstone() then 0 else f.msg.Size()) + Total(rest, SizeOf())
            && Total(Expand(es), One()) == (if f.Tombstone() then 0 else 1) + Total(rest, One())
            && Tombs(es) == (if f.Tombstone() then 1 else 0) + Tombs(es[1..])
            && Messages(SlotsOf(f)) == if f.Tombstone() then [] else [f.msg]
  {
    hide Expand, Tombs, Total, Messages;
    var f := es[0];
    FrontOut(es, lo, hi);
    ViewAt(es, lo, hi, 0);
    TotalConcat(SlotsOf(f), Expand(es[1..]), SizeOf());
    TotalConcat(SlotsOf(f), Expand(es[1..]), One());
    if f.Tombstone() {
      TotalGone(f.gap, SizeOf());
      TotalGone(f.gap, One());
      MessagesGone(f.gap);
    } else {
      OneTotal(Kept(f.msg));
      MessagesOne(f.msg);
    }
  }

  lemma {:induction false} LinksWithout(es: seq<Frame>, lo: nat, hi: nat, skip: nat, st: Stream)
    requires Covers(es, lo, hi) && es != [] && LinksExact(es, skip, st) && (skip == es[0].num || skip == 0)
    ensures LinksExact(es[1..], 0, st)
  {
    hide Expand, Tombs, IsFirst;
    FrontOut(es, lo, hi);
    assert forall i | 0 <= i < |es| :: es[i].num > 0 by {
      forall i | 0 <= i < |es| ensures es[i].num > 0 { assert Follows(es, lo, i); }
    }
  }

  lemma {:induction false} RealFrontIndexed(es: seq<Frame>, lo: nat, hi: nat, held: map<nat, Held>)
    requires Covers(es, lo, hi) && es != [] && !es[0].Tombstone() && View(es, lo).Numbers(es[0].num)
    requires var st := Buried(View(es, lo), es[0].num); LinksExact(es, es[0].num, st) && HeldExact(held, st)
    ensures var st := View(es[1..], es[0].num); LinksExact(es[1..], 0, st) && HeldExact(held, st)
  {
    hide Expand, Tombs, LinksExact, HeldExact, SameKept;
    var f := es[0];
    FrontOut(es, lo, hi);
    var st := Buried(View(es, lo), f.num);
    assert st == Stream(lo, Gones(1) + Expand(es[1..]));
    GonesBefore(lo, 1, Expand(es[1..]));
    SameIndex(st, View(es[1..], f.num), es, f.num, held);
    LinksWithout(es, lo, hi, f.num, View(es[1..], f.num));
  }

  lemma {:induction false} GoneFrontIndexed(es: seq<Frame>, lo: nat, hi: nat, held: map<nat, Held>)
    requires Covers(es, lo, hi) && es != [] && es[0].Tombstone()
    requires LinksExact(es, 0, View(es, lo)) && HeldExact(held, View(es, lo))
    ensures var st := View(es[1..], es[0].num); LinksExact(es[1..], 0, st) && HeldExact(held, st)
  {
    hide Expand, Tombs, LinksExact, HeldExact, SameKept;
    var f := es[0];
    FrontOut(es, lo, hi);
    GonesBefore(lo, f.gap, Expand(es[1..]));
    SameIndex(View(es, lo), View(es[1..], f.num), es, 0, held);
    LinksWithout(es, lo, hi, 0, View(es[1..], f.num));
  }

  lemma {:induction false} OneTotal(s: Slot)
    ensures forall f: Slot -> nat :: Total([s], f) == f(s)
  {
    assert [s][1..] == [];
  }

  lemma {:induction false} MessagesOne(m: Msg)
    ensures Messages([Kept(m)]) == [m]
  {
    assert [Kept(m)][1..] == [];
  }

  // Without its first entry a ring covers what is left, and no link names it.
  lemma {:induction false} FrontOut(es: seq<Frame>, lo: nat, hi: nat)
    requires Covers(es, lo, hi) && es != []
    ensures Expand(es) == SlotsOf(es[0]) + Expand(es[1..])
    ensures Tombs(es) == (if es[0].Tombstone() then 1 else 0) + Tombs(es[1..])
    ensures Covers(es[1..], es[0].num, hi)
    ensures forall f | f in es[1..] :: f in es && f.num != es[0].num
    ensures |SlotsOf(es[0])| == es[0].num - lo
  {
    hide Expand, Tombs;
    assert es == [es[0]] + es[1..];
    ExpandConcat([es[0]], es[1..]);
    ExpandOne(es[0]);
    assert Follows(es, lo, 0);
    forall i | 0 <= i < |es| - 1 ensures Follows(es[1..], es[0].num, i) {
      assert Follows(es, lo, i + 1);
    }
    forall f | f in es[1..] ensures f in es && f.num != es[0].num {
      var i :| 0 <= i < |es| - 1 && es[1..][i] == f;
      Ascending(es, lo, hi, 0, i + 1);
      assert es[i + 1] == f;
    }
  }

  lemma {:induction false} SliceSlice<T>(s: seq<T>, a: nat, b: nat)
    requires a + b <= |s|
    ensures s[a..][b..] == s[a + b..]
  {}

  lemma {:induction false} EmptyCovers(lo: nat, hi: nat)
    requires Covers([], lo, hi)
    ensures lo == hi
  {}

  lemma {:induction false} DroppedSlots(slots: seq<Slot>, n: nat, front: seq<Slot>, rest: seq<Slot>)
    requires n <= |slots| && slots[n..] == front + rest
    ensures slots[n + |front|..] == rest
    ensures Messages(slots[..n + |front|]) == Messages(slots[..n]) + Messages(front)
  {
    hide Messages;
    assert slots == slots[..n] + slots[n..];
    assert slots[..n + |front|] == slots[..n] + front;
    MessagesConcat(slots[..n], front);
    SliceSlice(slots, n, |front|);
    assert (front + rest)[|front|..] == rest;
  }

  lemma {:induction false} TrimmedCovers(es: seq<Frame>, lo: nat, hi: nat, h: nat)
    requires Covers(es, lo, hi) && es != [] && es[0].Tombstone() && es[0].First() <= h < es[0].num
    ensures var t := es[0 := es[0].(gap := es[0].num - h)];
            && Covers(t, h, hi) && Tombs(t) == Tombs(es)
            && Expand(t) == Gones(es[0].num - h) + Expand(es[1..])
            && forall f | f in t && !f.Tombstone() :: f in es
  {
    hide Expand, Tombs;
    var x := es[0].(gap := es[0].num - h);
    var t := es[0 := x];
    TrimmedFollows(es, lo, hi, h, t);
    FrontOut(es, lo, hi);
    assert t == [x] + es[1..];
    ExpandConcat([x], es[1..]);
    ExpandOne(x);
  }

  lemma {:induction false} TrimmedFollows(es: seq<Frame>, lo: nat, hi: nat, h: nat, t: seq<Frame>)
    requires Covers(es, lo, hi) && es != [] && es[0].Tombstone() && es[0].First() <= h < es[0].num
    requires t == es[0 := es[0].(gap := es[0].num - h)]
    ensures Covers(t, h, hi)
  {
    forall i | 0 <= i < |t| ensures Follows(t, h, i) {
      assert Follows(es, lo, i);
      if i == 0 {
        assert t[0].First() == h + 1;
      } else if i == 1 {
        assert t[0].num == es[0].num && t[1] == es[1];
      } else {
        assert t[i] == es[i] && t[i - 1] == es[i - 1];
      }
    }
    assert t[|t| - 1].num == es[|es| - 1].num;
  }

  // An empty weight order means that nothing is kept.
  lemma {:induction false} NothingHeld(st: Stream, held: map<nat, Held>, byWeight: set<WeightKey>)
    requires HeldExact(held, st) && RankExact(byWeight, held) && byWeight == {}
    ensures forall n, s :: !st.KeptBy(n, s)
  {
    assert held == map[];
  }

  // What the weight order puts last is what the walk picks.
  lemma {:induction false} TopIsVictim(st: Stream, held: map<nat, Held>, byWeight: set<WeightKey>, top: WeightKey)
    requires HeldExact(held, st) && RankExact(byWeight, held)
    requires top in byWeight && forall k | k in byWeight :: k.Le(top)
    ensures top.share in held && st.KeptBy(held[top.share].head, top.share) && IsVictim(st, held[top.share].head)
  {
    hide ShareWeight;
    var n := held[top.share].head;
    assert st.KeptBy(n, top.share);
    forall j | st.Numbers(j) && st.At(j).Kept? ensures Outweighs(st, top.share, n, st.At(j).msg.share) {
      var o := st.At(j).msg.share;
      assert st.KeptBy(j, o);
      assert KeyOf(held[o], o) in byWeight;
    }
  }

  lemma {:induction false} EntombedSame(es: seq<Frame>, lo: nat, hi: nat, i: nat)
    requires Covers(es, lo, hi) && i < |es| && !es[i].Tombstone()
    ensures View(es, lo).Numbers(es[i].num)
    ensures forall m: Msg | m.bytes.None? :: var t := es[i := Frame(es[i].num, 1, m, 0)];
            && Covers(t, lo, hi) && Tombs(t) == Tombs(es) + 1
            && View(t, lo) == Buried(View(es, lo), es[i].num)
            && forall f | f in t && !f.Tombstone() :: f in es && f.num != es[i].num
  {
    hide Expand, Tombs;
    ViewAt(es, lo, hi, i);
    ExpandLength(es, lo, hi, i);
    assert Follows(es, lo, i);
    forall m: Msg | m.bytes.None? ensures var t := es[i := Frame(es[i].num, 1, m, 0)];
            && Covers(t, lo, hi) && Tombs(t) == Tombs(es) + 1
            && View(t, lo) == Buried(View(es, lo), es[i].num)
            && forall f | f in t && !f.Tombstone() :: f in es && f.num != es[i].num
    {
      var x := Frame(es[i].num, 1, m, 0);
      var t := es[i := x];
      assert es == es[..i] + [es[i]] + es[i + 1..];
      assert t == es[..i] + [x] + es[i + 1..];
      ExpandSplice(es[..i], [es[i]], es[i + 1..]);
      ExpandSplice(es[..i], [x], es[i + 1..]);
      ExpandOne(es[i]);
      ExpandOne(x);
      assert Gones(1) == [Gone];
      forall j | 0 <= j < |t| ensures Follows(t, lo, j) {
        assert Follows(es, lo, j);
      }
      forall f | f in t && !f.Tombstone() ensures f in es && f.num != es[i].num {
        var j :| 0 <= j < |t| && t[j] == f;
        assert es[j] == f;
        if j < i { Ascending(es, lo, hi, j, i); } else { Ascending(es, lo, hi, i, j); }
      }
    }
  }

  ghost predicate NoTombsTouch(es: seq<Frame>) {
    forall i | 0 < i < |es| :: es[i].Tombstone() ==> !es[i - 1].Tombstone()
  }

  lemma {:induction false} NoTombs()
    ensures Tombs([]) == 0
  {}

  // Where no two tombstones touch there is at most one more of them than real frames.
  lemma {:induction false} FewTombs(es: seq<Frame>)
    requires NoTombsTouch(es)
    ensures Tombs(es) <= Total(Expand(es), One()) + (if es != [] && es[|es| - 1].Tombstone() then 1 else 0)
    decreases |es|
  {
    if es != [] {
      var front, f := es[..|es| - 1], es[|es| - 1];
      FewTombs(front);
      TotalConcat(Expand(front), SlotsOf(f), One());
      OneTotal(SlotsOf(f)[0]);
      assert !f.Tombstone() ==> SlotsOf(f) == [Kept(f.msg)];
    }
  }

  lemma {:induction false} NothingTotals(st: Stream)
    requires forall n, s :: !st.KeptBy(n, s)
    ensures Total(st.slots, SizeOf()) == 0 && Total(st.slots, One()) == 0
  {
    forall i | 0 <= i < |st.slots| ensures st.slots[i] == Gone {
      assert st.slots[i].Kept? ==> st.KeptBy(st.acked + 1 + i, st.slots[i].msg.share);
    }
    assert st.slots == Gones(|st.slots|);
    TotalGone(|st.slots|, SizeOf());
    TotalGone(|st.slots|, One());
  }

  // The frame numbered `n` carries the stamp.
  ghost predicate IsStamped(st: Stream, stamp: nat, n: nat) {
    stamp != 0 && st.Numbers(n) && st.At(n).Kept? && st.At(n).msg.stamp == stamp
  }

  lemma {:induction false} NothingAtAll()
    ensures Messages(Expand([])) == []
  {}

  lemma {:induction false} NothingReplayed(h: nat)
    ensures Runs([], h) == []
  {}

  lemma {:induction false} EmptyRing(sent: nat)
    ensures Covers([], sent, sent) && Expand([]) == [] && Tombs([]) == 0
    ensures Indexed([], Stream(sent, []), map[], {})
    ensures forall f: Slot -> nat :: Total([], f) == 0
  {}

  // What entry `i` adds to the slots already replayed, those numbered up to `at`.
  lemma {:induction false} ReplayStep(es: seq<Frame>, lo: nat, hi: nat, i: nat, h: nat, at: nat)
    requires Covers(es, lo, hi) && i < |es| && lo <= h < es[i].num
    requires at == if Before(es, lo, i) <= h then h else Before(es, lo, i)
    ensures at < es[i].num <= hi == View(es, lo).Sent()
    ensures es[i].Tombstone() ==> es[i].num - at == if es[i].First() > h then es[i].gap else es[i].num - h
    ensures var slots := Expand(es);
            slots[h - lo..es[i].num - lo] ==
            slots[h - lo..at - lo] + (if es[i].Tombstone() then Gones(es[i].num - at) else [Kept(es[i].msg)])
  {
    hide Expand;
    assert Follows(es, lo, i);
    ViewAt(es, lo, hi, i);
    var slots := Expand(es);
    forall j | at - lo <= j < es[i].num - lo
      ensures slots[j] == if es[i].Tombstone() then Gone else Kept(es[i].msg)
    {
      assert slots[j] == View(es, lo).At(lo + j + 1);
    }
  }

  // What entry `i` adds to the items already sent.
  lemma {:induction false} ReplayOne(es: seq<Frame>, lo: nat, hi: nat, i: nat, h: nat, at: nat, out: seq<Item>,
                                     run: nat)
    requires Covers(es, lo, hi) && i < |es| && lo <= h < es[i].num
    requires at == if Before(es, lo, i) <= h then h else Before(es, lo, i)
    requires at - lo <= |Expand(es)| && Runs(Expand(es)[h - lo..at - lo], h) == Flushed(out, run, at) && !EndsInGap(out)
    ensures at < es[i].num <= hi == View(es, lo).Sent()
    ensures es[i].Tombstone() ==>
              && es[i].num - at == (if es[i].First() > h then es[i].gap else es[i].num - h)
              && Runs(Expand(es)[h - lo..es[i].num - lo], h) == Flushed(out, run + es[i].num - at, es[i].num)
    ensures !es[i].Tombstone() ==>
              Runs(Expand(es)[h - lo..es[i].num - lo], h) == Flushed(out, run, at) + [Real(es[i].num, es[i].msg)]
  {
    hide Expand, Runs, Follows;
    ReplayStep(es, lo, hi, i, h, at);
    var done := Expand(es)[h - lo..at - lo];
    if es[i].Tombstone() {
      RunsGones(done, h, out, run, es[i].num - at);
    } else {
      RunsKept(done, h, es[i].msg);
    }
  }
}
