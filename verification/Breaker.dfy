// relay-uws/src/breaker.h: what a socket may make the relay do, paid from buckets that
// refill, and how long one that cannot pay waits.
module Breakers {
  import opened Base

  // Buckets count in millionths of a unit.
  const M: int := 1_000_000
  const TEN_DAYS_MS: int := 864_000_000
  const LADDER_SLOTS: nat := 10

  // A bucket's first level, its cap, and how many thousandths of a unit each second adds.
  datatype Rates = Rates(start: int, cap: int, refill: int)

  datatype Limits = Limits(
    full: Rates,
    joinsFull: Rates,
    debtFloor: int,
    paceReserve: int,
    ladderWindowMs: int,
    socketPauseMs: int,
    pauseSlackMs: int,
    // What the other kinds of payer run on.
    fetch: Rates,
    joinsFetch: Rates,
    guest: Rates,
    joinsGuest: Rates
  )

  const DEFAULT := Limits(
    Rates(400_000, 800_000, 1_000_000),
    Rates(2_500, 5_000, 2_000),
    -100_000, 16_000, 600_000, 30_000, 2_000,
    Rates(20_000, 20_000, 200_000),
    Rates(2_500, 2_500, 2_000),
    Rates(5_000, 5_000, 50_000),
    Rates(10, 10, 100))

  // ---- A bucket ----

  datatype Bucket = Bucket(u: int, lastMs: int) {
    function Refill(now: int, r: Rates): Bucket {
      if now <= lastMs then this
      else Bucket(Lesser(u + Lesser(now - lastMs, TEN_DAYS_MS) * r.refill, r.cap * M), now)
    }

    // Whole units, rounded down.
    function Level(): int {
      if u >= 0 then u / M else -((-u + M - 1) / M)
    }

    function Spend(units: int, floor: int): Bucket {
      Bucket(Greater(u - units * M, floor * M), lastMs)
    }

    // The least wait after which `Refill` gives a level of `target` or more.
    function MsUntil(target: int, r: Rates): int {
      var need := target * M - u;
      if need <= 0 || r.refill <= 0 then 0 else (need + r.refill - 1) / r.refill
    }
  }

  function Lesser(a: int, b: int): int { if a < b then a else b }
  function Greater(a: int, b: int): int { if a < b then b else a }

  lemma {:induction false} LevelReaches(b: Bucket, target: int)
    ensures b.Level() >= target <==> b.u >= target * M
  {}

  // Any bucket fills within ten days, from its floor.
  predicate Fills(r: Rates, floor: int) {
    r.refill > 0 && 864_000_000 * r.refill >= (r.cap - floor) * 1_000_000
  }

  // Waiting as long as it says brings the level to the target.
  lemma {:induction false} WaitReaches(b: Bucket, target: int, r: Rates, floor: int, now: int)
    requires Fills(r, floor) && target <= r.cap && b.u >= floor * M
    requires now >= b.lastMs + b.MsUntil(target, r)
    ensures b.Refill(now, r).Level() >= target
  {
    var need, wait := target * M - b.u, now - b.lastMs;
    var elapsed := Lesser(wait, TEN_DAYS_MS);
    LevelReaches(b.Refill(now, r), target);
    if need > 0 {
      CeilCovers(need, r.refill);
      assert b.MsUntil(target, r) >= 1;
      if wait <= TEN_DAYS_MS {
        Scales(b.MsUntil(target, r), wait, r.refill);
      }
      assert elapsed * r.refill >= need;
    }
  }

  // After `t` milliseconds of refill, and no sooner, a bucket of `u` millionths holds `target`.
  ghost predicate LeastWait(u: int, refill: int, target: int, t: int) {
    && t >= 0 && u + t * refill >= target * 1_000_000
    && (t > 0 ==> u + (t - 1) * refill < target * 1_000_000)
  }

  lemma {:induction false} WaitIsLeast(b: Bucket, target: int, r: Rates)
    requires r.refill > 0
    ensures LeastWait(b.u, r.refill, target, b.MsUntil(target, r))
  {
    var need := target * M - b.u;
    if need > 0 {
      var x, q := need + r.refill - 1, (need + r.refill - 1) / r.refill;
      CeilCovers(need, r.refill);
      assert x == q * r.refill + x % r.refill;
      assert (q - 1) * r.refill == q * r.refill - r.refill;
    }
  }

  lemma {:induction false} CeilCovers(need: int, rate: int)
    requires need > 0 && rate > 0
    ensures ((need + rate - 1) / rate) * rate >= need && (need + rate - 1) / rate >= 1
  {
    var q, x := (need + rate - 1) / rate, need + rate - 1;
    assert x == q * rate + x % rate;
    assert q >= 1 by {
      if q <= 0 { Scales(q, 0, rate); }
    }
  }

  lemma {:induction false} Scales(a: int, b: int, k: int)
    requires a <= b && k >= 0
    ensures a * k <= b * k
  {
    assert b * k - a * k == (b - a) * k;
  }

  // ---- What was spent lately ----

  datatype Slot = Slot(idx: int, w: int)

  type Slots = s: seq<Slot> | |s| == LADDER_SLOTS witness seq(LADDER_SLOTS, _ => Slot(-1, 0))

  function SlotMs(l: Limits): int { Greater(l.ladderWindowMs / LADDER_SLOTS, 1) }

  function SlotAt(now: nat, l: Limits): nat { now / SlotMs(l) }

  // One charge, and when it was made.
  datatype Charge = Charge(at: nat, w: nat)

  // What the charges from `from` on add up to.
  ghost function SpentSince(log: seq<Charge>, from: int): nat {
    if log == [] then 0
    else
      var last := |log| - 1;
      SpentSince(log[..last], from) + if log[last].at >= from then log[last].w else 0
  }

  ghost function SpentIn(log: seq<Charge>, idx: int, l: Limits): nat {
    if log == [] then 0
    else
      var last := |log| - 1;
      SpentIn(log[..last], idx, l) + if SlotAt(log[last].at, l) == idx then log[last].w else 0
  }

  // Each slot holds what was charged in the latest of its turns with a charge.
  ghost predicate SlotsExact(slots: Slots, log: seq<Charge>, now: nat, l: Limits) {
    && (forall j | 0 <= j < LADDER_SLOTS :: slots[j].idx <= SlotAt(now, l))
    && (forall j | 0 <= j < LADDER_SLOTS ::
          slots[j].idx >= 0 ==> slots[j].idx % LADDER_SLOTS == j && slots[j].w == SpentIn(log, slots[j].idx, l))
    && (forall i | 0 <= i < |log| :: SlotAt(log[i].at, l) <= slots[SlotAt(log[i].at, l) % LADDER_SLOTS].idx)
    && (forall j | 0 <= j < LADDER_SLOTS :: slots[j].idx < 0 ==> slots[j].w == 0)
  }

  ghost predicate Ascending(log: seq<Charge>, now: nat) {
    && (forall i, j | 0 <= i < j < |log| :: log[i].at <= log[j].at)
    && (forall i | 0 <= i < |log| :: log[i].at <= now)
  }

  function Added(slots: Slots, w: int, now: nat, l: Limits): Slots {
    var idx := SlotAt(now, l);
    var j := idx % LADDER_SLOTS;
    slots[j := Slot(idx, (if slots[j].idx != idx then 0 else slots[j].w) + w)]
  }

  lemma {:induction false} SlotMonotone(a: nat, b: nat, l: Limits)
    requires a <= b
    ensures SlotAt(a, l) <= SlotAt(b, l)
  {
    var k := SlotMs(l);
    var x, y := a / k, b / k;
    assert a == x * k + a % k && b == y * k + b % k;
    if x > y { Scales(y + 1, x, k); }
  }

  lemma {:induction false} NothingIn(log: seq<Charge>, idx: int, l: Limits)
    requires forall i | 0 <= i < |log| :: SlotAt(log[i].at, l) != idx
    ensures SpentIn(log, idx, l) == 0
  {
    if log != [] { NothingIn(log[..|log| - 1], idx, l); }
  }

  lemma {:induction false} LaterExact(slots: Slots, log: seq<Charge>, was: nat, now: nat, l: Limits)
    requires SlotsExact(slots, log, was, l) && was <= now
    ensures SlotsExact(slots, log, now, l)
  {
    SlotMonotone(was, now, l);
  }

  lemma {:induction false} AddedExact(slots: Slots, log: seq<Charge>, w: nat, now: nat, l: Limits)
    requires SlotsExact(slots, log, now, l)
    ensures SlotsExact(Added(slots, w, now, l), log + [Charge(now, w)], now, l)
  {
    var idx := SlotAt(now, l);
    var j := idx % LADDER_SLOTS;
    var more, after := log + [Charge(now, w)], Added(slots, w, now, l);
    assert more[..|log|] == log;
    hide SlotAt;
    if slots[j].idx != idx {
      forall i | 0 <= i < |log| ensures SlotAt(log[i].at, l) != idx {
        assert SlotAt(log[i].at, l) <= slots[SlotAt(log[i].at, l) % LADDER_SLOTS].idx;
      }
      NothingIn(log, idx, l);
    }
  }

  // Whether a slot is inside the window that ends now.
  predicate Recent(s: Slot, idx: nat) {
    s.idx >= 0 && s.idx <= idx && idx - s.idx < LADDER_SLOTS
  }

  ghost function RecentSum(slots: seq<Slot>, idx: nat): int {
    if slots == [] then 0
    else
      var last := |slots| - 1;
      RecentSum(slots[..last], idx) + if Recent(slots[last], idx) then slots[last].w else 0
  }

  method Sum(slots: Slots, now: nat, l: Limits) returns (total: int)
    ensures total == RecentSum(slots, SlotAt(now, l))
  {
    var idx := SlotAt(now, l);
    total := 0;
    for i := 0 to |slots|
      invariant total == RecentSum(slots[..i], idx)
    {
      assert slots[..i + 1][..i] == slots[..i];
      if Recent(slots[i], idx) { total := total + slots[i].w; }
    }
    assert slots[..|slots|] == slots;
  }

  // ---- The slots cover the window ----

  // Every slot of a turn stands at that turn's place.
  ghost predicate InPlace(slots: seq<Slot>) {
    forall j | 0 <= j < |slots| :: slots[j].idx >= 0 ==> slots[j].idx % LADDER_SLOTS == j
  }

  // What the recent slots hold of `log`, and how many of them are of turn `k`.
  ghost function Held(slots: seq<Slot>, idx: nat, log: seq<Charge>, l: Limits): int {
    if slots == [] then 0
    else
      var s := slots[|slots| - 1];
      Held(slots[..|slots| - 1], idx, log, l) + if Recent(s, idx) then SpentIn(log, s.idx, l) else 0
  }

  ghost function Turns(slots: seq<Slot>, idx: nat, k: int): nat {
    if slots == [] then 0
    else
      var s := slots[|slots| - 1];
      Turns(slots[..|slots| - 1], idx, k) + if Recent(s, idx) && s.idx == k then 1 else 0
  }

  lemma {:induction false} HeldOneMore(slots: seq<Slot>, idx: nat, log: seq<Charge>, c: Charge, l: Limits)
    ensures Held(slots, idx, log + [c], l) == Held(slots, idx, log, l) + Turns(slots, idx, SlotAt(c.at, l)) * c.w
  {
    hide SlotAt;
    if slots != [] {
      var front, k := slots[..|slots| - 1], SlotAt(c.at, l);
      HeldOneMore(front, idx, log, c, l);
      assert (log + [c])[..|log|] == log;
      assert (Turns(front, idx, k) + 1) * c.w == Turns(front, idx, k) * c.w + c.w;
    }
  }

  lemma {:induction false} HeldNone(slots: seq<Slot>, idx: nat, l: Limits)
    ensures Held(slots, idx, [], l) == 0
  {
    if slots != [] { HeldNone(slots[..|slots| - 1], idx, l); }
  }

  lemma {:induction false} OneTurn(slots: seq<Slot>, idx: nat, k: nat)
    requires InPlace(slots)
    ensures var j := k % LADDER_SLOTS;
            Turns(slots, idx, k) == if j < |slots| && slots[j].idx == k && Recent(slots[j], idx) then 1 else 0
  {
    if slots != [] { OneTurn(slots[..|slots| - 1], idx, k); }
  }

  lemma {:induction false} SumIsHeld(slots: seq<Slot>, idx: nat, log: seq<Charge>, l: Limits)
    requires forall j | 0 <= j < |slots| :: slots[j].idx >= 0 ==> slots[j].w == SpentIn(log, slots[j].idx, l)
    ensures RecentSum(slots, idx) == Held(slots, idx, log, l)
  {
    if slots != [] { SumIsHeld(slots[..|slots| - 1], idx, log, l); }
  }

  // Where the window the slots cover begins.
  function WindowFrom(now: nat, l: Limits): int {
    (SlotAt(now, l) - LADDER_SLOTS as int + 1) * SlotMs(l)
  }

  lemma {:induction false} InWindow(at: nat, now: nat, l: Limits)
    ensures at >= WindowFrom(now, l) <==> SlotAt(at, l) + LADDER_SLOTS > SlotAt(now, l)
  {
    var k := SlotMs(l);
    var a, first := at / k, SlotAt(now, l) - LADDER_SLOTS as int + 1;
    assert at == a * k + at % k;
    if a >= first { Scales(first, a, k); } else { Scales(a + 1, first, k); }
  }

  lemma {:induction false} HeldIsSpent(slots: Slots, log: seq<Charge>, now: nat, l: Limits, n: nat)
    requires SlotsExact(slots, log, now, l) && Ascending(log, now) && n <= |log|
    ensures Held(slots, SlotAt(now, l), log[..n], l) == SpentSince(log[..n], WindowFrom(now, l))
    decreases n
  {
    hide SlotAt, WindowFrom, SlotsExact, Ascending, Held, Turns, SpentIn;
    var idx, from := SlotAt(now, l), WindowFrom(now, l);
    if n == 0 {
      HeldNone(slots, idx, l);
    } else {
      var c := log[n - 1];
      HeldIsSpent(slots, log, now, l, n - 1);
      assert log[..n] == log[..n - 1] + [c] && log[..n][..n - 1] == log[..n - 1];
      HeldOneMore(slots, idx, log[..n - 1], c, l);
      TurnCovered(slots, log, now, l, n - 1);
    }
  }

  lemma {:induction false} TurnCovered(slots: Slots, log: seq<Charge>, now: nat, l: Limits, i: nat)
    requires SlotsExact(slots, log, now, l) && Ascending(log, now) && i < |log|
    ensures Turns(slots, SlotAt(now, l), SlotAt(log[i].at, l)) == if log[i].at >= WindowFrom(now, l) then 1 else 0
  {
    hide SlotAt, WindowFrom, Turns;
    var idx, k := SlotAt(now, l), SlotAt(log[i].at, l);
    OneTurn(slots, idx, k);
    InWindow(log[i].at, now, l);
    var s := slots[k % LADDER_SLOTS];
    assert k <= s.idx <= idx && s.idx % LADDER_SLOTS == k % LADDER_SLOTS;
    if k + LADDER_SLOTS > idx { SameTurn(k, s.idx, idx); }
  }

  lemma {:induction false} SameTurn(k: nat, i: int, idx: nat)
    requires k <= i <= idx && i % LADDER_SLOTS == k % LADDER_SLOTS && k + LADDER_SLOTS > idx
    ensures i == k
  {}

  // The sum over the slots is exactly what was charged since the window began.
  lemma {:induction false} SumIsWindow(slots: Slots, log: seq<Charge>, now: nat, l: Limits)
    requires SlotsExact(slots, log, now, l) && Ascending(log, now)
    ensures RecentSum(slots, SlotAt(now, l)) == SpentSince(log, WindowFrom(now, l))
  {
    SumIsHeld(slots, SlotAt(now, l), log, l);
    HeldIsSpent(slots, log, now, l, |log|);
    assert log[..|log|] == log;
  }

  // ---- What an honest bucket can pay ----

  function LadderBudget(l: Limits): int {
    l.full.cap + l.full.refill * l.ladderWindowMs / M
  }

  // From any moment on, what was spent is at most a full bucket and the refill since,
  // less what is left.
  ghost predicate Bounded(b: Bucket, log: seq<Charge>, r: Rates) {
    && b.u <= r.cap * M
    && (forall i | 0 <= i < |log| :: log[i].at <= b.lastMs)
    && forall from: int | from <= b.lastMs ::
         b.u + SpentSince(log, from) * M <= r.cap * M + (b.lastMs - from) * r.refill
  }

  lemma {:induction false} NothingSince(log: seq<Charge>, from: int)
    requires forall i | 0 <= i < |log| :: log[i].at < from
    ensures SpentSince(log, from) == 0
  {
    if log != [] { NothingSince(log[..|log| - 1], from); }
  }

  lemma {:induction false} RefillBounded(b: Bucket, log: seq<Charge>, r: Rates, now: int)
    requires Bounded(b, log, r) && r.refill >= 0
    ensures Bounded(b.Refill(now, r), log, r)
  {
    var a := b.Refill(now, r);
    if now > b.lastMs {
      var elapsed := now - b.lastMs;
      Scales(Lesser(elapsed, TEN_DAYS_MS), elapsed, r.refill);
      forall from: int | from <= now ensures a.u + SpentSince(log, from) * M <= r.cap * M + (now - from) * r.refill {
        if from <= b.lastMs {
          assert (now - from) * r.refill == elapsed * r.refill + (b.lastMs - from) * r.refill;
        } else {
          NothingSince(log, from);
          Scales(0, now - from, r.refill);
        }
      }
    }
  }

  lemma {:induction false} SpendBounded(b: Bucket, log: seq<Charge>, r: Rates, w: nat, floor: int)
    requires Bounded(b, log, r) && b.lastMs >= 0 && b.u - w * M >= floor * M
    ensures Bounded(b.Spend(w, floor), log + [Charge(b.lastMs, w)], r)
  {
    var more := log + [Charge(b.lastMs, w)];
    assert more[..|log|] == log;
  }

  lemma {:induction false} WithinBudget(b: Bucket, log: seq<Charge>, now: nat, l: Limits)
    requires Bounded(b, log, l.full) && b.u >= 0 && b.lastMs <= now
    requires l.full.cap >= 0 && l.full.refill >= 0 && l.ladderWindowMs >= LADDER_SLOTS
    ensures SpentSince(log, WindowFrom(now, l)) <= LadderBudget(l)
  {
    var from, window, refill := WindowFrom(now, l), l.ladderWindowMs, l.full.refill;
    var spent := SpentSince(log, from);
    WindowIsShort(now, l);
    Scales(0, window, refill);
    if from <= b.lastMs {
      Scales(b.lastMs - from, window, refill);
      assert spent * M <= l.full.cap * M + window * refill;
    } else {
      NothingSince(log, from);
    }
    FloorFits(spent, l.full.cap, refill * window);
  }

  lemma {:induction false} WindowIsShort(now: nat, l: Limits)
    requires l.ladderWindowMs >= LADDER_SLOTS
    ensures now - WindowFrom(now, l) <= l.ladderWindowMs
  {
    var k := SlotMs(l);
    assert k * LADDER_SLOTS <= l.ladderWindowMs;
    assert now == (now / k) * k + now % k;
  }

  lemma {:induction false} FloorFits(spent: int, cap: int, x: int)
    requires spent * M <= cap * M + x
    ensures spent <= cap + x / M
  {}

  // ---- One payer ----

  datatype Kind = Full | Fetch | Guest
  datatype Verdict = Pass | Work | Joins | Distinct

  // What one inbound frame is judged at. `stranger` says whether it is a deposit that would
  // reach the payer's count of strangers.
  datatype Plan = Plan(w: int, join: bool, control: bool, stranger: bool)

  function JudgedW(r: Rates, w: int, l: Limits): int {
    var most := r.cap - Lesser(l.paceReserve, r.cap / 2);
    if w < 0 then 0 else if w > most then most else w
  }

  // The judged weight is the cost itself, unless that is more than a full bucket keeps beside
  // the reserve, of which half a bucket is the most.
  lemma {:induction false} JudgedExactly(r: Rates, w: int, l: Limits)
    ensures var reserve := if l.paceReserve < r.cap / 2 then l.paceReserve else r.cap / 2;
            && (0 <= w <= r.cap - reserve ==> JudgedW(r, w, l) == w)
            && (w < 0 ==> JudgedW(r, w, l) == 0)
            && (w >= 0 && w > r.cap - reserve ==> JudgedW(r, w, l) == r.cap - reserve)
    ensures r.cap >= 0 && l.paceReserve >= 0 ==> 0 <= JudgedW(r, w, l) <= r.cap
  {}

  // What every relay's limits are.
  ghost predicate Sane(l: Limits) {
    && Fills(l.full, l.debtFloor) && Fills(l.joinsFull, 0)
    && l.full.cap >= 0 && l.joinsFull.cap >= 1 && l.debtFloor <= 0 && l.paceReserve >= 0
    && l.ladderWindowMs >= LADDER_SLOTS && l.pauseSlackMs >= 0
  }

  lemma {:induction false} DefaultIsSane()
    ensures Sane(DEFAULT)
  {}

  class Account {
    const limits: Limits
    var kind: Kind
    var w: Bucket
    var joins: Bucket
    var spent: int
    var slots: Slots
    // Every charge so far; the latest moment seen; whether each charge was made at the
    // moment it was judged and left no debt.
    ghost var log: seq<Charge>
    ghost var clock: nat
    ghost var solvent: bool

    function WRates(): Rates
      reads this
    {
      if kind == Full then limits.full else if kind == Fetch then limits.fetch else limits.guest
    }

    function JoinRates(): Rates
      reads this
    {
      if kind == Full then limits.joinsFull else if kind == Fetch then limits.joinsFetch else limits.joinsGuest
    }

    ghost predicate Valid()
      reads this
    {
      && Sane(limits)
      && 0 <= w.lastMs <= clock && 0 <= joins.lastMs <= clock
      && Ascending(log, clock) && SlotsExact(slots, log, clock, limits)
      && (kind == Full && solvent ==> Bounded(w, log, limits.full) && w.u >= 0)
      && (kind == Full ==> w.u >= limits.debtFloor * M && joins.u >= 0)
    }

    constructor (l: Limits, k: Kind, credit: int, now: nat)
      requires Sane(l) && (k == Full ==> 0 <= credit <= l.full.cap && l.joinsFull.start >= 0)
      ensures Valid() && solvent && log == [] && limits == l && kind == k && clock == now && spent == 0
      ensures w == Bucket(credit * 1_000_000, now)
      ensures joins == match k
                       case Full => Bucket(l.joinsFull.start * 1_000_000, now)
                       case Fetch => Bucket(l.joinsFetch.start * 1_000_000, now)
                       case Guest => Bucket(l.joinsGuest.start * 1_000_000, now)
    {
      limits, kind := l, k;
      w := Bucket(credit * M, now);
      var rates := if k == Full then l.joinsFull else if k == Fetch then l.joinsFetch else l.joinsGuest;
      joins := Bucket(rates.start * M, now);
      spent := 0;
      slots := seq(LADDER_SLOTS, _ => Slot(-1, 0));
      log, clock, solvent := [], now, true;
      new;
      assert forall from: int :: SpentSince(log, from) == 0;
      if k == Full { BeginBounded(credit, now, l.full); }
    }

    method Refill(now: nat)
      requires Valid() && now >= clock
      modifies this`w, this`joins, this`clock
      ensures Valid() && clock == now
      ensures w == old(w).Refill(now, WRates()) && joins == old(joins).Refill(now, JoinRates())
      ensures match kind
              case Full => WRates() == limits.full && JoinRates() == limits.joinsFull
              case Fetch => WRates() == limits.fetch && JoinRates() == limits.joinsFetch
              case Guest => WRates() == limits.guest && JoinRates() == limits.joinsGuest
    {
      hide SlotsExact, Bounded, Fills;
      LaterExact(slots, log, clock, now, limits);
      if kind == Full && solvent { RefillKeeps(w, log, limits, now); }
      if kind == Full {
        RefillRises(w, limits.full, limits.debtFloor, now);
        RefillRises(joins, limits.joinsFull, 0, now);
      }
      w := w.Refill(now, WRates());
      joins := joins.Refill(now, JoinRates());
      clock := now;
    }

    // A charge, which the ladder's window sees.
    method SpendW(units: nat, now: nat)
      requires Valid() && now >= clock
      modifies this`w, this`spent, this`slots, this`log, this`clock, this`solvent
      ensures Valid() && clock == now && log == old(log) + [Charge(now, units)]
      ensures w == old(w).Spend(units, limits.debtFloor) && spent == old(spent) + units
      ensures solvent == (old(solvent) && now == old(w).lastMs && old(w).u >= units * M)
    {
      hide SlotsExact, Bounded;
      LaterExact(slots, log, clock, now, limits);
      AddedExact(slots, log, units, now, limits);
      ghost var stays := solvent && now == w.lastMs && w.u >= units * M;
      if kind == Full && stays { SpendKeeps(w, log, limits, units); }
      w := w.Spend(units, limits.debtFloor);
      spent := spent + units;
      slots := Added(slots, units, now, limits);
      log, clock, solvent := log + [Charge(now, units)], now, stays;
    }

    // Judged before it is counted.
    method Judge(p: Plan, now: nat) returns (v: Verdict)
      requires Valid() && now >= clock
      modifies this`w, this`joins, this`clock
      ensures Valid() && clock == now
      ensures w == old(w).Refill(now, WRates()) && joins == old(joins).Refill(now, JoinRates())
      ensures v == Work <==> !p.control && !(p.join && joins.Level() < 1) && !p.stranger
                             && w.Level() < JudgedW(WRates(), p.w, limits)
      ensures v == Joins <==> !p.control && p.join && joins.Level() < 1
    {
      Refill(now);
      if p.control { return Pass; }
      if p.join && joins.Level() < 1 { return Joins; }
      if p.stranger { return Distinct; }
      if w.Level() - JudgedW(WRates(), p.w, limits) < 0 { return Work; }
      return Pass;
    }

    method ChargeFrame(units: nat, p: Plan, now: nat)
      requires Valid() && now >= clock
      modifies this`w, this`joins, this`spent, this`slots, this`log, this`clock, this`solvent
      ensures Valid() && clock == now && log == old(log) + [Charge(now, units)]
      ensures w == old(w).Spend(units, limits.debtFloor) && spent == old(spent) + units
      ensures joins == if p.join then old(joins).Spend(1, 0) else old(joins)
      ensures solvent == (old(solvent) && now == old(w).lastMs && old(w).u >= units * M)
    {
      SpendW(units, now);
      if p.join { joins := joins.Spend(1, 0); }
    }

    // A pause after which the trip does not recur, and a ladder step exactly when the window's
    // ten parts hold more than a full bucket and a window's refill; `cooldown` is what a step
    // costs. `refill` is the least wait the payer has to make: for a stranger too many, a minute.
    method PauseFor(p: Plan, v: Verdict, cooldown: int, now: nat)
      returns (waitMs: int, ladder: bool, ghost refill: int)
      requires Valid() && now >= clock
      ensures kind != Full ==> waitMs == limits.socketPauseMs
      ensures kind == Full ==>
                waitMs == if ladder && cooldown > refill + limits.pauseSlackMs then cooldown
                          else refill + limits.pauseSlackMs
      ensures kind == Full && v == Distinct ==> refill == 60_000
      ensures kind == Full && v == Joins ==> LeastWait(joins.u, limits.joinsFull.refill, 1, refill)
      ensures kind == Full && v != Joins && v != Distinct ==>
                LeastWait(w.u, limits.full.refill, JudgedW(limits.full, p.w, limits), refill)
      ensures var part := if limits.ladderWindowMs / 10 < 1 then 1 else limits.ladderWindowMs / 10;
              ladder <==>
                && kind == Full
                && SpentSince(log, (now / part - 9) * part) >
                   limits.full.cap + limits.full.refill * limits.ladderWindowMs / 1_000_000
      ensures solvent ==> !ladder
      ensures kind == Full && v == Work ==>
                forall later | later >= now + waitMs ::
                  w.Refill(later, WRates()).Level() >= JudgedW(WRates(), p.w, limits)
      ensures kind == Full && v == Joins ==>
                forall later | later >= now + waitMs :: joins.Refill(later, JoinRates()).Level() >= 1
    {
      if kind != Full { return limits.socketPauseMs, false, 0; }
      var wait :=
        if v == Joins then joins.MsUntil(1, JoinRates())
        else if v == Distinct then 60_000
        else w.MsUntil(JudgedW(WRates(), p.w, limits), WRates());
      refill := wait;
      WaitIsLeast(joins, 1, limits.joinsFull);
      WaitIsLeast(w, JudgedW(limits.full, p.w, limits), limits.full);
      waitMs := wait + limits.pauseSlackMs;
      var recent := Sum(slots, now, limits);
      LaterExact(slots, log, clock, now, limits);
      SumIsWindow(slots, log, now, limits);
      if solvent { WithinBudget(w, log, now, limits); }
      ladder := recent > LadderBudget(limits);
      if ladder { waitMs := Greater(waitMs, cooldown); }
      forall later | later >= now + waitMs
        ensures v == Work ==> w.Refill(later, WRates()).Level() >= JudgedW(WRates(), p.w, limits)
        ensures v == Joins ==> joins.Refill(later, JoinRates()).Level() >= 1
      {
        if v == Work { WaitReaches(w, JudgedW(WRates(), p.w, limits), limits.full, limits.debtFloor, later); }
        if v == Joins { WaitReaches(joins, 1, limits.joinsFull, 0, later); }
      }
    }
  }

  lemma {:induction false} BeginBounded(credit: int, now: nat, r: Rates)
    requires 0 <= credit <= r.cap && r.refill >= 0
    ensures Bounded(Bucket(credit * M, now), [], r)
  {
    forall from: int | from <= now
      ensures credit * M + SpentSince([], from) * M <= r.cap * M + (now - from) * r.refill
    {
      Scales(0, now - from, r.refill);
    }
  }

  lemma {:induction false} RefillKeeps(b: Bucket, log: seq<Charge>, l: Limits, now: int)
    requires Sane(l) && Bounded(b, log, l.full)
    ensures Bounded(b.Refill(now, l.full), log, l.full)
  {
    RefillBounded(b, log, l.full, now);
  }

  // Refilling takes nothing a bucket had, down to its floor.
  lemma {:induction false} RefillRises(b: Bucket, r: Rates, floor: int, now: int)
    requires Fills(r, floor) && b.u >= floor * M && floor <= r.cap
    ensures b.Refill(now, r).u >= floor * M
    ensures b.u >= 0 && r.cap >= 0 ==> b.Refill(now, r).u >= 0
  {
    if now > b.lastMs { Scales(0, Lesser(now - b.lastMs, TEN_DAYS_MS), r.refill); }
  }

  lemma {:induction false} SpendKeeps(b: Bucket, log: seq<Charge>, l: Limits, w: nat)
    requires Bounded(b, log, l.full) && b.lastMs >= 0 && b.u >= w * M && l.debtFloor <= 0
    ensures Bounded(b.Spend(w, l.debtFloor), log + [Charge(b.lastMs, w)], l.full) && b.Spend(w, l.debtFloor).u >= 0
  {
    SpendBounded(b, log, l.full, w, l.debtFloor);
  }
}
