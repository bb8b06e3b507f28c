// relay-uws/src/send_budget.h: the bytes sockets hold at once, charged to the share that
// does not read them, and who is closed when they are too many.
module Ledgers {
  import opened Base
  import F = FairShares

  const STALL_MS: int := 120000
  const PROGRESS_BYTES: nat := 64 * 1024

  datatype Limits = Limits(limit: nat, hard: nat, socketCap: nat, shareCap: nat)

  // One socket: how much it has not sent and how much of a message it has not finished, when
  // each last counted as moving, and under which rank the order files it.
  datatype Use = Use(
    share: nat,
    out: nat,
    drained: nat,
    drainFrom: int,
    outAt: int,
    partIn: nat,
    inMark: nat,
    inMsgs: nat,
    inAt: int,
    ranked: bool,
    rankAt: int,
    rankWeight: nat
  )

  type Uses = map<nat, Use>

  function Weight(u: Use): nat { u.out + u.partIn }

  // The staler of its two sides, of those that hold anything.
  function ProgressAt(u: Use): int {
    if u.out > 0 && u.partIn > 0 then (if u.inAt < u.outAt then u.inAt else u.outAt)
    else if u.out > 0 then u.outAt else u.inAt
  }

  datatype Rank = Rank(at: int, weight: nat, key: nat)

  function RankOf(k: nat, u: Use): Rank { Rank(ProgressAt(u), Weight(u), k) }

  // Stalest first; of two as stale, the heavier.
  predicate RankLe(a: Rank, b: Rank) {
    a.at < b.at || (a.at == b.at && (a.weight > b.weight || (a.weight == b.weight && a.key <= b.key)))
  }

  lemma {:induction false} LeastRank(s: set<Rank>) returns (r: Rank)
    requires s != {}
    ensures r in s && forall o | o in s :: RankLe(r, o)
  {
    var q :| q in s;
    if s == {q} {
      r := q;
    } else {
      var rest := LeastRank(s - {q});
      r := if RankLe(q, rest) then q else rest;
      forall o | o in s ensures RankLe(r, o) {
        if o != q { assert o in s - {q}; }
      }
    }
  }

  // ---- How a report changes what a socket holds ----

  function NewUse(share: nat, now: int): Use {
    Use(share, 0, 0, now, now, 0, 0, 0, now, false, 0, 0)
  }

  function Least(a: nat, b: nat): nat { if a < b then a else b }
  function Most(a: nat, b: nat): nat { if a < b then b else a }

  // How much has to drain within half a window to count.
  function Threshold(out: nat): nat { Least(PROGRESS_BYTES, Most(out / 2, 1)) }

  // `u` once `amount` is left unsent: what drained is summed up to half a window back.
  function OutUse(u: Use, amount: nat, now: int): Use {
    var v :=
      if amount < u.out then
        var w := if now - u.drainFrom >= STALL_MS / 2 then u.(drainFrom := now, drained := 0) else u;
        var drained := w.drained + (w.out - amount);
        if drained >= Threshold(w.out) then w.(outAt := now, drainFrom := now, drained := 0)
        else w.(drained := drained)
      else if u.out == 0 then u.(outAt := now, drainFrom := now, drained := 0)
      else u;
    v.(out := amount)
  }

  // Its inbound frame now holds `held` with `filled` of it arrived.
  function InUse(u: Use, held: nat, filled: nat, messages: nat, now: int): Use {
    var v :=
      if u.partIn == 0 || messages != u.inMsgs || filled >= u.inMark + PROGRESS_BYTES then
        u.(inAt := now, inMark := filled)
      else if filled < u.inMark then u.(inMark := filled)
      else u;
    v.(partIn := held, inMsgs := messages, inMark := if held == 0 then 0 else v.inMark)
  }

  // ---- A trickle is no progress ----

  datatype OutReport = OutReport(amount: nat, now: int)

  // A socket after a run of reports of its unsent buffer.
  ghost function Outs(u: Use, rs: seq<OutReport>): Use {
    if rs == [] then u
    else
      var last := |rs| - 1;
      OutUse(Outs(u, rs[..last]), rs[last].amount, rs[last].now)
  }

  // What was unsent before report `i`, of `out` at first, and what that report drained.
  ghost function Unsent(out: nat, rs: seq<OutReport>, i: nat): nat
    requires i <= |rs|
  {
    if i == 0 then out else rs[i - 1].amount
  }

  ghost function Drain(out: nat, rs: seq<OutReport>, i: nat): nat
    requires i < |rs|
  {
    if rs[i].amount < Unsent(out, rs, i) then Unsent(out, rs, i) - rs[i].amount else 0
  }

  // What the reports from `i` up to `j` drained in all.
  ghost function Drained(out: nat, rs: seq<OutReport>, i: nat, j: nat): nat
    requires i <= j <= |rs|
  {
    if i == j then 0 else Drained(out, rs, i, j - 1) + Drain(out, rs, j - 1)
  }

  // What has to drain within a minute to count: half of what is unsent, at least a byte and
  // at most 65536.
  function Counts(out: nat): nat {
    if out >= 131_072 then 65_536 else if out >= 2 then out / 2 else 1
  }

  lemma {:induction false} CountsIs(out: nat)
    ensures Counts(out) == Threshold(out)
  {}

  // Reports in order of time, the buffer never empty, and whatever drained within a minute
  // always less than counts.
  ghost predicate Trickle(out: nat, from: int, rs: seq<OutReport>) {
    && out > 0 && (forall i | 0 <= i < |rs| :: rs[i].amount > 0 && from <= rs[i].now)
    && (forall i, j | 0 <= i < j < |rs| :: rs[i].now <= rs[j].now)
    && (forall i, j | 0 <= i <= j < |rs| && rs[j].now - rs[i].now < 60_000 ::
          Drained(out, rs, i, j + 1) < Counts(Unsent(out, rs, j)))
  }

  lemma {:induction false} DrainedPrefix(out: nat, rs: seq<OutReport>, n: nat, i: nat, j: nat)
    requires i <= j <= n <= |rs|
    ensures Drained(out, rs[..n], i, j) == Drained(out, rs, i, j) && Unsent(out, rs[..n], j) == Unsent(out, rs, j)
  {
    if i < j { DrainedPrefix(out, rs, n, i, j - 1); }
  }

  lemma {:induction false} TricklePrefix(out: nat, from: int, rs: seq<OutReport>, n: nat)
    requires Trickle(out, from, rs) && n <= |rs|
    ensures Trickle(out, from, rs[..n])
  {
    hide Counts;
    var p := rs[..n];
    forall i, j | 0 <= i <= j < |p| && p[j].now - p[i].now < 60_000
      ensures Drained(out, p, i, j + 1) < Counts(Unsent(out, p, j))
    {
      DrainedPrefix(out, rs, n, i, j + 1);
      DrainedPrefix(out, rs, n, i, j);
      assert rs[j].now - rs[i].now < 60_000;
    }
  }

  // After reports `rs` the socket `v` adds up what drained since report `w`.
  ghost predicate AddsUp(u: Use, rs: seq<OutReport>, v: Use, w: nat) {
    && w <= |rs| && v.outAt == u.outAt && v.out == Unsent(u.out, rs, |rs|) && v.drained == Drained(u.out, rs, w, |rs|)
    && v.drainFrom <= (if rs == [] then u.drainFrom else rs[|rs| - 1].now)
    && forall i | w <= i < |rs| :: v.drainFrom <= rs[i].now
  }

  // What one report does while what drained stays below what counts.
  lemma {:induction false} OutSlow(v: Use, amount: nat, now: int, added: nat)
    requires v.out > 0 && added == if now - v.drainFrom >= STALL_MS / 2 then 0 else v.drained
    requires amount < v.out ==> added + (v.out - amount) < Threshold(v.out)
    ensures var x := OutUse(v, amount, now);
            && x.outAt == v.outAt && x.out == amount
            && (amount < v.out ==>
                  && x.drained == added + (v.out - amount)
                  && x.drainFrom == if now - v.drainFrom >= STALL_MS / 2 then now else v.drainFrom)
            && (amount >= v.out ==> x.drained == v.drained && x.drainFrom == v.drainFrom)
  {
    hide Threshold;
  }

  lemma {:induction false} TrickleStep(u: Use, rs: seq<OutReport>, v: Use, w: nat) returns (w2: nat)
    requires rs != [] && Trickle(u.out, u.drainFrom, rs) && AddsUp(u, rs[..|rs| - 1], v, w)
    ensures AddsUp(u, rs, OutUse(v, rs[|rs| - 1].amount, rs[|rs| - 1].now), w2)
  {
    hide OutUse, Threshold, Trickle, AddsUp, Drained, Unsent, Drain;
    var n := |rs| - 1;
    var r := rs[n];
    var again := r.now - v.drainFrom >= STALL_MS / 2;
    w2 := if r.amount < v.out && again then n else w;
    var added := if again then 0 else v.drained;
    BelowThreshold(u, rs, v, w, w2, added);
    StillStale(u, rs[..n], v, w);
    OutSlow(v, r.amount, r.now, added);
    AddsUpOn(u, rs, v, OutUse(v, r.amount, r.now), w, w2);
  }

  // The last report leaves what drained since `w2` below what counts.
  lemma {:induction false} BelowThreshold(u: Use, rs: seq<OutReport>, v: Use, w: nat, w2: nat, added: nat)
    requires rs != [] && Trickle(u.out, u.drainFrom, rs) && AddsUp(u, rs[..|rs| - 1], v, w)
    requires var r := rs[|rs| - 1];
             var again := r.now - v.drainFrom >= STALL_MS / 2;
             w2 == (if r.amount < v.out && again then |rs| - 1 else w) && added == if again then 0 else v.drained
    ensures var n, r := |rs| - 1, rs[|rs| - 1];
            && v.out > 0 && v.out == Unsent(u.out, rs, n)
            && (r.amount < v.out ==>
                  added == Drained(u.out, rs, w2, n) && added + (v.out - r.amount) < Threshold(v.out))
            && (r.amount >= v.out ==> v.drained == Drained(u.out, rs, w2, n))
            && Drain(u.out, rs, n) == (if r.amount < v.out then v.out - r.amount else 0)
            && w <= n && v.drainFrom <= r.now && (forall i | w <= i < n :: v.drainFrom <= rs[i].now)
  {
    hide Threshold, Counts;
    var n := |rs| - 1;
    CountsIs(Unsent(u.out, rs, n));
    DrainedPrefix(u.out, rs, n, w, n);
    DrainedPrefix(u.out, rs, n, n, n);
    assert Drained(u.out, rs, n, n) == 0;
    assert forall i | 0 <= i < n :: rs[..n][i] == rs[i];
    assert rs[n].now - rs[w2].now < STALL_MS / 2 || rs[n].amount >= v.out;
    assert Drained(u.out, rs, w2, n + 1) == Drained(u.out, rs, w2, n) + Drain(u.out, rs, n);
  }

  lemma {:induction false} AddsUpOn(u: Use, rs: seq<OutReport>, v: Use, x: Use, w: nat, w2: nat)
    requires rs != [] && v.drainFrom <= rs[|rs| - 1].now && forall i | w <= i < |rs| - 1 :: v.drainFrom <= rs[i].now
    requires v.outAt == u.outAt && x.outAt == v.outAt && x.out == rs[|rs| - 1].amount
    requires (w2 == w && x.drainFrom == v.drainFrom) || (w2 == |rs| - 1 && x.drainFrom == rs[|rs| - 1].now)
    requires w2 <= |rs| - 1 && x.drained == Drained(u.out, rs, w2, |rs| - 1) + Drain(u.out, rs, |rs| - 1)
    ensures AddsUp(u, rs, x, w2)
  {
    hide Threshold, Drain;
  }

  // However long it goes on, a trickle never counts as progress: the socket stays as stale
  // as it was.
  lemma {:induction false} TrickleIsNoProgress(u: Use, rs: seq<OutReport>) returns (w: nat)
    requires u.drained == 0 && Trickle(u.out, u.drainFrom, rs)
    ensures Outs(u, rs).outAt == u.outAt && AddsUp(u, rs, Outs(u, rs), w)
  {
    w := 0;
    if rs != [] {
      hide OutUse, Trickle, AddsUp;
      TricklePrefix(u.out, u.drainFrom, rs, |rs| - 1);
      w := TrickleIsNoProgress(u, rs[..|rs| - 1]);
      w := TrickleStep(u, rs, Outs(u, rs[..|rs| - 1]), w);
      StillStale(u, rs, Outs(u, rs), w);
    }
  }

  // Every report that counts starts anew: whatever drained up to it, a trickle after it leaves
  // the socket at that moment.
  lemma {:induction false} TrickleAfterProgress(u: Use, amount: nat, now: int, rs: seq<OutReport>)
    requires u.out == 0 || OutUse(u, amount, now).outAt != u.outAt
    requires Trickle(amount, now, rs)
    ensures Outs(OutUse(u, amount, now), rs).outAt == now
  {
    hide Trickle, Outs;
    var w := TrickleIsNoProgress(OutUse(u, amount, now), rs);
  }

  // What does count. Reports within a minute of when the sum was started, none adding to what
  // is unsent, that in all drain what counts: one of them is progress.
  ghost predicate Draining(u: Use, rs: seq<OutReport>) {
    && u.out > 0 && (forall i | 0 <= i < |rs| :: rs[i].now - u.drainFrom < 60_000)
    && (forall i | 0 <= i < |rs| :: 0 < rs[i].amount <= Unsent(u.out, rs, i))
  }

  // Some report before `n` counted when it came.
  ghost predicate Progressed(u: Use, rs: seq<OutReport>, n: nat)
    requires n <= |rs|
  {
    exists i | 0 <= i < n :: Outs(u, rs[..i + 1]).outAt == rs[i].now
  }

  lemma {:induction false} DrainOne(v: Use, amount: nat, now: int)
    requires 0 < v.out && amount <= v.out && now - v.drainFrom < 60_000
    ensures var x := OutUse(v, amount, now);
            && x.out == amount
            && if amount < v.out && v.drained + (v.out - amount) >= Counts(v.out) then x.outAt == now
               else x.drainFrom == v.drainFrom && x.drained == v.drained + (v.out - amount)
  {
    CountsIs(v.out);
    hide Counts, Threshold;
  }

  lemma {:induction false} OutsNext(u: Use, rs: seq<OutReport>, n: nat)
    requires n < |rs|
    ensures Outs(u, rs[..n + 1]) == OutUse(Outs(u, rs[..n]), rs[n].amount, rs[n].now)
  {
    assert rs[..n + 1][..n] == rs[..n];
  }

  lemma {:induction false} DrainAddsUp(u: Use, rs: seq<OutReport>, n: nat)
    requires u.drained == 0 && Draining(u, rs) && n <= |rs|
    ensures var v := Outs(u, rs[..n]);
            || Progressed(u, rs, n)
            || (v.drainFrom == u.drainFrom && v.out == Unsent(u.out, rs, n) && v.drained + v.out == u.out)
  {
    hide Counts, OutUse;
    if n > 0 {
      DrainAddsUp(u, rs, n - 1);
      OutsNext(u, rs, n - 1);
      hide Outs;
      if !Progressed(u, rs, n - 1) { DrainOne(Outs(u, rs[..n - 1]), rs[n - 1].amount, rs[n - 1].now); }
      assert rs[..n - 1 + 1] == rs[..n];
    }
  }

  lemma {:induction false} DrainIsProgress(u: Use, rs: seq<OutReport>)
    requires u.drained == 0 && rs != [] && Draining(u, rs)
    requires var n := |rs| - 1;
             rs[n].amount < Unsent(u.out, rs, n) && u.out - rs[n].amount >= Counts(Unsent(u.out, rs, n))
    ensures Progressed(u, rs, |rs|)
  {
    hide Counts, OutUse, Outs;
    var n := |rs| - 1;
    DrainAddsUp(u, rs, n);
    OutsNext(u, rs, n);
    if !Progressed(u, rs, n) { DrainOne(Outs(u, rs[..n]), rs[n].amount, rs[n].now); }
  }

  // One report that drains what counts is progress by itself, and so is the first byte of an
  // empty buffer.
  lemma {:induction false} OneDrainCounts(u: Use, amount: nat, now: int)
    ensures amount < u.out && u.out - amount >= Counts(u.out) ==> OutUse(u, amount, now).outAt == now
    ensures u.out == 0 ==> OutUse(u, amount, now).outAt == now
    ensures OutUse(u, amount, now).out == amount && OutUse(u, amount, now).partIn == u.partIn
    ensures OutUse(u, amount, now).inAt == u.inAt && OutUse(u, amount, now).share == u.share
  {
    CountsIs(u.out);
  }

  // Coming in, a new frame, a finished message or 65536 bytes more than marked are progress.
  lemma {:induction false} ArrivalCounts(u: Use, held: nat, filled: nat, messages: nat, now: int)
    ensures u.partIn == 0 || messages != u.inMsgs || filled >= u.inMark + 65_536 ==>
              InUse(u, held, filled, messages, now).inAt == now
    ensures InUse(u, held, filled, messages, now).partIn == held && InUse(u, held, filled, messages, now).out == u.out
    ensures InUse(u, held, filled, messages, now).outAt == u.outAt
    ensures InUse(u, held, filled, messages, now).share == u.share
  {}

  lemma {:induction false} StillStale(u: Use, rs: seq<OutReport>, v: Use, w: nat)
    requires AddsUp(u, rs, v, w)
    ensures v.outAt == u.outAt
  {}

  datatype InReport = InReport(held: nat, filled: nat, messages: nat, now: int)

  ghost function Ins(u: Use, rs: seq<InReport>): Use {
    if rs == [] then u
    else
      var last := |rs| - 1;
      InUse(Ins(u, rs[..last]), rs[last].held, rs[last].filled, rs[last].messages, rs[last].now)
  }

  // One frame still coming, at no report past what counts above the least it had filled.
  ghost predicate Dribble(u: Use, rs: seq<InReport>) {
    && u.partIn > 0
    && (forall i | 0 <= i < |rs| ::
          rs[i].held > 0 && rs[i].messages == u.inMsgs && rs[i].filled < u.inMark + 65_536)
    && (forall i, j | 0 <= i < j < |rs| :: rs[j].filled < rs[i].filled + 65_536)
  }

  // Nor does one that comes in that way.
  lemma {:induction false} DribbleIsNoProgress(u: Use, rs: seq<InReport>)
    requires Dribble(u, rs)
    ensures var v := Ins(u, rs);
            && v.inAt == u.inAt && v.partIn > 0 && v.inMsgs == u.inMsgs
            && (v.inMark == u.inMark || exists i | 0 <= i < |rs| :: rs[i].filled == v.inMark)
  {
    if rs != [] {
      var last := |rs| - 1;
      var p := rs[..last];
      DribbleIsNoProgress(u, p);
      var before := Ins(u, p);
      if before.inMark != u.inMark {
        var i :| 0 <= i < |p| && p[i].filled == before.inMark;
        assert rs[i].filled == before.inMark;
      }
      assert rs[last].filled < before.inMark + PROGRESS_BYTES;
    }
  }

  // After a report that counts, 65536 bytes have to come in before another does.
  lemma {:induction false} DribbleAfterProgress(u: Use, r: InReport, rs: seq<InReport>)
    requires r.held > 0 && (u.partIn == 0 || r.messages != u.inMsgs || r.filled >= u.inMark + 65_536)
    requires forall i | 0 <= i < |rs| ::
               rs[i].held > 0 && rs[i].messages == r.messages && rs[i].filled < r.filled + 65_536
    requires forall i, j | 0 <= i < j < |rs| :: rs[j].filled < rs[i].filled + 65_536
    ensures Ins(InUse(u, r.held, r.filled, r.messages, r.now), rs).inAt == r.now
  {
    hide Ins;
    DribbleIsNoProgress(InUse(u, r.held, r.filled, r.messages, r.now), rs);
  }

  // Some report after `i` and before `n` counted when it came.
  ghost predicate Arrived(u: Use, rs: seq<InReport>, i: nat, n: nat)
    requires n <= |rs|
  {
    exists k | i < k < n :: Ins(u, rs[..k + 1]).inAt == rs[k].now
  }

  lemma {:induction false} InsNext(u: Use, rs: seq<InReport>, n: nat)
    requires n < |rs|
    ensures Ins(u, rs[..n + 1]) == InUse(Ins(u, rs[..n]), rs[n].held, rs[n].filled, rs[n].messages, rs[n].now)
  {
    assert rs[..n + 1][..n] == rs[..n];
  }

  lemma {:induction false} MarkStays(u: Use, rs: seq<InReport>, i: nat, n: nat)
    requires i < n <= |rs|
    ensures Arrived(u, rs, i, n) || Ins(u, rs[..n]).inMark <= rs[i].filled
    decreases n
  {
    InsNext(u, rs, n - 1);
    assert rs[..n - 1 + 1] == rs[..n];
    if n > i + 1 {
      hide Ins;
      MarkStays(u, rs, i, n - 1);
      if !Arrived(u, rs, i, n - 1) && Ins(u, rs[..n]).inAt == rs[n - 1].now {
        assert Ins(u, rs[..n - 1 + 1]).inAt == rs[n - 1].now;
      }
    }
  }

  // And what has grown by as much since any earlier report has counted since then.
  lemma {:induction false} GrowthCounts(u: Use, rs: seq<InReport>, i: nat, n: nat)
    requires i < n < |rs| && rs[n].filled >= rs[i].filled + 65_536
    ensures Arrived(u, rs, i, n + 1)
  {
    MarkStays(u, rs, i, n);
    InsNext(u, rs, n);
    hide Ins;
    if Arrived(u, rs, i, n) {
      var k :| i < k < n && Ins(u, rs[..k + 1]).inAt == rs[k].now;
      assert i < k < n + 1;
    }
  }

  // ---- The indexes ----

  type Orders = map<nat, set<Rank>>

  // The order of every share ranks exactly its sockets, each by what it holds now.
  ghost predicate OrderExact(order: Orders, uses: Uses) {
    && (forall k | k in uses :: uses[k].share in order && RankOf(k, uses[k]) in order[uses[k].share])
    && (forall s, r | s in order && r in order[s] ::
          r.key in uses && uses[r.key].share == s && r == RankOf(r.key, uses[r.key]))
    && (forall s | s in order :: order[s] != {})
  }

  // Every use is ranked by what it holds, which is not nothing.
  ghost predicate RanksKept(uses: Uses) {
    forall k | k in uses ::
      var u := uses[k]; Weight(u) > 0 && u.ranked && u.rankAt == ProgressAt(u) && u.rankWeight == Weight(u)
  }

  // The ledger charges each socket what it holds, to its share.
  ghost predicate ChargedExact(t: F.Table<nat>, uses: Uses) {
    t.Keys == uses.Keys && forall k | k in uses :: t[k].share == uses[k].share && t[k].weight == Weight(uses[k])
  }

  // `k` is the socket of its share that really progressed the longest ago.
  ghost predicate Stalest(uses: Uses, k: nat) {
    k in uses && forall j | j in uses && uses[j].share == uses[k].share ::
        RankLe(RankOf(k, uses[k]), RankOf(j, uses[j]))
  }

  // ---- Staleness, by what sockets hold and when that moved ----

  // A side of `u` that holds bytes last moved no later than each side of `v` that does.
  ghost predicate NoFresher(u: Use, v: Use) {
    || (u.out > 0 && (v.out > 0 ==> u.outAt <= v.outAt) && (v.partIn > 0 ==> u.outAt <= v.inAt))
    || (u.partIn > 0 && (v.out > 0 ==> u.inAt <= v.outAt) && (v.partIn > 0 ==> u.inAt <= v.inAt))
  }

  // `k` goes before `j`: it is no fresher, and if neither is, it holds more or as much under
  // the lesser number.
  ghost predicate Before(k: nat, u: Use, j: nat, v: Use) {
    && NoFresher(u, v)
    && (NoFresher(v, u) ==>
          u.out + u.partIn > v.out + v.partIn || (u.out + u.partIn == v.out + v.partIn && k <= j))
  }

  lemma {:induction false} RankIsBefore(k: nat, u: Use, j: nat, v: Use)
    requires u.out + u.partIn > 0 && v.out + v.partIn > 0
    ensures RankLe(RankOf(k, u), RankOf(j, v)) <==> Before(k, u, j, v)
  {}

  ghost predicate AllHold(uses: Uses) {
    forall k | k in uses :: uses[k].out + uses[k].partIn > 0
  }

  // The stalest socket of a share, in those terms.
  lemma {:induction false} StalestExactly(uses: Uses, k: nat)
    requires AllHold(uses)
    ensures Stalest(uses, k) <==>
            k in uses && forall j | j in uses && uses[j].share == uses[k].share :: Before(k, uses[k], j, uses[j])
  {
    hide RankLe, RankOf, Before;
    if k in uses {
      forall j | j in uses ensures RankLe(RankOf(k, uses[k]), RankOf(j, uses[j])) <==> Before(k, uses[k], j, uses[j]) {
        RankIsBefore(k, uses[k], j, uses[j]);
      }
    }
  }

  function Unranked(order: Orders, share: nat, r: Rank): Orders {
    if share !in order then order
    else if order[share] - {r} == {} then order - {share} else order[share := order[share] - {r}]
  }

  function Reranked(order: Orders, share: nat, r: Rank): Orders {
    order[share := (if share in order then order[share] else {}) + {r}]
  }

  lemma {:induction false} UnrankExact(order: Orders, uses: Uses, k: nat)
    requires OrderExact(order, uses) && k in uses
    ensures OrderExact(Unranked(order, uses[k].share, RankOf(k, uses[k])), Minus(uses, [k]))
  {
    var s, r := uses[k].share, RankOf(k, uses[k]);
    var o, left := Unranked(order, s, r), Minus(uses, [k]);
    forall j | j in left ensures left[j].share in o && RankOf(j, left[j]) in o[left[j].share] {
      assert uses[j].share == s ==> RankOf(j, uses[j]) in order[s] - {r};
    }
  }

  lemma {:induction false} RerankExact(order: Orders, uses: Uses, k: nat, u: Use)
    requires OrderExact(order, uses) && k !in uses
    ensures OrderExact(Reranked(order, u.share, RankOf(k, u)), uses[k := u])
  {}

  function Minus<V>(m: map<nat, V>, gone: seq<nat>): map<nat, V> {
    map k | k in m && k !in gone :: m[k]
  }

  // ---- Who is closed ----

  // Why sockets are being closed: so many more bytes have to fit, or the sweep is on and
  // both the budget and, past half of it, each share have a line.
  datatype Line = Fanout(bytes: nat) | Sweep

  ghost predicate Over(t: F.Table<nat>, limits: Limits, line: Line) {
    match line
    case Fanout(bytes) => F.Total(t) + bytes > limits.limit
    case Sweep =>
      F.Total(t) > limits.limit ||
      (F.Total(t) > limits.limit / 2 && exists s | s in F.SharesOf(t) :: F.Held(t, s) > limits.shareCap)
  }

  // While over the line, the stalest socket of the heaviest share.
  ghost predicate GivesWay(t: F.Table<nat>, uses: Uses, k: nat, limits: Limits, line: Line) {
    Over(t, limits, line) && k in t && F.Heaviest(t, t[k].share) && Stalest(uses, k)
  }

  // Each of `gone` gave way to what was left before it.
  ghost predicate ClosedInTurn(t: F.Table<nat>, uses: Uses, gone: seq<nat>, limits: Limits, line: Line) {
    forall i | 0 <= i < |gone| :: GivesWay(Minus(t, gone[..i]), Minus(uses, gone[..i]), gone[i], limits, line)
  }

  lemma {:induction false} ClosedOneMore(t: F.Table<nat>, uses: Uses, gone: seq<nat>, k: nat, limits: Limits,
                                         line: Line)
    requires ClosedInTurn(t, uses, gone, limits, line) && GivesWay(Minus(t, gone), Minus(uses, gone), k, limits, line)
    ensures ClosedInTurn(t, uses, gone + [k], limits, line)
  {
    hide GivesWay, Minus;
    var all := gone + [k];
    forall i | 0 <= i < |all| ensures GivesWay(Minus(t, all[..i]), Minus(uses, all[..i]), all[i], limits, line) {
      assert all[..i] == gone[..i];
      assert gone[..|gone|] == gone;
    }
  }

  // So whoever is closed was no fresher than any socket of its share left at that moment.
  lemma {:induction false} ClosedIsStalest(t: F.Table<nat>, uses: Uses, gone: seq<nat>, limits: Limits, line: Line,
                                           i: nat, j: nat)
    requires AllHold(uses) && ClosedInTurn(t, uses, gone, limits, line) && i < |gone|
    requires j in uses && j !in gone[..i]
    ensures gone[i] in uses
    ensures uses[j].share == uses[gone[i]].share ==> Before(gone[i], uses[gone[i]], j, uses[j])
  {
    hide Before, Over, F.Heaviest;
    var left := Minus(uses, gone[..i]);
    assert GivesWay(Minus(t, gone[..i]), left, gone[i], limits, line);
    StalestExactly(left, gone[i]);
    assert j in left && left[j] == uses[j] && left[gone[i]] == uses[gone[i]];
  }

  lemma {:induction false} MinusMore<V>(m: map<nat, V>, gone: seq<nat>, k: nat)
    ensures Minus(Minus(m, gone), [k]) == Minus(m, gone + [k])
  {}

  // ---- What the sockets hold in all ----

  ghost function Bytes(uses: Uses, keys: set<nat>): nat
    requires keys <= uses.Keys
  {
    if keys == {} then 0 else
      var k :| k in keys;
      uses[k].out + uses[k].partIn + Bytes(uses, keys - {k})
  }

  ghost function SocketsOf(uses: Uses, share: nat): set<nat> {
    set k | k in uses && uses[k].share == share
  }

  // What the sockets of `share` hold.
  ghost function ShareBytes(uses: Uses, share: nat): nat {
    Bytes(uses, SocketsOf(uses, share))
  }

  lemma {:induction false} ShareCharged(t: F.Table<nat>, uses: Uses, share: nat)
    requires ChargedExact(t, uses)
    ensures F.Held(t, share) == ShareBytes(uses, share)
  {
    assert F.OfShare(t, t.Keys, share) == SocketsOf(uses, share);
    BytesCharged(t, uses, SocketsOf(uses, share));
  }

  // The heaviest share holds as many bytes as any.
  lemma {:induction false} HeaviestInBytes(t: F.Table<nat>, uses: Uses, share: nat)
    requires ChargedExact(t, uses) && F.Heaviest(t, share)
    ensures forall s :: ShareBytes(uses, s) <= ShareBytes(uses, share)
  {
    hide F.Held, Bytes;
    forall s ensures ShareBytes(uses, s) <= ShareBytes(uses, share) {
      ShareCharged(t, uses, s);
      ShareCharged(t, uses, share);
      if s !in F.SharesOf(t) {
        assert SocketsOf(uses, s) == {};
        NothingIn(uses);
      }
    }
  }

  lemma {:induction false} NothingIn(uses: Uses)
    ensures Bytes(uses, {}) == 0
  {}

  lemma {:induction false} BytesCharged(t: F.Table<nat>, uses: Uses, keys: set<nat>)
    requires ChargedExact(t, uses) && keys <= uses.Keys
    ensures Bytes(uses, keys) == F.WeightOf(t, keys)
  {
    if keys != {} {
      var k :| k in keys && Bytes(uses, keys) == uses[k].out + uses[k].partIn + Bytes(uses, keys - {k});
      BytesCharged(t, uses, keys - {k});
      F.WeightOut(t, keys, k);
    }
  }

  datatype Admit = Pass | Trip | Refuse

  class Ledger {
    const limits: Limits
    const table: F.FairShare<nat>
    var uses: Uses
    var order: Orders
    var doomed: set<nat>

    ghost predicate Valid()
      reads this, table
    {
      && table.Valid() && ChargedExact(table.entries, uses) && RanksKept(uses) && OrderExact(order, uses)
    }

    // Every ledger in use meets what `StalestExactly`, `ClosedIsStalest` and `DoomedIsStalest` ask.
    lemma {:induction false} AllHoldSome()
      requires Valid()
      ensures AllHold(uses)
    {}

    constructor (l: Limits)
      ensures Valid() && uses == map[] && doomed == {} && limits == l && fresh(table)
    {
      limits := l;
      table := new F.FairShare();
      uses, order, doomed := map[], map[], {};
    }

    // The total is the sum of the bytes the sockets hold.
    lemma {:induction false} TotalExact()
      requires Valid()
      ensures table.total == Bytes(uses, uses.Keys) == F.Total(table.entries)
    {
      BytesCharged(table.entries, uses, uses.Keys);
    }

    method Unrank(k: nat)
      requires k in uses && uses[k].ranked && OrderExact(order, uses)
      requires uses[k].rankAt == ProgressAt(uses[k]) && uses[k].rankWeight == Weight(uses[k])
      modifies this`order
      ensures OrderExact(order, Minus(uses, [k]))
    {
      UnrankExact(order, uses, k);
      var u := uses[k];
      hide OrderExact;
      order := Unranked(order, u.share, Rank(u.rankAt, u.rankWeight, k));
    }

    // `k` is in no index any more, and nothing else moved.
    method Forget(k: nat)
      requires Valid()
      modifies this`uses, this`order, this`doomed, table
      ensures Valid() && doomed == old(doomed) - {k}
      ensures uses == Minus(old(uses), [k]) && table.entries == Minus(old(table.entries), [k])
    {
      hide OrderExact, RanksKept, ChargedExact, F.FairShare.Valid;
      ForgetKeeps(table.entries, uses, k);
      if k in uses {
        RankKept(uses, k);
        Unrank(k);
        uses := uses - {k};
      }
      var _ := table.Remove(k);
      doomed := doomed - {k};
      WithoutIs(old(table.entries), k, table.entries);
      MinusIs(old(uses), k);
    }

    // What `k` holds is now `u`: it leaves the ledger when that is nothing.
    method Settle(k: nat, u: Use)
      requires Valid() && (k in uses ==> u.share == uses[k].share)
      modifies this`uses, this`order, table
      ensures Valid() && uses == Settled(old(uses), k, u)
    {
      hide OrderExact, RanksKept, ChargedExact, F.FairShare.Valid;
      ghost var was, entries := uses, table.entries;
      SettleKeeps(entries, was, k, u);
      MinusIs(was, k);
      if k in uses {
        RankKept(uses, k);
        Unrank(k);
      }
      if Weight(u) == 0 {
        uses := uses - {k};
        var _ := table.Remove(k);
        WithoutIs(entries, k, table.entries);
      } else {
        ChargedKeys(entries, was);
        if k in table.entries { table.Reweigh(k, Weight(u)); } else { table.Put(k, u.share, Weight(u)); }
        RerankExact(order, Minus(was, [k]), k, RankedUse(u));
        MinusThen(was, k, RankedUse(u));
        order := Reranked(order, u.share, RankOf(k, u));
        uses := uses[k := RankedUse(u)];
        SettledCharge(entries, was, table.entries, k, u);
      }
    }

    // A socket's unsent buffer is now `amount` bytes.
    method Out(k: nat, amount: nat, now: int, share: nat)
      requires Valid()
      modifies this`uses, this`order, table
      ensures Valid()
      ensures uses == if k !in old(uses) && amount == 0 then old(uses)
                      else Settled(old(uses), k, OutUse(UseOf(old(uses), k, share, now), amount, now))
    {
      hide OrderExact, RanksKept, ChargedExact, F.FairShare.Valid;
      if k !in uses && amount == 0 { return; }
      Settle(k, OutUse(UseOf(uses, k, share, now), amount, now));
    }

    // A socket's inbound frame now holds `held` bytes.
    method In(k: nat, held: nat, filled: nat, messages: nat, now: int, share: nat)
      requires Valid()
      modifies this`uses, this`order, table
      ensures Valid()
      ensures uses == if k !in old(uses) && held == 0 then old(uses)
                      else Settled(old(uses), k, InUse(UseOf(old(uses), k, share, now), held, filled, messages, now))
    {
      hide OrderExact, RanksKept, ChargedExact, F.FairShare.Valid;
      if k !in uses && held == 0 { return; }
      Settle(k, InUse(UseOf(uses, k, share, now), held, filled, messages, now));
    }

    // ---- Closing ----

    function HeldBy(share: nat): nat
      reads table
    {
      if share in table.shares then table.shares[share].held else 0
    }

    lemma {:induction false} HeldExact(share: nat)
      requires table.Valid()
      ensures HeldBy(share) == F.Held(table.entries, share)
    {
      if share !in table.shares {
        assert F.OfShare(table.entries, table.entries.Keys, share) == {};
      }
    }

    // The heaviest share's stalest socket.
    method FirstToGo() returns (v: Option<nat>, share: nat)
      requires Valid()
      ensures v.None? <==> uses == map[]
      ensures v.Some? ==> v.value in uses && v.value in table.entries && share == uses[v.value].share
      ensures v.Some? ==> F.Heaviest(table.entries, share) && Stalest(uses, v.value)
      ensures v.Some? ==> forall s :: ShareBytes(uses, s) <= ShareBytes(uses, share)
      ensures v.Some? ==>
                forall j | j in uses && uses[j].share == share :: Before(v.value, uses[v.value], j, uses[j])
    {
      hide F.FairShare.Valid, F.Held, F.Total, F.WeightOf, Before, ShareBytes;
      var top := table.Victim();
      if top.None? { return None, 0; }
      share := table.entries[top.value].share;
      var ranks := order[share];
      ghost var least := LeastRank(ranks);
      var first :| first in ranks && forall r | r in ranks :: RankLe(first, r);
      v := Some(first.key);
      StalestExactly(uses, first.key);
      HeaviestInBytes(table.entries, uses, share);
    }

    // `k` is next to give way: it is forgotten.
    method Close(k: nat, closed: seq<nat>, ghost t0: F.Table<nat>, ghost uses0: Uses, ghost line: Line)
      returns (more: seq<nat>)
      requires Valid() && k in uses && GivesWay(table.entries, uses, k, limits, line)
      requires ClosedSoFar(t0, uses0, closed, line)
      modifies this`uses, this`order, this`doomed, table
      ensures Valid() && table.total == F.Total(table.entries)
      ensures more == closed + [k] && ClosedSoFar(t0, uses0, more, line)
      ensures |uses| < |old(uses)| && forall j | j in uses :: j in old(uses) && uses[j] == old(uses)[j]
    {
      hide OrderExact, RanksKept, ChargedExact, F.FairShare.Valid, F.Total, Minus, GivesWay, ClosedInTurn;
      ClosedOneMore(t0, uses0, closed, k, limits, line);
      MinusMore(t0, closed, k);
      MinusMore(uses0, closed, k);
      MinusSmaller(uses, k);
      Forget(k);
      TotalExact();
      more := closed + [k];
    }

    // What is left of `t0` and `uses0` once each of `closed` gave way in turn.
    ghost predicate ClosedSoFar(t0: F.Table<nat>, uses0: Uses, closed: seq<nat>, line: Line)
      reads this, table
    {
      && uses == Minus(uses0, closed) && table.entries == Minus(t0, closed)
      && ClosedInTurn(t0, uses0, closed, limits, line)
    }

    lemma {:induction false} NobodyYet(line: Line)
      ensures ClosedSoFar(table.entries, uses, [], line)
    {
      MinusNone(uses);
      MinusNone(table.entries);
    }

    // Passes within the limit only. What it closes on the way is in turn the stalest of the
    // heaviest share; where that would be the sender, it trips and closes no one further.
    method AdmitFanout(bytes: nat, sender: nat, ownShare: nat) returns (verdict: Admit, closed: seq<nat>)
      requires Valid() && (sender in uses ==> uses[sender].share == ownShare)
      modifies this`uses, this`order, this`doomed, table
      ensures Valid()
      ensures verdict == Refuse <==> bytes > limits.limit
      ensures verdict == Refuse ==> closed == []
      ensures verdict == Pass ==> F.Total(table.entries) + bytes <= limits.limit
      ensures verdict == Trip ==> GivesWay(table.entries, uses, sender, limits, Fanout(bytes))
      ensures sender !in closed
      ensures ClosedSoFar(old(table.entries), old(uses), closed, Fanout(bytes))
    {
      hide OrderExact, RanksKept, ChargedExact, F.FairShare.Valid, F.Total, F.Heaviest, Stalest, GivesWay,
           Ledger.ClosedSoFar;
      ghost var t0, uses0, line := table.entries, uses, Fanout(bytes);
      closed := [];
      NobodyYet(line);
      if bytes > limits.limit { return Refuse, []; }
      TotalExact();
      while table.total + bytes > limits.limit
        invariant Valid() && table.total == F.Total(table.entries)
        invariant sender !in closed && (sender in uses ==> uses[sender].share == ownShare)
        invariant ClosedSoFar(t0, uses0, closed, line)
        decreases |uses|
      {
        SomethingHeld(table.entries, uses);
        var v, share := FirstToGo();
        ChargedKeys(table.entries, uses);
        GoesNext(table.entries, uses, v.value, limits, line);
        if share == ownShare && v.value == sender { return Trip, closed; }
        closed := Close(v.value, closed, t0, uses0, line);
      }
      return Pass, closed;
    }

    // What the sweep closes: the heaviest share's stalest socket, again and again, until the
    // budget fits and, while more than half of it is held, so does every share.
    method OverBudget() returns (closed: seq<nat>)
      requires Valid()
      modifies this`uses, this`order, this`doomed, table
      ensures Valid()
      ensures F.Total(table.entries) <= limits.limit
      ensures F.Total(table.entries) > limits.limit / 2 ==> forall s :: F.Held(table.entries, s) <= limits.shareCap
      ensures ClosedSoFar(old(table.entries), old(uses), closed, Sweep)
    {
      hide OrderExact, RanksKept, ChargedExact, F.FairShare.Valid, F.Total, F.Held, F.Heaviest, F.SharesOf, Stalest,
           GivesWay, Ledger.ClosedSoFar, Over;
      ghost var t0, uses0 := table.entries, uses;
      closed := [];
      NobodyYet(Sweep);
      TotalExact();
      while true
        invariant Valid() && table.total == F.Total(table.entries)
        invariant ClosedSoFar(t0, uses0, closed, Sweep)
        decreases |uses|
      {
        var v, share := FirstToGo();
        if v.None? {
          NothingHeld(table.entries, uses, limits);
          return;
        }
        ChargedKeys(table.entries, uses);
        HeldExact(share);
        SweepLine(table.entries, share, limits);
        if table.total <= limits.limit && (table.total <= limits.limit / 2 || HeldBy(share) <= limits.shareCap) {
          return;
        }
        GoesNext(table.entries, uses, v.value, limits, Sweep);
        closed := Close(v.value, closed, t0, uses0, Sweep);
      }
    }

    // ---- One write ----

    // What `share` holds apart from sockets already doomed.
    method LiveBytes(share: nat) returns (live: nat)
      requires Valid()
      ensures live == Live(table.entries, doomed, share)
    {
      hide OrderExact, RanksKept, F.FairShare.Valid, F.WeightOf;
      HeldExact(share);
      live := HeldBy(share);
      var left := doomed;
      assert doomed - left == {};
      LiveAll(table.entries, share);
      while left != {}
        invariant left <= doomed && live == Live(table.entries, doomed - left, share)
        decreases left
      {
        var d :| d in left;
        LiveOne(table.entries, doomed - left, d, share);
        assert doomed - (left - {d}) == doomed - left + {d};
        left := left - {d};
        if d in uses && uses[d].share == share { live := live - Least(live, Weight(uses[d])); }
      }
      assert doomed - {} == doomed;
    }

    // Says yes only within the socket's cap and the budget's; under pressure also only
    // within the share's, the stalest of its sockets doomed one by one while the write does
    // not fit, and no further.
    method WriteFits(k: nat, buffered: nat, bytes: nat, share: nat, strict: bool, reserved: nat)
      returns (fits: bool, ghost more: seq<nat>)
      requires Valid() && (k in uses ==> uses[k].share == share)
      modifies this`doomed
      ensures Valid() && doomed == old(doomed) + Keys(more)
      ensures DoomedInTurn(table.entries, uses, old(doomed), more, share, bytes, limits.shareCap)
      ensures buffered == 0 || buffered + bytes > limits.socketCap || k in old(doomed) ==> more == []
      ensures F.Total(table.entries) + bytes <= limits.limit / 2 ==> more == []
      ensures (if strict then F.Total(table.entries) + bytes + reserved > limits.limit
               else F.Total(table.entries) + bytes > limits.hard) ==> more == []
      ensures fits ==> buffered == 0 || buffered + bytes <= limits.socketCap
      ensures fits ==> if strict then F.Total(table.entries) + bytes + reserved <= limits.limit
                       else F.Total(table.entries) + bytes <= limits.hard
      ensures fits && buffered > 0 && F.Total(table.entries) + bytes > limits.limit / 2 ==>
                k !in doomed && Live(table.entries, doomed, share) + bytes <= limits.shareCap
      ensures k !in more
      ensures !fits ==>
                || (buffered > 0 && buffered + bytes > limits.socketCap)
                || (if strict then F.Total(table.entries) + bytes + reserved > limits.limit
                    else F.Total(table.entries) + bytes > limits.hard)
                || k in old(doomed)
                || (Live(table.entries, doomed, share) + bytes > limits.shareCap && NextInShare(uses, doomed, share, k))
    {
      hide OrderExact, RanksKept, ChargedExact, F.FairShare.Valid, F.Total, Live, NextInShare, DoomedInTurn;
      TotalExact();
      more := [];
      NobodyDoomed(table.entries, uses, doomed, share, bytes, limits.shareCap);
      if buffered > 0 && buffered + bytes > limits.socketCap { return false, []; }
      if (if strict then table.total + bytes + reserved > limits.limit else table.total + bytes > limits.hard) {
        return false, [];
      }
      if buffered == 0 || table.total + bytes <= limits.limit / 2 { return true, []; }
      if k in doomed { return false, []; }
      fits, more := DoomUntilFits(k, bytes, share);
    }

    method DoomUntilFits(k: nat, bytes: nat, share: nat) returns (fits: bool, ghost more: seq<nat>)
      requires Valid() && (k in uses ==> uses[k].share == share) && k !in doomed
      modifies this`doomed
      ensures Valid() && doomed == old(doomed) + Keys(more) && k !in doomed
      ensures DoomedInTurn(table.entries, uses, old(doomed), more, share, bytes, limits.shareCap)
      ensures fits <==> Live(table.entries, doomed, share) + bytes <= limits.shareCap
      ensures !fits ==> NextInShare(uses, doomed, share, k)
    {
      hide RanksKept, OrderExact, ChargedExact, F.FairShare.Valid, Live, RankLe, RankOf, DoomedInTurn, Stalest;
      more := [];
      NobodyDoomed(table.entries, uses, doomed, share, bytes, limits.shareCap);
      var live := LiveBytes(share);
      var ranks := if share in order then order[share] else {};
      RanksOf(order, uses, table.entries, share);
      var left := ranks;
      while left != {}
        invariant doomed == old(doomed) + Keys(more) && k !in doomed && live == Live(table.entries, doomed, share)
        invariant DoomedInTurn(table.entries, uses, old(doomed), more, share, bytes, limits.shareCap)
        invariant left <= ranks && forall r | r in ranks - left :: r.key in doomed
        decreases left
      {
        if live + bytes <= limits.shareCap {
          return true, more;
        }
        ghost var least := LeastRank(left);
        var r :| r in left && forall o | o in left :: RankLe(r, o);
        if r.key !in doomed {
          if r.key == k { return false, more; }
          LiveOne(table.entries, doomed, r.key, share);
          DoomedOneMore(table.entries, uses, old(doomed), more, r.key, share, bytes, limits.shareCap);
          more := more + [r.key];
          doomed := doomed + {r.key};
          live := live - Least(live, r.weight);
        }
        left := left - {r};
      }
      fits := live + bytes <= limits.shareCap;
    }
  }

  // A share's ranks are its sockets', each with what the ledger charges it.
  lemma {:induction false} RanksOf(order: Orders, uses: Uses, t: F.Table<nat>, share: nat)
    requires OrderExact(order, uses) && ChargedExact(t, uses)
    ensures var ranks := if share in order then order[share] else {};
            && (forall r | r in ranks ::
                  && r.key in uses && uses[r.key].share == share && r == RankOf(r.key, uses[r.key])
                  && r.key in t && t[r.key].share == share && t[r.key].weight == r.weight)
            && (forall k | k in uses && uses[k].share == share :: RankOf(k, uses[k]) in ranks)
            && (forall k | k in uses :: RankOf(k, uses[k]).key == k)
  {}

  // What `share` holds apart from `doomed`.
  ghost function Live(t: F.Table<nat>, doomed: set<nat>, share: nat): nat {
    F.WeightOf(t, F.OfShare(t, t.Keys, share) - doomed)
  }

  lemma {:induction false} LiveAll(t: F.Table<nat>, share: nat)
    ensures Live(t, {}, share) == F.Held(t, share)
  {
    assert F.OfShare(t, t.Keys, share) - {} == F.OfShare(t, t.Keys, share);
  }

  // Every socket of `share` not doomed is `k` or comes after it in the victim order.
  ghost predicate NextInShare(uses: Uses, doomed: set<nat>, share: nat, k: nat) {
    forall j | j in uses && uses[j].share == share && j !in doomed ::
      k in uses && RankLe(RankOf(k, uses[k]), RankOf(j, uses[j]))
  }

  ghost function Keys(ks: seq<nat>): set<nat> {
    set k | k in ks
  }

  // `d` is doomed next: the share does not fit as it is, and of its sockets not yet doomed
  // `d` is the stalest.
  ghost predicate DoomedNext(t: F.Table<nat>, uses: Uses, doomed: set<nat>, d: nat, share: nat, bytes: nat, cap: nat) {
    && Live(t, doomed, share) + bytes > cap
    && d in uses && uses[d].share == share && d !in doomed && NextInShare(uses, doomed, share, d)
  }

  ghost predicate DoomedInTurn(t: F.Table<nat>, uses: Uses, doomed: set<nat>, more: seq<nat>, share: nat, bytes: nat,
                               cap: nat)
  {
    forall i | 0 <= i < |more| :: DoomedNext(t, uses, doomed + Keys(more[..i]), more[i], share, bytes, cap)
  }

  lemma {:induction false} NobodyDoomed(t: F.Table<nat>, uses: Uses, doomed: set<nat>, share: nat, bytes: nat, cap: nat)
    ensures DoomedInTurn(t, uses, doomed, [], share, bytes, cap) && doomed == doomed + Keys([])
  {}

  lemma {:induction false} DoomedOneMore(t: F.Table<nat>, uses: Uses, doomed: set<nat>, more: seq<nat>, d: nat,
                                         share: nat, bytes: nat, cap: nat)
    requires DoomedInTurn(t, uses, doomed, more, share, bytes, cap)
    requires DoomedNext(t, uses, doomed + Keys(more), d, share, bytes, cap)
    ensures DoomedInTurn(t, uses, doomed, more + [d], share, bytes, cap)
    ensures doomed + Keys(more + [d]) == doomed + Keys(more) + {d}
  {
    hide DoomedNext;
    var all := more + [d];
    forall i | 0 <= i < |all| ensures DoomedNext(t, uses, doomed + Keys(all[..i]), all[i], share, bytes, cap) {
      assert all[..i] == more[..i];
      assert more[..|more|] == more;
    }
    assert Keys(all) == Keys(more) + {d};
  }

  // Whoever is doomed was no fresher than any socket of its share not yet doomed.
  lemma {:induction false} DoomedIsStalest(t: F.Table<nat>, uses: Uses, doomed: set<nat>, more: seq<nat>, share: nat,
                                           bytes: nat, cap: nat, i: nat, j: nat)
    requires AllHold(uses) && DoomedInTurn(t, uses, doomed, more, share, bytes, cap) && i < |more|
    requires j in uses && uses[j].share == share && j !in doomed && j !in more[..i]
    ensures more[i] in uses && Before(more[i], uses[more[i]], j, uses[j])
  {
    hide Before, Live, RankLe, RankOf;
    assert DoomedNext(t, uses, doomed + Keys(more[..i]), more[i], share, bytes, cap);
    RankIsBefore(more[i], uses[more[i]], j, uses[j]);
  }

  lemma {:induction false} LiveOne(t: F.Table<nat>, doomed: set<nat>, d: nat, share: nat)
    requires d !in doomed
    ensures Live(t, doomed, share) ==
            Live(t, doomed + {d}, share) + (if d in t && t[d].share == share then t[d].weight else 0)
  {
    var keys := F.OfShare(t, t.Keys, share) - doomed;
    assert F.OfShare(t, t.Keys, share) - (doomed + {d}) == keys - {d};
    if d in t && t[d].share == share {
      F.WeightOut(t, keys, d);
    } else {
      assert keys - {d} == keys;
    }
  }

  function UseOf(uses: Uses, k: nat, share: nat, now: int): Use {
    if k in uses then uses[k] else NewUse(share, now)
  }

  function RankedUse(u: Use): Use {
    u.(ranked := true, rankAt := ProgressAt(u), rankWeight := Weight(u))
  }

  function Settled(uses: Uses, k: nat, u: Use): Uses {
    if Weight(u) == 0 then Minus(uses, [k]) else uses[k := RankedUse(u)]
  }

  lemma {:induction false} RankKept(uses: Uses, k: nat)
    requires RanksKept(uses) && k in uses
    ensures uses[k].ranked && uses[k].rankAt == ProgressAt(uses[k]) && uses[k].rankWeight == Weight(uses[k])
  {}

  lemma {:induction false} WithoutIs(t: F.Table<nat>, k: nat, u: F.Table<nat>)
    requires F.Without(t, k, u)
    ensures u == Minus(t, [k])
  {}

  lemma {:induction false} MinusIs(m: Uses, k: nat)
    ensures m - {k} == Minus(m, [k])
    ensures k !in m ==> Minus(m, [k]) == m
  {
    assert k !in m ==> Minus(m, [k]) == m;
  }

  lemma {:induction false} MinusThen(m: Uses, k: nat, u: Use)
    ensures Minus(m, [k])[k := u] == m[k := u]
  {}

  lemma {:induction false} ChargedKeys(t: F.Table<nat>, uses: Uses)
    requires ChargedExact(t, uses)
    ensures t.Keys == uses.Keys && forall k | k in uses :: t[k].share == uses[k].share
  {}

  lemma {:induction false} ForgetKeeps(t: F.Table<nat>, uses: Uses, k: nat)
    requires ChargedExact(t, uses) && RanksKept(uses)
    ensures ChargedExact(Minus(t, [k]), Minus(uses, [k])) && RanksKept(Minus(uses, [k]))
    ensures k in uses <==> k in t
    ensures k !in uses ==> Minus(uses, [k]) == uses
  {}

  lemma {:induction false} SettleKeeps(t: F.Table<nat>, uses: Uses, k: nat, u: Use)
    requires ChargedExact(t, uses) && RanksKept(uses)
    ensures RanksKept(Settled(uses, k, u))
    ensures Weight(u) == 0 ==> ChargedExact(Minus(t, [k]), Minus(uses, [k]))
  {}

  lemma {:induction false} SettledCharge(t: F.Table<nat>, uses: Uses, after: F.Table<nat>, k: nat, u: Use)
    requires ChargedExact(t, uses) && after.Keys == t.Keys + {k} && (forall j | j in t && j != k :: after[j] == t[j])
    requires after[k].share == u.share && after[k].weight == Weight(u)
    ensures ChargedExact(after, uses[k := RankedUse(u)])
  {}

  lemma {:induction false} MinusNone<V>(m: map<nat, V>)
    ensures Minus(m, []) == m
  {}

  lemma {:induction false} SomethingHeld(t: F.Table<nat>, uses: Uses)
    requires ChargedExact(t, uses) && F.Total(t) > 0
    ensures uses != map[]
  {}

  lemma {:induction false} GoesNext(t: F.Table<nat>, uses: Uses, k: nat, limits: Limits, line: Line)
    requires Over(t, limits, line) && k in t && F.Heaviest(t, t[k].share) && Stalest(uses, k)
    ensures GivesWay(t, uses, k, limits, line)
  {}

  lemma {:induction false} MinusSmaller(uses: Uses, k: nat)
    requires k in uses
    ensures |Minus(uses, [k])| < |uses| && k !in Minus(uses, [k])
    ensures forall j | j in Minus(uses, [k]) :: j in uses && Minus(uses, [k])[j] == uses[j]
  {
    assert Minus(uses, [k]).Keys == uses.Keys - {k};
  }

  lemma {:induction false} NoneHeld(t: F.Table<nat>, share: nat)
    requires share !in F.SharesOf(t)
    ensures F.Held(t, share) == 0
  {
    assert F.OfShare(t, t.Keys, share) == {} by {
      forall k | k in t ensures t[k].share != share { assert t[k].share in F.SharesOf(t); }
    }
  }

  lemma {:induction false} NothingHeld(t: F.Table<nat>, uses: Uses, limits: Limits)
    requires ChargedExact(t, uses) && uses == map[]
    ensures F.Total(t) == 0 <= limits.limit / 2
  {}

  // Past the sweep's line exactly when the budget is, or the heaviest share under pressure.
  lemma {:induction false} SweepLine(t: F.Table<nat>, share: nat, limits: Limits)
    requires F.Heaviest(t, share)
    ensures Over(t, limits, Sweep) <==>
              F.Total(t) > limits.limit || (F.Total(t) > limits.limit / 2 && F.Held(t, share) > limits.shareCap)
    ensures F.Held(t, share) <= limits.shareCap ==> forall s :: F.Held(t, s) <= limits.shareCap
  {
    hide F.Held, F.Total, F.SharesOf;
    forall s | s !in F.SharesOf(t) ensures F.Held(t, s) == 0 { NoneHeld(t, s); }
  }
}
