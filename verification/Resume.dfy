// The resume protocol (relay-uws/src/session.h, driven from relay-uws/src/ws_handler.cpp):
// the relay numbers what it sends, the device counts what it handles, and a socket may die
// at any moment. One World is a session at one instant; its steps are the ring operations
// (Stream.dfy) and what the path between the two sides does.
module Resume {
  import opened Base
  import opened Streams

  datatype World = World(
    st: Stream,        // the session's ring
    pushed: seq<Msg>,  // every frame ever counted for the device, the n-th under number n + 1
    open: bool,        // a write to the session's socket still goes out
    path: seq<Item>,   // written and not yet arrived, in order
    count: nat,        // the device's count
    log: seq<Item>     // what the device handled, in order
  )

  ghost predicate Init(w: World) {
    w == World(Stream(0, []), [], false, [], 0, [])
  }

  // What can happen next. A frame too large to keep is counted as a gap; a write that is
  // refused closes the path behind what was already written.
  datatype Step =
    | Send(m: Msg, kept: bool)
    | Bury(n: nat)
    | Ack(h: nat)
    | Cut(k: nat)
    | Deliver
    | Resume

  function After(w: World, s: Step): World
    requires s.Bury? ==> w.st.Numbers(s.n)
    requires s.Resume? ==> w.st.CanResumeFrom(w.count)
  {
    match s
    case Send(m, kept) =>
      var st := if kept then Pushed(w.st, m) else PushedGap(w.st);
      w.(st := st, pushed := w.pushed + [m],
         path := if w.open then w.path + [Real(st.Sent(), m)] else w.path)
    case Bury(n) => w.(st := Buried(w.st, n))
    case Ack(h) => w.(st := Acked(w.st, h))
    case Cut(k) => w.(open := false, path := if k <= |w.path| then w.path[..k] else w.path)
    case Deliver =>
      if w.path == [] then w
      else w.(path := w.path[1..], count := w.count + w.path[0].Counts(), log := w.log + [w.path[0]])
    case Resume =>
      var st := Acked(w.st, w.count);
      w.(st := st, open := true, path := Replay(st, w.count))
  }

  // The relay may bury any frame at any time; the device acks a count it has reached, and
  // a count past everything sent is out of range; a resume is answered only when in range.
  ghost predicate Enabled(w: World, s: Step) {
    match s
    case Bury(n) => w.st.Numbers(n)
    case Ack(h) => h <= w.count || h > w.st.Sent()
    case Resume => w.st.CanResumeFrom(w.count)
    case _ => true
  }

  ghost predicate Run(ws: seq<World>, steps: seq<Step>) {
    && |ws| == |steps| + 1
    && forall i | 0 <= i < |steps| :: Enabled(ws[i], steps[i]) && ws[i + 1] == After(ws[i], steps[i])
  }

  // ---- What every reachable world keeps ----

  // `items` take a count from `lo` to `hi`: each stands right after the one before, and a
  // frame is the one that was counted under its number.
  ghost predicate Chain(items: seq<Item>, lo: nat, hi: nat, pushed: seq<Msg>) {
    if items == [] then lo == hi else
      var i := items[0];
      && i.Counts() > 0
      && i.num == lo + i.Counts()
      && i.num <= |pushed|
      && (i.Real? ==> i.msg == pushed[i.num - 1])
      && Chain(items[1..], i.num, hi, pushed)
  }

  // A slot holds the frame counted under its number, or nothing.
  ghost predicate Faithful(st: Stream, pushed: seq<Msg>) {
    && |pushed| == st.Sent()
    && forall i | 0 <= i < |st.slots| :: st.slots[i].Kept? ==> st.slots[i].msg == pushed[st.acked + i]
  }

  // How far what is on its way takes the device.
  function Reach(path: seq<Item>, count: nat): nat {
    if path == [] then count else path[|path| - 1].num
  }

  ghost predicate Inv(w: World) {
    && Faithful(w.st, w.pushed)
    && w.st.acked <= w.count
    && Chain(w.log, 0, w.count, w.pushed)
    && Chain(w.path, w.count, Reach(w.path, w.count), w.pushed)
    && Reach(w.path, w.count) <= w.st.Sent()
    && (w.open ==> Reach(w.path, w.count) == w.st.Sent())
  }

  lemma {:induction false} ChainBounds(items: seq<Item>, lo: nat, hi: nat, pushed: seq<Msg>)
    requires Chain(items, lo, hi, pushed) && lo <= |pushed|
    ensures lo <= hi <= |pushed|
    ensures hi == Reach(items, lo)
  {
    if items != [] {
      ChainBounds(items[1..], items[0].num, hi, pushed);
    }
  }

  lemma {:induction false} ChainConcat(a: seq<Item>, b: seq<Item>, lo: nat, mid: nat, hi: nat, pushed: seq<Msg>)
    requires Chain(a, lo, mid, pushed) && Chain(b, mid, hi, pushed)
    ensures Chain(a + b, lo, hi, pushed)
  {
    if a == [] {
      assert a + b == b;
    } else {
      ChainConcat(a[1..], b, a[0].num, mid, hi, pushed);
      assert (a + b)[1..] == a[1..] + b;
    }
  }

  lemma {:induction false} ChainSplit(items: seq<Item>, k: nat, lo: nat, hi: nat, pushed: seq<Msg>)
    requires Chain(items, lo, hi, pushed) && k <= |items|
    ensures Chain(items[..k], lo, Reach(items[..k], lo), pushed)
    ensures Chain(items[k..], Reach(items[..k], lo), hi, pushed)
    decreases k
  {
    if k > 0 {
      ChainSplit(items[1..], k - 1, items[0].num, hi, pushed);
      assert items[..k][1..] == items[1..][..k - 1];
      assert items[1..][k - 1..] == items[k..];
    } else {
      assert items[..0] == [] && items[0..] == items;
    }
  }

  lemma {:induction false} ChainMore(items: seq<Item>, lo: nat, hi: nat, pushed: seq<Msg>, more: seq<Msg>)
    requires Chain(items, lo, hi, pushed)
    ensures Chain(items, lo, hi, pushed + more)
  {
    if items != [] {
      ChainMore(items[1..], items[0].num, hi, pushed, more);
    }
  }

  // A replay takes a device from the count it names to everything sent.
  lemma {:induction false} RunsChain(slots: seq<Slot>, h: nat, pushed: seq<Msg>)
    requires h + |slots| <= |pushed|
    requires forall i | 0 <= i < |slots| :: slots[i].Kept? ==> slots[i].msg == pushed[h + i]
    ensures Chain(Runs(slots, h), h, h + |slots|, pushed)
    decreases |slots|
  {
    if slots != [] {
      hide Runs;
      var front, s := slots[..|slots| - 1], slots[|slots| - 1];
      assert slots == front + [s];
      RunsChain(front, h, pushed);
      RunsSnoc(front, s, h);
      ExtendedChain(Runs(front, h), h, h + |front|, s, pushed);
    } else {
      assert Runs(slots, h) == [];
    }
  }

  lemma {:induction false} ExtendedChain(items: seq<Item>, lo: nat, hi: nat, s: Slot, pushed: seq<Msg>)
    requires Chain(items, lo, hi, pushed) && lo <= hi < |pushed|
    requires s.Kept? ==> s.msg == pushed[hi]
    ensures Chain(Extended(items, s, hi + 1), lo, hi + 1, pushed)
  {
    if s.Gone? && EndsInGap(items) {
      var k := |items| - 1;
      ChainSplit(items, k, lo, hi, pushed);
      assert items[k..] == [items[k]];
      var x := Gap(hi + 1, items[k].n + 1);
      assert [x][1..] == [] == [items[k]][1..];
      ChainConcat(items[..k], [x], lo, Reach(items[..k], lo), hi + 1, pushed);
    } else {
      var x := if s.Kept? then Real(hi + 1, s.msg) else Gap(hi + 1, 1);
      assert [x][1..] == [];
      ChainConcat(items, [x], lo, hi, hi + 1, pushed);
    }
  }

  lemma {:induction false} SendKeeps(w: World, m: Msg, kept: bool)
    requires Inv(w)
    ensures Inv(After(w, Send(m, kept)))
  {
    hide Chain;
    var v := After(w, Send(m, kept));
    ChainBounds(w.log, 0, w.count, w.pushed);
    ChainBounds(w.path, w.count, Reach(w.path, w.count), w.pushed);
    ChainMore(w.log, 0, w.count, w.pushed, [m]);
    ChainMore(w.path, w.count, Reach(w.path, w.count), w.pushed, [m]);
    if w.open {
      SentOn(w.path, w.count, w.st.Sent(), v.pushed, m);
      ChainBounds(v.path, v.count, w.st.Sent() + 1, v.pushed);
    }
  }

  lemma {:induction false} CutKeeps(w: World, k: nat)
    requires Inv(w)
    ensures Inv(After(w, Cut(k)))
  {
    hide Chain, Faithful;
    ChainBounds(w.log, 0, w.count, w.pushed);
    if k <= |w.path| {
      ChainSplit(w.path, k, w.count, Reach(w.path, w.count), w.pushed);
      CutShort(w.path, k, w.count, Reach(w.path, w.count), w.pushed);
    }
  }

  lemma {:induction false} ResumeKeeps(w: World)
    requires Inv(w) && Enabled(w, Resume)
    ensures Inv(After(w, Resume))
  {
    hide Chain, Replay;
    var v := After(w, Resume);
    assert Faithful(v.st, v.pushed);
    ReplayChain(v.st, w.count, v.pushed);
  }

  lemma {:induction false} DropKeeps(w: World, s: Step)
    requires Inv(w) && Enabled(w, s) && (s.Bury? || s.Ack?)
    ensures Inv(After(w, s))
  {
    hide Chain, Replay;
    ChainBounds(w.log, 0, w.count, w.pushed);
    ChainBounds(w.path, w.count, Reach(w.path, w.count), w.pushed);
  }

  lemma {:induction false} StepKeeps(w: World, s: Step)
    requires Inv(w) && Enabled(w, s)
    ensures Inv(After(w, s))
  {
    hide Chain, Replay, Faithful;
    match s {
      case Send(m, kept) => SendKeeps(w, m, kept);
      case Bury(n) => DropKeeps(w, s);
      case Ack(h) => DropKeeps(w, s);
      case Cut(k) => CutKeeps(w, k);
      case Deliver => if w.path != [] { Delivered(w); }
      case Resume => ResumeKeeps(w);
    }
  }

  lemma {:induction false} ReplayChain(st: Stream, h: nat, pushed: seq<Msg>)
    requires Faithful(st, pushed) && st.CanResumeFrom(h)
    ensures Chain(Replay(st, h), h, st.Sent(), pushed)
    ensures Reach(Replay(st, h), h) == st.Sent()
  {
    RunsChain(st.slots[h - st.acked..], h, pushed);
    ChainBounds(Replay(st, h), h, st.Sent(), pushed);
  }

  lemma {:induction false} SentOn(path: seq<Item>, count: nat, sent: nat, pushed: seq<Msg>, m: Msg)
    requires Chain(path, count, sent, pushed) && sent + 1 == |pushed| && pushed[sent] == m
    ensures Chain(path + [Real(sent + 1, m)], count, sent + 1, pushed)
  {
    assert [Real(sent + 1, m)][1..] == [];
    ChainConcat(path, [Real(sent + 1, m)], count, sent, sent + 1, pushed);
  }

  lemma {:induction false} CutShort(path: seq<Item>, k: nat, count: nat, hi: nat, pushed: seq<Msg>)
    requires Chain(path, count, hi, pushed) && count <= |pushed| && k <= |path|
    ensures Reach(path[..k], count) <= hi
  {
    ChainSplit(path, k, count, hi, pushed);
    ChainBounds(path[..k], count, Reach(path[..k], count), pushed);
    ChainBounds(path[k..], Reach(path[..k], count), hi, pushed);
  }

  lemma {:induction false} Delivered(w: World)
    requires Inv(w) && w.path != []
    ensures var v := After(w, Deliver);
            && Chain(v.log, 0, v.count, v.pushed)
            && Chain(v.path, v.count, Reach(v.path, v.count), v.pushed)
            && Reach(v.path, v.count) == Reach(w.path, w.count)
  {
    var i := w.path[0];
    assert [i][1..] == [];
    ChainConcat(w.log, [i], 0, w.count, i.num, w.pushed);
    ChainBounds(w.path[1..], i.num, Reach(w.path, w.count), w.pushed);
  }

  // ---- The theorems ----

  // In every world of every run the invariant holds: whatever is lost, buried, acked late
  // or resumed, and however often.
  lemma {:induction false} RunKeeps(ws: seq<World>, steps: seq<Step>, n: nat)
    requires Run(ws, steps) && Init(ws[0]) && n < |ws|
    ensures Inv(ws[n])
    decreases n
  {
    if n > 0 {
      RunKeeps(ws, steps, n - 1);
      hide Inv;
      assert Enabled(ws[n - 1], steps[n - 1]) && ws[n] == After(ws[n - 1], steps[n - 1]);
      StepKeeps(ws[n - 1], steps[n - 1]);
    }
  }

  // A device is never turned away: its count is always one the ring can resume from. A
  // socket with nothing left on its way has brought it to exactly what was sent.
  lemma {:induction false} NeverTurnedAway(ws: seq<World>, steps: seq<Step>, n: nat)
    requires Run(ws, steps) && Init(ws[0]) && n < |ws|
    ensures ws[n].st.CanResumeFrom(ws[n].count)
    ensures ws[n].open && ws[n].path == [] ==> ws[n].count == ws[n].st.Sent()
  {
    RunKeeps(ws, steps, n);
    var w := ws[n];
    ChainBounds(w.log, 0, w.count, w.pushed);
    ChainBounds(w.path, w.count, Reach(w.path, w.count), w.pushed);
  }

  // Every number up to the device's count was accounted for once and in order: as the very
  // frame counted under it, or inside one gap.
  lemma {:induction false} HandledOnce(ws: seq<World>, steps: seq<Step>, n: nat, i: nat)
    requires Run(ws, steps) && Init(ws[0]) && n < |ws| && i < |ws[n].log|
    ensures var w := ws[n];
            var before := if i == 0 then 0 else w.log[i - 1].num;
            && before < w.log[i].num == before + w.log[i].Counts() <= w.count <= |w.pushed|
            && (w.log[i].Real? ==> w.log[i].msg == w.pushed[w.log[i].num - 1])
            && (i == |w.log| - 1 ==> w.log[i].num == w.count)
  {
    RunKeeps(ws, steps, n);
    var w := ws[n];
    ChainBounds(w.log, 0, w.count, w.pushed);
    ChainSplit(w.log, i, 0, w.count, w.pushed);
    assert w.log[i..][0] == w.log[i];
    ChainBounds(w.log[i..][1..], w.log[i].num, w.count, w.pushed);
  }

  // A number is handed to the device as a frame at most once.
  lemma {:induction false} NoFrameTwice(ws: seq<World>, steps: seq<Step>, n: nat, i: nat, j: nat)
    requires Run(ws, steps) && Init(ws[0]) && n < |ws| && i < j < |ws[n].log|
    ensures ws[n].log[i].num < ws[n].log[j].num
    decreases j - i
  {
    HandledOnce(ws, steps, n, j);
    if i + 1 < j { NoFrameTwice(ws, steps, n, i, j - 1); }
  }

  // A stale or future ack changes nothing at all.
  lemma {:induction false} AckOutOfRange(w: World, h: nat)
    requires h < w.st.acked || h > w.st.Sent()
    ensures After(w, Ack(h)) == w
  {}

  // Deliver everything on its way.
  function Drained(w: World): World
    decreases |w.path|
  {
    if w.path == [] then w else Drained(After(w, Deliver))
  }

  // From any world of any run one resume over a path that lives long enough brings the
  // device level with the relay, whatever happened before; and the relay lets go of what the
  // device had counted and of nothing else.
  lemma {:induction false} ResumeCatchesUp(ws: seq<World>, steps: seq<Step>, n: nat)
    requires Run(ws, steps) && Init(ws[0]) && n < |ws|
    ensures Enabled(ws[n], Resume)
    ensures var v := Drained(After(ws[n], Resume));
            && v.count == v.st.Sent() == ws[n].st.Sent() && Inv(v)
            && v.st.acked == ws[n].count && v.st.slots == ws[n].st.slots[ws[n].count - ws[n].st.acked..]
  {
    hide Chain, Replay, Faithful, Run, Drained;
    NeverTurnedAway(ws, steps, n);
    RunKeeps(ws, steps, n);
    StepKeeps(ws[n], Resume);
    DrainedReaches(After(ws[n], Resume));
  }

  lemma {:induction false} DrainedReaches(w: World)
    requires Inv(w) && w.open
    ensures Inv(Drained(w)) && Drained(w).st == w.st && Drained(w).count == w.st.Sent()
    decreases |w.path|
  {
    if w.path != [] {
      StepKeeps(w, Deliver);
      DrainedReaches(After(w, Deliver));
    }
  }
}
