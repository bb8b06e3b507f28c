// relay-uws/src/roster.h, fold: an identity's members, removed and pending devices, as
// least fixed points and as the loops that compute them.
module RosterFold {
  import opened Base
  import opened Orders
  import opened Closures
  import opened Rosters

  const PENDING_MATURITY_MS: int := 7 * 24 * 60 * 60 * 1000

  // When the observer first saw each device's pending join.
  type Clock = map<string, int>

  // A roster as one observer reads it at one moment.
  datatype Sight = Sight(roster: Roster, seen: Clock, now: int, crypto: Crypto)

  datatype State = State(
    base: string,
    isProtected: bool,
    noWait: bool,
    members: set<string>,
    removed: map<string, string>,
    pending: set<string>
  )

  // ---- What the fold means ----

  function ConsentedRoots(r: Roster, c: Crypto): set<string> {
    BaseRoots(r, c) * Consented(r)
  }

  // The vouches of the current base for devices that consented.
  function CurrentVouches(r: Roster, c: Crypto): seq<Vouch> {
    var base, cons := BaseOf(r, c), Consented(r);
    Filter(r.vouches, (v: Vouch) => v.base == base && v.device in cons)
  }

  ghost function EdgesOf(vs: seq<Vouch>): set<Edge> {
    set v | v in vs :: (v.signer, v.device)
  }

  ghost function Links(r: Roster, c: Crypto): set<Edge> {
    EdgesOf(CurrentVouches(r, c))
  }

  // The consenting devices that ask to join the current base.
  function Asking(r: Roster, c: Crypto): set<string> {
    set p | p in r.pendings && p.base == BaseOf(r, c) && p.device in Consented(r) :: p.device
  }

  function NoWait(r: Roster, c: Crypto): bool {
    var cur := CurrentRecovery(r, c);
    cur.Some? && cur.value.noWait
  }

  // The devices that belong without anyone waiting.
  ghost function Founded(r: Roster, c: Crypto): set<string> {
    Closure(ConsentedRoots(r, c), Links(r, c))
  }

  // What founded devices removed: a join they refused never matures.
  ghost function Refused(r: Roster, c: Crypto): set<string> {
    set x | x in r.removals && x.base == BaseOf(r, c) && x.signer in Founded(r, c) :: x.device
  }

  predicate Waited(seen: Clock, now: int, d: string) {
    d in seen && seen[d] <= now - PENDING_MATURITY_MS
  }

  // The asks that waited their seven days unrefused.
  ghost function Matured(o: Sight): set<string> {
    set d | d in Asking(o.roster, o.crypto) && !NoWait(o.roster, o.crypto) && d !in Refused(o.roster, o.crypto) &&
            Waited(o.seen, o.now, d)
  }

  ghost function Seeds(o: Sight): set<string> {
    ConsentedRoots(o.roster, o.crypto) + Matured(o)
  }

  ghost function Rooted(o: Sight): set<string> {
    Closure(Seeds(o), Links(o.roster, o.crypto))
  }

  // A removal counts when a rooted device made it of a device that is rooted or asks.
  predicate Effective(x: Removal, base: string, rooted: set<string>, asked: set<string>) {
    x.base == base && x.signer in rooted && (x.device in rooted || x.device in asked)
  }

  ghost function Removals(o: Sight): set<Removal> {
    set x | x in o.roster.removals &&
            Effective(x, BaseOf(o.roster, o.crypto), Rooted(o), Asking(o.roster, o.crypto))
  }

  ghost function RemovedDevices(o: Sight): set<string> {
    set x | x in Removals(o) :: x.device
  }

  // The vouches that still count: those every removal of the voucher keeps.
  ghost function LiveLinks(o: Sight): set<Edge> {
    set e | e in Links(o.roster, o.crypto) && forall x | x in Removals(o) && x.device == e.0 :: e.1 in x.keepVouched
  }

  ghost function Valid(o: Sight): set<string> {
    Closure(Seeds(o), LiveLinks(o))
  }

  ghost function Members(o: Sight): set<string> {
    Valid(o) - RemovedDevices(o)
  }

  // ---- The loops ----

  // Whether a vouch counts, given what is kept of each removed device's vouches.
  predicate Counts(v: Vouch, keptBy: map<string, set<string>>) {
    v.signer in keptBy ==> v.device in keptBy[v.signer]
  }

  ghost function Counted(vs: seq<Vouch>, keptBy: map<string, set<string>>): set<Edge> {
    set v | v in vs && Counts(v, keptBy) :: (v.signer, v.device)
  }

  // Passes over the vouches until one adds nobody.
  method VouchClosure(vs: seq<Vouch>, seed: set<string>, keptBy: map<string, set<string>>) returns (out: set<string>)
    ensures out == Closure(seed, Counted(vs, keptBy))
  {
    ghost var edges := Counted(vs, keptBy);
    ClosureIs(seed, edges);
    hide Closure;
    out := seed;
    while true
      invariant seed <= out <= Closure(seed, edges)
      decreases Closure(seed, edges) - out
    {
      var before := out;
      for i := 0 to |vs|
        invariant before <= out <= Closure(seed, edges)
        invariant forall j | 0 <= j < i && Counts(vs[j], keptBy) && vs[j].signer in before :: vs[j].device in out
      {
        var v := vs[i];
        if v.signer in out && Counts(v, keptBy) {
          assert (v.signer, v.device) in edges;
          out := out + {v.device};
        }
      }
      if |out| == |before| {
        SubsetSame(before, out);
        assert Closed(out, edges);
        return;
      }
      ghost var d := NewOne(before, out);
      assert d in Closure(seed, edges) - before && d !in Closure(seed, edges) - out;
    }
  }

  lemma {:induction false} NewOne<T>(a: set<T>, b: set<T>) returns (d: T)
    requires a <= b && |a| != |b|
    ensures d in b && d !in a
  {
    assert b == a + (b - a);
    assert |b - a| > 0;
    d :| d in b - a;
  }

  lemma {:induction false} SubsetSame<T>(a: set<T>, b: set<T>)
    requires a <= b && |a| == |b|
    ensures a == b
  {
    assert b == a + (b - a);
  }

  ghost predicate RemovedIn(xs: seq<Removal>, d: string, base: string, rooted: set<string>, asked: set<string>) {
    exists x | x in xs :: Effective(x, base, rooted, asked) && x.device == d
  }

  // Every removal of `v` keeps its vouch for `d`.
  ghost predicate KeptIn(xs: seq<Removal>, v: string, d: string, base: string, rooted: set<string>,
                         asked: set<string>) {
    forall x | x in xs && Effective(x, base, rooted, asked) && x.device == v :: d in x.keepVouched
  }

  // `by` made the first removal of `d` in the list.
  ghost predicate FirstIn(xs: seq<Removal>, d: string, signer: string, base: string, rooted: set<string>,
                          asked: set<string>) {
    exists i | 0 <= i < |xs| ::
      && xs[i].device == d && xs[i].signer == signer && Effective(xs[i], base, rooted, asked)
      && !RemovedIn(xs[..i], d, base, rooted, asked)
  }

  // `removed` names each removed device's first remover, and `keptBy` what all its
  // removals keep.
  ghost predicate Read(xs: seq<Removal>, removed: map<string, string>, keptBy: map<string, set<string>>, base: string,
                       rooted: set<string>, asked: set<string>)
  {
    && removed.Keys == keptBy.Keys
    && (forall d :: d in removed <==> RemovedIn(xs, d, base, rooted, asked))
    && (forall d | d in removed :: FirstIn(xs, d, removed[d], base, rooted, asked))
    && (forall v, d | v in keptBy :: d in keptBy[v] <==> KeptIn(xs, v, d, base, rooted, asked))
  }

  method ReadRemovals(xs: seq<Removal>, base: string, rooted: set<string>, asked: set<string>)
    returns (removed: map<string, string>, keptBy: map<string, set<string>>)
    ensures Read(xs, removed, keptBy, base, rooted, asked)
  {
    removed, keptBy := map[], map[];
    for i := 0 to |xs|
      invariant Read(xs[..i], removed, keptBy, base, rooted, asked)
    {
      var x := xs[i];
      assert xs[..i + 1] == xs[..i] + [x];
      ReadOne(xs[..i], x, removed, keptBy, base, rooted, asked);
      hide Read;
      if Effective(x, base, rooted, asked) {
        if x.device !in removed { removed := removed[x.device := x.signer]; }
        var keep := set k | k in x.keepVouched;
        keptBy := keptBy[x.device := if x.device in keptBy then keptBy[x.device] * keep else keep];
      }
    }
    assert xs[..|xs|] == xs;
  }

  lemma {:induction false} ReadOne(xs: seq<Removal>, x: Removal, removed: map<string, string>,
                                   keptBy: map<string, set<string>>, base: string, rooted: set<string>,
                                   asked: set<string>)
    requires Read(xs, removed, keptBy, base, rooted, asked)
    ensures !Effective(x, base, rooted, asked) ==> Read(xs + [x], removed, keptBy, base, rooted, asked)
    ensures Effective(x, base, rooted, asked) ==>
              var keep := set k | k in x.keepVouched;
              Read(xs + [x], if x.device in removed then removed else removed[x.device := x.signer],
                   keptBy[x.device := if x.device in keptBy then keptBy[x.device] * keep else keep],
                   base, rooted, asked)
  {
    OneMore(xs, x, base, rooted, asked);
    hide RemovedIn, KeptIn, FirstIn, Effective;
  }

  lemma {:induction false} OneMore(xs: seq<Removal>, x: Removal, base: string, rooted: set<string>, asked: set<string>)
    ensures forall d :: RemovedIn(xs + [x], d, base, rooted, asked) <==>
                        RemovedIn(xs, d, base, rooted, asked) || (Effective(x, base, rooted, asked) && x.device == d)
    ensures forall d, s | FirstIn(xs, d, s, base, rooted, asked) :: FirstIn(xs + [x], d, s, base, rooted, asked)
    ensures Effective(x, base, rooted, asked) && !RemovedIn(xs, x.device, base, rooted, asked) ==>
              FirstIn(xs + [x], x.device, x.signer, base, rooted, asked)
    ensures forall v, d :: KeptIn(xs + [x], v, d, base, rooted, asked) <==>
                           KeptIn(xs, v, d, base, rooted, asked) &&
                           (Effective(x, base, rooted, asked) && x.device == v ==> d in x.keepVouched)
    ensures forall v, d | !RemovedIn(xs, v, base, rooted, asked) :: KeptIn(xs, v, d, base, rooted, asked)
  {
    var ys := xs + [x];
    forall d, s | FirstIn(xs, d, s, base, rooted, asked) ensures FirstIn(ys, d, s, base, rooted, asked) {
      var i :| 0 <= i < |xs| && xs[i].device == d && xs[i].signer == s && Effective(xs[i], base, rooted, asked)
               && !RemovedIn(xs[..i], d, base, rooted, asked);
      assert ys[i] == xs[i] && ys[..i] == xs[..i];
    }
    assert ys[|xs|] == x && ys[..|xs|] == xs;
  }

  // The whole state a fold reports.
  ghost predicate Judged(s: State, o: Sight) {
    && s.base == BaseOf(o.roster, o.crypto) && s.noWait == NoWait(o.roster, o.crypto)
    && (s.isProtected <==> o.roster.recoveries != [])
    && s.members == Members(o) && s.removed.Keys == RemovedDevices(o)
    && (forall d | d in s.removed ::
          FirstIn(o.roster.removals, d, s.removed[d], s.base, Rooted(o), Asking(o.roster, o.crypto)))
    && s.pending == Asking(o.roster, o.crypto) - Valid(o) - RemovedDevices(o)
  }

  // The fold is the least fixed point it is meant to be.
  method Fold(o: Sight) returns (s: State)
    ensures Judged(s, o)
  {
    hide Closure, ConsentedRoots, CurrentVouches, Asking, BaseOf, NoWait, Counted, EdgesOf, RemovedIn, FirstIn, KeptIn,
         LiveLinks, RemovedDevices, CurrentRecovery, Waited, Judged;
    var r, c := o.roster, o.crypto;
    var base, noWait := BaseOf(r, c), NoWait(r, c);
    var roots, vs, asked := ConsentedRoots(r, c), CurrentVouches(r, c), Asking(r, c);
    PlainCounts(vs);
    var founded := VouchClosure(vs, roots, map[]);
    var refused := set x | x in r.removals && x.base == base && x.signer in founded :: x.device;
    var matured := set d | d in asked && !noWait && d !in refused && Waited(o.seen, o.now, d);
    assert matured == Matured(o);
    var rooted := VouchClosure(vs, roots + matured, map[]);
    assert rooted == Rooted(o);
    var removed, keptBy := ReadRemovals(r.removals, base, rooted, asked);
    var valid := VouchClosure(vs, roots + matured, keptBy);
    LiveCounts(o, vs, keptBy);
    RemovedAre(o, removed);
    assert valid == Valid(o);
    s := State(base, CurrentRecovery(r, c).Some?, noWait, valid - removed.Keys, removed, asked - valid - removed.Keys);
    JudgedSo(o, s);
  }

  lemma {:induction false} JudgedSo(o: Sight, s: State)
    requires s.base == BaseOf(o.roster, o.crypto) && s.noWait == NoWait(o.roster, o.crypto)
    requires s.isProtected == CurrentRecovery(o.roster, o.crypto).Some?
    requires s.removed.Keys == RemovedDevices(o) && s.members == Valid(o) - s.removed.Keys
    requires forall d | d in s.removed ::
               FirstIn(o.roster.removals, d, s.removed[d], s.base, Rooted(o), Asking(o.roster, o.crypto))
    requires s.pending == Asking(o.roster, o.crypto) - Valid(o) - s.removed.Keys
    ensures Judged(s, o)
  {
    hide BaseOf, NoWait, RemovedDevices, Valid, FirstIn, Rooted, Asking;
  }

  lemma {:induction false} PlainCounts(vs: seq<Vouch>)
    ensures Counted(vs, map[]) == EdgesOf(vs)
  {}

  lemma {:induction false} RemovedAre(o: Sight, removed: map<string, string>)
    requires forall d :: d in removed <==>
               RemovedIn(o.roster.removals, d, BaseOf(o.roster, o.crypto), Rooted(o), Asking(o.roster, o.crypto))
    ensures removed.Keys == RemovedDevices(o)
  {
    hide BaseOf, Rooted, Asking;
  }

  lemma {:induction false} LiveCounts(o: Sight, vs: seq<Vouch>, keptBy: map<string, set<string>>)
    requires vs == CurrentVouches(o.roster, o.crypto)
    requires forall d :: d in keptBy <==>
               RemovedIn(o.roster.removals, d, BaseOf(o.roster, o.crypto), Rooted(o), Asking(o.roster, o.crypto))
    requires forall v, d | v in keptBy ::
               d in keptBy[v] <==> KeptIn(o.roster.removals, v, d, BaseOf(o.roster, o.crypto), Rooted(o),
                                          Asking(o.roster, o.crypto))
    ensures Counted(vs, keptBy) == LiveLinks(o)
  {
    hide BaseOf, Rooted, Asking, CurrentVouches;
    forall v | v in vs
      ensures Counts(v, keptBy) <==> forall x | x in Removals(o) && x.device == v.signer :: v.device in x.keepVouched
    {
      assert v.signer !in keptBy ==> forall x | x in Removals(o) :: x.device != v.signer;
    }
  }
}
