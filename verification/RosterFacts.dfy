// What compaction and merging do to a roster's statements, as sets: the laws of the merge
// while no ceiling binds. `id` names the base a recovery starts.
module RosterFacts {
  import opened Orders
  import opened Closures
  import opened Rosters

  datatype Facts = Facts(
    recoveries: set<Recovery>,
    admits: set<PhraseAdmit>,
    consents: set<Consent>,
    vouches: set<Vouch>,
    pendings: set<Pending>,
    legacy: set<LegacyClaim>,
    removals: set<Removal>
  )

  type Namer = Recovery -> string

  function Join(f: Facts, g: Facts): Facts {
    Facts(f.recoveries + g.recoveries, f.admits + g.admits, f.consents + g.consents, f.vouches + g.vouches,
          f.pendings + g.pendings, f.legacy + g.legacy, f.removals + g.removals)
  }

  // Every statement of `f` is one of `g`, removals aside.
  ghost predicate Within(f: Facts, g: Facts) {
    && f.recoveries <= g.recoveries && f.admits <= g.admits && f.consents <= g.consents
    && f.vouches <= g.vouches && f.pendings <= g.pendings && f.legacy <= g.legacy
  }

  // ---- The current base ----

  // The recoveries of the latest moment.
  ghost function Tip(rs: set<Recovery>): set<Recovery> {
    set x | x in rs && forall y | y in rs :: y.at <= x.at
  }

  lemma {:induction false} TipExists(rs: set<Recovery>) returns (x: Recovery)
    requires rs != {}
    ensures x in Tip(rs)
  {
    var y :| y in rs;
    if rs == {y} {
      x := y;
    } else {
      var z := TipExists(rs - {y});
      x := if y.at > z.at then y else z;
      forall o | o in rs ensures o.at <= x.at {
        assert o == y || o in rs - {y};
      }
    }
  }

  ghost predicate IsBase(b: string, rs: set<Recovery>, id: Namer) {
    if rs == {} then b == LEGACY_BASE
    else (exists x | x in Tip(rs) :: id(x) == b) && forall x | x in Tip(rs) :: b == id(x) || StrLess(b, id(x))
  }

  lemma {:induction false} LeastNamed(rs: set<Recovery>, id: Namer) returns (x: Recovery)
    requires rs != {}
    ensures x in rs && forall y | y in rs :: id(x) == id(y) || StrLess(id(x), id(y))
  {
    StrTotal();
    hide StrLess;
    var y :| y in rs;
    if rs == {y} {
      x := y;
    } else {
      var z := LeastNamed(rs - {y}, id);
      x := if StrLess(id(y), id(z)) then y else z;
      forall o | o in rs ensures id(x) == id(o) || StrLess(id(x), id(o)) {
        assert o == y || o in rs - {y};
      }
    }
  }

  lemma {:induction false} BaseExists(rs: set<Recovery>, id: Namer)
    ensures exists b :: IsBase(b, rs, id)
  {
    if rs == {} {
      assert IsBase(LEGACY_BASE, rs, id);
    } else {
      var t := TipExists(rs);
      var x := LeastNamed(Tip(rs), id);
      assert IsBase(id(x), rs, id);
    }
  }

  lemma {:induction false} BaseUnique(a: string, b: string, rs: set<Recovery>, id: Namer)
    requires IsBase(a, rs, id) && IsBase(b, rs, id)
    ensures a == b
  {
    StrTotal();
    hide StrLess;
  }

  ghost function Base(rs: set<Recovery>, id: Namer): (b: string)
    ensures IsBase(b, rs, id)
  {
    BaseExists(rs, id);
    var b :| IsBase(b, rs, id);
    b
  }

  // Two recoveries with one name are of one moment, and none is named like a legacy base:
  // what a hash without collisions gives, asked only of the recoveries at hand.
  ghost predicate Distinct(rs: set<Recovery>, id: Namer) {
    && (forall x, y | x in rs && y in rs && id(x) == id(y) :: x.at == y.at)
    && (forall x | x in rs :: id(x) != LEGACY_BASE)
  }

  // A base that is current in a part and in the whole is current in between.
  lemma {:induction false} BaseBetween(a: set<Recovery>, b: set<Recovery>, c: set<Recovery>, id: Namer)
    requires a <= b <= c && Distinct(c, id) && Base(a, id) == Base(c, id)
    ensures Base(b, id) == Base(c, id)
    ensures c != {} ==> a != {} && Tip(a) <= Tip(b) <= Tip(c)
  {
    if c != {} {
      var z :| z in Tip(c) && id(z) == Base(c, id);
      var x :| x in Tip(a) && id(x) == Base(a, id);
      assert x.at == z.at;
      assert IsBase(Base(c, id), b, id) by {
        assert x in Tip(b);
      }
      BaseUnique(Base(b, id), Base(c, id), b, id);
    }
  }

  // ---- Compaction ----

  ghost predicate Past(at: int, rs: set<Recovery>) {
    forall x | x in rs :: x.at < at
  }

  // The consent with the least signature for each device.
  ghost function Chosen(cs: set<Consent>): set<Consent> {
    set k | k in cs && forall j | j in cs && j.device == k.device :: j == k || StrLess(k.sig, j.sig)
  }

  ghost function DevicesOf(cs: set<Consent>): set<string> {
    set k | k in cs :: k.device
  }

  ghost function Filtered(f: Facts, id: Namer): Facts {
    var b := Base(f.recoveries, id);
    Facts(
      Tip(f.recoveries),
      (set p | p in f.admits && Past(p.at, f.recoveries)),
      Chosen(f.consents),
      (set v | v in f.vouches && v.base == b),
      (set p | p in f.pendings && p.base == b),
      if f.recoveries == {} then f.legacy else {},
      (set x | x in f.removals && x.base == b))
  }

  ghost function Roots(f: Facts): set<string> {
    (set x, k | x in f.recoveries && k in x.keep :: k) + (set p | p in f.admits :: p.device) +
    (set l | l in f.legacy :: l.device)
  }

  ghost function Asked(f: Facts): set<string> {
    set p | p in f.pendings :: p.device
  }

  ghost function Edges(f: Facts): set<Edge> {
    set v | v in f.vouches && v.device in DevicesOf(f.consents) :: (v.signer, v.device)
  }

  ghost function Stand(f: Facts): set<string> {
    Closure((Roots(f) + Asked(f)) * DevicesOf(f.consents), Edges(f))
  }

  ghost function ByStanding(f: Facts): Facts {
    f.(vouches := (set v | v in f.vouches && v.signer in Stand(f)),
       removals := (set x | x in f.removals && x.signer in Stand(f)))
  }

  ghost function Compact(f: Facts, id: Namer): Facts {
    ByStanding(Filtered(f, id))
  }

  ghost predicate Settled(f: Facts, id: Namer) {
    Compact(f, id) == f
  }

  // ---- Consents ----

  lemma {:induction false} ChosenExists(cs: set<Consent>, d: string) returns (k: Consent)
    requires d in DevicesOf(cs)
    ensures k in Chosen(cs) && k.device == d
  {
    StrTotal();
    hide StrLess;
    var j :| j in cs && j.device == d;
    var rest := cs - {j};
    if d in DevicesOf(rest) {
      var i := ChosenExists(rest, d);
      k := if StrLess(j.sig, i.sig) then j else i;
      assert j.sig != i.sig;
      forall o | o in cs && o.device == d ensures o == k || StrLess(k.sig, o.sig) {
        assert o == j || o in rest;
      }
    } else {
      k := j;
      forall o | o in cs && o.device == d ensures o == k {
        assert o == j || o in rest;
      }
    }
  }

  lemma {:induction false} ChosenDevices(cs: set<Consent>)
    ensures DevicesOf(Chosen(cs)) == DevicesOf(cs)
  {
    forall d | d in DevicesOf(cs) ensures d in DevicesOf(Chosen(cs)) {
      var k := ChosenExists(cs, d);
    }
  }

  // Choosing early changes nothing.
  lemma {:induction false} ChosenAbsorbs(a: set<Consent>, b: set<Consent>)
    ensures Chosen(Chosen(a) + b) == Chosen(a + b)
  {
    StrTotal();
    forall k | k in Chosen(Chosen(a) + b) ensures k in Chosen(a + b) {
      forall j | j in a + b && j.device == k.device ensures j == k || StrLess(k.sig, j.sig) {
        if j in a && j !in Chosen(a) {
          assert j.device in DevicesOf(a);
          var i := ChosenExists(a, j.device);
          assert i == j || StrLess(i.sig, j.sig);
        }
      }
    }
  }

  // ---- The laws ----

  // A compacted roster's facts stay so.
  lemma {:induction false} CompactSettles(f: Facts, id: Namer)
    ensures Settled(Compact(f, id), id)
  {
    var g := Filtered(f, id);
    var r := ByStanding(g);
    FilteredTwice(f, id);
    assert Filtered(r, id) == r by {
      assert r.vouches <= g.vouches && r.removals <= g.removals;
    }
    StandKept(g);
  }

  lemma {:induction false} FilteredTwice(f: Facts, id: Namer)
    ensures var g := Filtered(f, id);
            && Tip(g.recoveries) == g.recoveries && Base(g.recoveries, id) == Base(f.recoveries, id)
            && Chosen(g.consents) == g.consents
            && (g.recoveries == {} <==> f.recoveries == {})
            && (forall p | p in g.admits :: Past(p.at, g.recoveries))
  {
    var g := Filtered(f, id);
    if f.recoveries != {} { var x := TipExists(f.recoveries); }
    assert Tip(g.recoveries) == g.recoveries;
    BaseUnique(Base(g.recoveries, id), Base(f.recoveries, id), g.recoveries, id);
    ChosenAbsorbs(f.consents, {});
    assert Chosen(f.consents) + {} == Chosen(f.consents) && f.consents + {} == f.consents;
  }

  // Dropping the vouches of devices that do not stand changes nobody's standing.
  lemma {:induction false} StandKept(g: Facts)
    ensures Stand(ByStanding(g)) == Stand(g)
  {
    var seeds := (Roots(g) + Asked(g)) * DevicesOf(g.consents);
    var r := ByStanding(g);
    assert Roots(r) == Roots(g) && Asked(r) == Asked(g);
    forall e | e in Edges(g) && e.0 in Closure(seeds, Edges(g)) ensures e in Edges(r) {
      var v :| v in g.vouches && v.device in DevicesOf(g.consents) && (v.signer, v.device) == e;
      assert v in r.vouches;
    }
    ClosureFewer(seeds, Edges(g), Edges(r));
  }

  // What a part that is nothing but its own base's statements holds, any whole with the
  // same base holds too.
  lemma {:induction false} PartsGrow(f: Facts, g: Facts, id: Namer)
    requires Filtered(f, id) == f && Within(f, g) && Distinct(g.recoveries, id)
    requires Base(f.recoveries, id) == Base(g.recoveries, id)
    ensures var h := Filtered(g, id);
            && Within(f.(consents := {}), h.(consents := {})) && DevicesOf(f.consents) <= DevicesOf(h.consents)
            && f.recoveries <= Tip(g.recoveries)
  {
    var h := Filtered(g, id);
    BaseBetween(f.recoveries, f.recoveries, g.recoveries, id);
    assert f.recoveries <= h.recoveries;
    assert (g.recoveries == {}) == (f.recoveries == {});
    assert f.admits <= h.admits by {
      forall p | p in f.admits ensures Past(p.at, g.recoveries) {
        assert p in Filtered(f, id).admits;
        if g.recoveries != {} {
          var x :| x in f.recoveries;
          assert x.at < p.at && x in Tip(g.recoveries);
        }
      }
    }
    assert f.legacy <= h.legacy;
    assert f.vouches <= h.vouches && f.pendings <= h.pendings;
    ChosenDevices(g.consents);
    assert DevicesOf(f.consents) <= DevicesOf(h.consents);
  }

  // What stands in a settled part stands in any whole with the same base.
  lemma {:induction false} StandGrows(f: Facts, g: Facts, id: Namer)
    requires Settled(f, id) && Within(f, g) && Distinct(g.recoveries, id)
    requires Base(f.recoveries, id) == Base(g.recoveries, id)
    ensures Stand(f) <= Stand(Filtered(g, id))
    ensures f.recoveries <= Tip(g.recoveries)
  {
    SettledParts(f, id);
    PartsGrow(f, g, id);
    RootsGrow(f, Filtered(g, id));
  }

  lemma {:induction false} SettledParts(f: Facts, id: Namer)
    requires Settled(f, id)
    ensures Tip(f.recoveries) == f.recoveries && Chosen(f.consents) == f.consents
    ensures forall p | p in f.admits :: Past(p.at, f.recoveries)
    ensures f.recoveries != {} ==> f.legacy == {}
    ensures forall v | v in f.vouches :: v.base == Base(f.recoveries, id) && v.signer in Stand(Filtered(f, id))
    ensures forall x | x in f.removals :: x.base == Base(f.recoveries, id) && x.signer in Stand(Filtered(f, id))
    ensures forall p | p in f.pendings :: p.base == Base(f.recoveries, id)
    ensures Filtered(f, id).vouches == f.vouches && Filtered(f, id) == f
  {
    var g := Filtered(f, id);
    assert f.vouches <= g.vouches <= f.vouches && f.removals <= g.removals <= f.removals;
  }

  lemma {:induction false} RootsGrow(f: Facts, h: Facts)
    requires Within(f.(consents := {}), h.(consents := {})) && DevicesOf(f.consents) <= DevicesOf(h.consents)
    ensures Stand(f) <= Stand(h)
  {
    assert Roots(f) <= Roots(h) && Asked(f) <= Asked(h);
    assert Edges(f) <= Edges(h);
    ClosureMonotone((Roots(f) + Asked(f)) * DevicesOf(f.consents), (Roots(h) + Asked(h)) * DevicesOf(h.consents),
                    Edges(f), Edges(h));
  }

  // Merging settled rosters drops exactly what the winning base supersedes: no vouch or
  // removal of that base is lost for want of standing.
  lemma {:induction false} WinnersSurvive(f: Facts, g: Facts, id: Namer)
    requires Settled(f, id) && Settled(g, id) && Distinct(f.recoveries + g.recoveries, id)
    ensures Compact(Join(f, g), id) == Filtered(Join(f, g), id)
  {
    var u := Join(f, g);
    var h := Filtered(u, id);
    forall p | p == f || p == g
      ensures forall v | v in p.vouches && v in h.vouches :: v.signer in Stand(h)
      ensures forall x | x in p.removals && x in h.removals :: x.signer in Stand(h)
    {
      SettledParts(p, id);
      if Base(p.recoveries, id) == Base(u.recoveries, id) { StandGrows(p, u, id); }
    }
    assert h.vouches == ByStanding(h).vouches && h.removals == ByStanding(h).removals;
  }

  // What the last base keeps, every earlier merge kept.
  lemma {:induction false} WinnersKept(f: Facts, g: Facts, h: Facts, id: Namer)
    requires Settled(f, id) && Settled(g, id) && Distinct(f.recoveries + g.recoveries + h.recoveries, id)
    ensures var x := Join(f, g);
            var e, b := Filtered(x, id), Base(x.recoveries + h.recoveries, id);
            && (forall v | v in x.vouches && v.base == b :: v in e.vouches)
            && (forall a | a in x.pendings && a.base == b :: a in e.pendings)
            && (forall r | r in x.removals && r.base == b :: r in e.removals)
  {
    var x := Join(f, g);
    var e, b := Filtered(x, id), Base(x.recoveries + h.recoveries, id);
    forall p | p == f || p == g
      ensures forall v | v in p.vouches && v.base == b :: v in e.vouches
      ensures forall a | a in p.pendings && a.base == b :: a in e.pendings
      ensures forall r | r in p.removals && r.base == b :: r in e.removals
    {
      SettledParts(p, id);
      if Base(p.recoveries, id) == b {
        BaseBetween(p.recoveries, x.recoveries, x.recoveries + h.recoveries, id);
      }
    }
  }

  // Compacting early changes nothing a later merge keeps.
  lemma {:induction false} FilteredAbsorbs(f: Facts, g: Facts, h: Facts, id: Namer)
    requires Settled(f, id) && Settled(g, id) && Distinct(f.recoveries + g.recoveries + h.recoveries, id)
    ensures Filtered(Join(Filtered(Join(f, g), id), h), id) == Filtered(Join(Join(f, g), h), id)
  {
    hide Settled, Distinct;
    var x := Join(f, g);
    var e := Filtered(x, id);
    var w, u := Join(e, h), Join(x, h);
    TipAbsorbs(x.recoveries, h.recoveries);
    SameTip(w.recoveries, u.recoveries, id);
    hide IsBase, Tip;
    ChosenAbsorbs(x.consents, h.consents);
    WinnersKept(f, g, h, id);
    hide Chosen;
    var fw, fu := Filtered(w, id), Filtered(u, id);
    assert fw.vouches == fu.vouches;
    assert fw.pendings == fu.pendings;
    assert fw.removals == fu.removals;
    assert fw.admits == fu.admits;
    assert fw.legacy == fu.legacy;
  }

  lemma {:induction false} SameTip(a: set<Recovery>, b: set<Recovery>, id: Namer)
    requires Tip(a) == Tip(b) && (a == {} <==> b == {})
    ensures Base(a, id) == Base(b, id)
  {
    BaseUnique(Base(a, id), Base(b, id), b, id);
  }

  lemma {:induction false} TipAbsorbs(a: set<Recovery>, b: set<Recovery>)
    ensures Tip(Tip(a) + b) == Tip(a + b)
    ensures forall at :: Past(at, Tip(a) + b) <==> Past(at, a + b)
    ensures Tip(a) + b == {} <==> a + b == {}
    ensures forall p: PhraseAdmit | Past(p.at, a + b) :: Past(p.at, a)
  {
    if a != {} {
      var t := TipExists(a);
      assert forall x | x in a :: x.at <= t.at;
    }
  }

  lemma {:induction false} JoinLaws(f: Facts, g: Facts, h: Facts)
    ensures Join(f, g) == Join(g, f)
    ensures Join(Join(f, g), h) == Join(Join(g, h), f)
    ensures Join(f, f) == f
  {
    assert Join(Join(f, g), h) == Join(Join(g, h), f);
  }

  // The merge is associative.
  lemma {:induction false} CompactAssociates(f: Facts, g: Facts, h: Facts, id: Namer)
    requires Settled(f, id) && Settled(g, id) && Settled(h, id)
    requires Distinct(f.recoveries + g.recoveries + h.recoveries, id)
    ensures Compact(Join(Compact(Join(f, g), id), h), id) == Compact(Join(f, Compact(Join(g, h), id)), id)
  {
    assert f.recoveries + g.recoveries + h.recoveries == g.recoveries + h.recoveries + f.recoveries;
    hide Settled, Filtered, Compact;
    CompactJoined(f, g, h, id);
    CompactJoined(g, h, f, id);
    JoinLaws(f, g, h);
    JoinLaws(f, Compact(Join(g, h), id), h);
  }

  lemma {:induction false} CompactJoined(f: Facts, g: Facts, h: Facts, id: Namer)
    requires Settled(f, id) && Settled(g, id) && Distinct(f.recoveries + g.recoveries + h.recoveries, id)
    ensures Compact(Join(Compact(Join(f, g), id), h), id) == Compact(Join(Join(f, g), h), id)
  {
    hide Settled, Filtered;
    WinnersSurvive(f, g, id);
    FilteredAbsorbs(f, g, h, id);
  }
}
