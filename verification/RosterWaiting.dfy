// How long an ask has waited (relay-uws/src/roster_book.h): from the showing that first brought
// it, for as long as it is held, and anew in a new base.
module RosterWaiting {
  import opened Base
  import opened Rosters
  import opened RosterFold
  import opened RosterFirstSight
  import opened RosterVerify
  import opened RosterReading
  import opened RosterBooks

  // The record of `master` after the first `n` of the showings made to a relay that had none.
  ghost function RecordAfter(master: string, shows: seq<(Roster, int)>, n: nat, c: Crypto): Record
    requires n <= |shows|
  {
    AfterShowings(Fresh(master), shows[..n], c)
  }

  ghost predicate Run(master: string, shows: seq<(Roster, int)>) {
    forall i | 0 <= i < |shows| :: shows[i].0.master == master && shows[i].1 < INT64_MAX
  }

  // An ask of `p`'s device in its base.
  ghost predicate SameAsk(p: Pending, q: Pending) {
    p.base + "|" + p.device == q.base + "|" + q.device
  }

  // Showing `i` brought the ask: it is held since, up to showing `j`, and was not before.
  ghost predicate BroughtAt(master: string, shows: seq<(Roster, int)>, c: Crypto, p: Pending, i: nat, j: nat)
    requires i < j <= |shows|
  {
    && (forall q | q in RecordAfter(master, shows, i, c).roster.pendings :: !SameAsk(p, q))
    && forall n | i < n <= j :: exists q | q in RecordAfter(master, shows, n, c).roster.pendings :: SameAsk(p, q)
  }

  lemma {:induction false} NextRecord(master: string, shows: seq<(Roster, int)>, n: nat, c: Crypto)
    requires n < |shows|
    ensures RecordAfter(master, shows, n + 1, c) == Shown(RecordAfter(master, shows, n, c), shows[n].0, shows[n].1, c)
  {
    hide Shown;
    assert shows[..n + 1][..n] == shows[..n];
  }

  lemma {:induction false} SightKept(h: Record, shown: Roster, now: int, c: Crypto, q: Pending)
    requires q in Shown(h, shown, now, c).roster.pendings
    ensures var k := q.base + "|" + q.device;
            var seen := Shown(h, shown, now, c).seen;
            k in seen && seen[k] == if k in h.seen then h.seen[k] else now
  {
    hide Verified, MergedByFirstSight;
    assert SeenKey(q.base, q.device) == q.base + "|" + q.device;
  }

  // Then the relay's clock for it stands at that showing's moment.
  lemma {:induction false} SeenSince(master: string, shows: seq<(Roster, int)>, c: Crypto, p: Pending, i: nat, j: nat)
    requires NoEmptyKey(c) && Run(master, shows) && i < j <= |shows| && BroughtAt(master, shows, c, p, i, j)
    ensures var k, seen := p.base + "|" + p.device, RecordAfter(master, shows, j, c).seen;
            k in seen && seen[k] == shows[i].1
    decreases j
  {
    hide Shown, RecordAfter, AfterShowings, NoEmptyKey;
    var h := RecordAfter(master, shows, j - 1, c);
    NextRecord(master, shows, j - 1, c);
    var q :| q in RecordAfter(master, shows, j, c).roster.pendings && SameAsk(p, q);
    SightKept(h, shows[j - 1].0, shows[j - 1].1, c, q);
    if i < j - 1 {
      SeenSince(master, shows, c, p, i, j - 1);
    } else {
      NotSeen(master, shows, c, p, i);
    }
  }

  lemma {:induction false} NotSeen(master: string, shows: seq<(Roster, int)>, c: Crypto, p: Pending, i: nat)
    requires NoEmptyKey(c) && Run(master, shows) && i <= |shows|
    requires forall q | q in RecordAfter(master, shows, i, c).roster.pendings :: !SameAsk(p, q)
    ensures p.base + "|" + p.device !in RecordAfter(master, shows, i, c).seen
  {
    RunSound(master, shows[..i], c);
    hide AfterShowings, NoEmptyKey;
    var h := RecordAfter(master, shows, i, c);
    assert Clocked(h.roster, h.seen);
    assert forall q | q in h.roster.pendings :: SeenKey(q.base, q.device) != p.base + "|" + p.device;
  }

  // Seven days after the showing that brought it, an ask no removal names owns the inbox: the
  // relay's own clock counts, whatever else was shown meanwhile.
  lemma {:induction false} AskOwns(master: string, shows: seq<(Roster, int)>, c: Crypto, p: Pending, i: nat, j: nat,
                                   now: int)
    requires NoEmptyKey(c) && Run(master, shows) && i < j <= |shows| && BroughtAt(master, shows, c, p, i, j)
    requires var r := RecordAfter(master, shows, j, c).roster;
             && p in r.pendings && Consenting(r, p.device) && Unnamed(r, p.base, p.device) && !Impatient(r)
    requires shows[i].1 + 604_800_000 <= now
    ensures p.device in Members(SightOf(RecordAfter(master, shows, j, c), now, c))
  {
    var h := RecordAfter(master, shows, j, c);
    SeenSince(master, shows, c, p, i, j);
    RunSound(master, shows[..j], c);
    hide AfterShowings, NoEmptyKey, BroughtAt, Run, Members, Impatient, Unnamed, RecordAfter;
    var base := BaseOf(h.roster, c);
    assert p.base == base;
    hide BaseOf;
    assert RosterReading.Asks(h.roster, base, p.device);
    AsksIs(h.roster, c, p.device);
    var o := SightOf(h, now, c);
    assert SeenKey(base, p.device) == p.base + "|" + p.device;
    assert p.device in o.seen && o.seen[p.device] == shows[i].1;
    Matures(o, base, p.device);
  }

  // A showing that changes the base starts every clock anew.
  lemma {:induction false} NewBaseRestarts(h: Record, shown: Roster, now: int, c: Crypto, d: string)
    requires Sound(h, shown.master, c)
    requires var s := Shown(h, shown, now, c);
             && BaseOf(s.roster, c) != BaseOf(h.roster, c)
             && Free(BaseOf(s.roster, c), '|') && Free(BaseOf(h.roster, c), '|')
    ensures var s := Shown(h, shown, now, c);
            d in ClockOf(s, c) ==> ClockOf(s, c)[d] == now
  {
    var s := Shown(h, shown, now, c);
    var base := BaseOf(s.roster, c);
    if d in ClockOf(s, c) {
      var k := SeenKey(base, d);
      assert s.seen == Sightings(s.roster.pendings, h.seen, now);
      hide Shown, BaseOf, P.Kept, Genuine;
      if k in h.seen {
        var q :| q in h.roster.pendings && SeenKey(q.base, q.device) == k;
        SplitSame(q.base, q.device, base, d, '|');
      }
    }
  }
}
