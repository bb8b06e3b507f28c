// What a fold reports (relay-uws/src/roster.h, fold), read off the statements themselves:
// chains of vouches, claims, asks and removals, with no set computed on the way.
module RosterReading {
  import opened Base
  import opened Orders
  import opened Closures
  import opened Rosters
  import opened RosterFacts
  import opened RosterLists
  import opened RosterFold
  import opened RosterRanking
  import opened RosterPermanence

  // ---- The reading ----

  ghost predicate Consenting(r: Roster, d: string) {
    exists k | k in r.consents :: k.device == d
  }

  ghost predicate Newest(r: Roster, x: Recovery) {
    x in r.recoveries && forall y | y in r.recoveries :: y.at <= x.at
  }

  // The first 32 digits of the hash of a recovery's payload.
  ghost function NameOf(r: Roster, x: Recovery, c: Crypto): string {
    var h := c.sha256Hex(RecoveryMsg(r.master, r.rPub, x.at, SortedIds(x.keep), x.noWait));
    if |h| <= 32 then h else h[..32]
  }

  // The base is the least name a newest recovery has, or the legacy one.
  ghost predicate Names(r: Roster, c: Crypto, base: string) {
    if r.recoveries == [] then base == "legacy"
    else
      && (exists x :: Newest(r, x) && NameOf(r, x, c) == base)
      && forall x | Newest(r, x) :: base == NameOf(r, x, c) || StrLess(base, NameOf(r, x, c))
  }

  // A newest recovery keeps `d` or the phrase admitted it after all of them; before there is
  // any recovery, the master claimed it or the phrase admitted it.
  ghost predicate Started(r: Roster, d: string) {
    if r.recoveries == [] then
      (exists l | l in r.legacy :: l.device == d) || exists p | p in r.phraseAdmits :: p.device == d
    else
      || (exists x :: Newest(r, x) && d in x.keep)
      || exists p | p in r.phraseAdmits :: p.device == d && forall y | y in r.recoveries :: y.at < p.at
  }

  ghost predicate Impatient(r: Roster) {
    exists x :: Newest(r, x) && x.noWait
  }

  ghost predicate Asks(r: Roster, base: string, d: string) {
    Consenting(r, d) && exists p | p in r.pendings :: p.base == base && p.device == d
  }

  ghost predicate VouchesFor(r: Roster, base: string, a: string, b: string) {
    Consenting(r, b) && exists v | v in r.vouches :: v.base == base && v.signer == a && v.device == b
  }

  // `p` goes from `a` to `d` by vouches.
  ghost predicate Follow(r: Roster, base: string, p: seq<string>, a: string, d: string) {
    && p != [] && p[0] == a && p[|p| - 1] == d
    && forall i | 0 <= i < |p| - 1 :: VouchesFor(r, base, p[i], p[i + 1])
  }

  // Vouches lead to `d` from a consenting device the base starts from.
  ghost predicate Belongs(r: Roster, base: string, d: string) {
    exists p, a :: Follow(r, base, p, a, d) && Consenting(r, a) && Started(r, a)
  }

  // Its ask was first seen seven days ago or longer, the base lets asks wait, and nobody who
  // belongs has removed it.
  ghost predicate Ripe(o: Sight, base: string, d: string) {
    && Asks(o.roster, base, d) && !Impatient(o.roster)
    && d in o.seen && o.seen[d] + 7 * 24 * 60 * 60 * 1000 <= o.now
    && !exists x | x in o.roster.removals :: x.base == base && x.device == d && Belongs(o.roster, base, x.signer)
  }

  ghost predicate Begins(o: Sight, base: string, d: string) {
    (Consenting(o.roster, d) && Started(o.roster, d)) || Ripe(o, base, d)
  }

  // Vouches lead to `d` from a beginning.
  ghost predicate Joins(o: Sight, base: string, d: string) {
    exists p, a :: Follow(o.roster, base, p, a, d) && Begins(o, base, a)
  }

  // A removal counts when one who joined made it of one who joined or asks.
  ghost predicate Bites(o: Sight, base: string, x: Removal) {
    x.base == base && Joins(o, base, x.signer) && (Joins(o, base, x.device) || Asks(o.roster, base, x.device))
  }

  ghost predicate Bitten(o: Sight, base: string, d: string) {
    exists x | x in o.roster.removals :: x.device == d && Bites(o, base, x)
  }

  // No removal of `a` that counts leaves out its vouch for `b`.
  ghost predicate Spared(o: Sight, base: string, a: string, b: string) {
    forall x | x in o.roster.removals && x.device == a && Bites(o, base, x) :: b in x.keepVouched
  }

  ghost predicate AllSpared(o: Sight, base: string, p: seq<string>) {
    forall i | 0 <= i < |p| - 1 :: Spared(o, base, p[i], p[i + 1])
  }

  // Vouches that removals spare lead to `d` from a beginning.
  ghost predicate Lasting(o: Sight, base: string, d: string) {
    exists p, a :: Follow(o.roster, base, p, a, d) && AllSpared(o, base, p) && Begins(o, base, a)
  }

  // `s.removed` names the maker of the first removal of `d` that counts.
  ghost predicate FirstBite(o: Sight, base: string, d: string, maker: string) {
    exists i | 0 <= i < |o.roster.removals| ::
      && o.roster.removals[i].device == d && o.roster.removals[i].signer == maker
      && Bites(o, base, o.roster.removals[i])
      && forall j | 0 <= j < i :: o.roster.removals[j].device == d ==> !Bites(o, base, o.roster.removals[j])
  }

  // ---- The fold says the same ----

  lemma {:induction false} BaseIs(r: Roster, c: Crypto)
    ensures Names(r, c, BaseOf(r, c))
  {
    CurrentBase(r, c);
    var rs := Elems(r.recoveries);
    assert forall x :: x in r.recoveries <==> x in rs;
    assert forall x :: x in Tip(rs) <==> Newest(r, x);
    assert forall x :: NamerOf(r, c)(x) == NameOf(r, x, c);
  }

  lemma {:induction false} NewestIs(r: Roster, c: Crypto)
    ensures var cur := CurrentRecovery(r, c);
            && (cur.Some? <==> r.recoveries != [])
            && (cur.Some? ==>
                  && (forall d :: d in cur.value.keep <==> exists x :: Newest(r, x) && d in x.keep)
                  && (cur.value.noWait <==> exists x :: Newest(r, x) && x.noWait)
                  && (forall p | p in r.phraseAdmits ::
                        p.at > cur.value.at <==> forall y | y in r.recoveries :: y.at < p.at))
  {
    CurrentBase(r, c);
    var rs := Elems(r.recoveries);
    assert forall x :: x in r.recoveries <==> x in rs;
    assert forall x :: x in Tip(rs) <==> Newest(r, x);
    assert forall p | p in r.phraseAdmits :: Past(p.at, rs) <==> forall y | y in r.recoveries :: y.at < p.at;
  }

  lemma {:induction false} StartedIs(r: Roster, c: Crypto, d: string)
    ensures d in BaseRoots(r, c) <==> Started(r, d)
    ensures NoWait(r, c) <==> Impatient(r)
  {
    NewestIs(r, c);
    hide CurrentRecovery;
    var cur := CurrentRecovery(r, c);
    if cur.Some? {
      assert d in BaseRoots(r, c) <==>
             d in cur.value.keep || exists p | p in r.phraseAdmits :: p.device == d && p.at > cur.value.at;
    } else {
      assert d in BaseRoots(r, c) <==>
             (exists l | l in r.legacy :: l.device == d) || exists p | p in r.phraseAdmits :: p.device == d;
    }
  }

  lemma {:induction false} LinkIs(r: Roster, c: Crypto, a: string, b: string)
    ensures (a, b) in Links(r, c) <==> VouchesFor(r, BaseOf(r, c), a, b)
  {
    LinksAre(r, c);
    hide BaseOf, CurrentVouches, EdgesOf;
  }

  // A chain of links is a chain of vouches.
  lemma {:induction false} PathIs(r: Roster, c: Crypto, p: seq<string>, a: string, d: string)
    ensures Path(p, {a}, Links(r, c), d) <==> Follow(r, BaseOf(r, c), p, a, d)
  {
    hide BaseOf, Links, VouchesFor;
    forall i | 0 <= i < |p| - 1
      ensures (p[i], p[i + 1]) in Links(r, c) <==> VouchesFor(r, BaseOf(r, c), p[i], p[i + 1])
    {
      LinkIs(r, c, p[i], p[i + 1]);
    }
  }

  // Whom vouches reach from `from`.
  lemma {:induction false} ReachedIs(r: Roster, c: Crypto, from: set<string>, d: string)
    ensures d in Closure(from, Links(r, c)) <==> exists p, a :: Follow(r, BaseOf(r, c), p, a, d) && a in from
  {
    hide BaseOf, Links, Closure, Follow;
    ClosureIsReachable(from, Links(r, c), d);
    if d in Closure(from, Links(r, c)) {
      var p :| Path(p, from, Links(r, c), d);
      PathIs(r, c, p, p[0], d);
    }
    if p, a :| Follow(r, BaseOf(r, c), p, a, d) && a in from {
      PathIs(r, c, p, a, d);
      assert Path(p, from, Links(r, c), d);
    }
  }

  lemma {:induction false} BelongsIs(r: Roster, c: Crypto, d: string)
    ensures d in Founded(r, c) <==> Belongs(r, BaseOf(r, c), d)
  {
    hide BaseOf, BaseRoots, Links, Closure, Started, Follow;
    ReachedIs(r, c, ConsentedRoots(r, c), d);
    forall a ensures a in ConsentedRoots(r, c) <==> Consenting(r, a) && Started(r, a) { StartedIs(r, c, a); }
  }

  lemma {:induction false} AsksIs(r: Roster, c: Crypto, d: string)
    ensures d in Asking(r, c) <==> Asks(r, BaseOf(r, c), d)
  {
    hide BaseOf;
  }

  lemma {:induction false} BeginsIs(o: Sight, d: string)
    ensures d in Seeds(o) <==> Begins(o, BaseOf(o.roster, o.crypto), d)
  {
    var r, c := o.roster, o.crypto;
    StartedIs(r, c, d);
    AsksIs(r, c, d);
    hide BaseOf, BaseRoots, NoWait, Started, Asking, Founded, Belongs, Impatient, Asks;
    forall x | x in r.removals ensures x.signer in Founded(r, c) <==> Belongs(r, BaseOf(r, c), x.signer) {
      BelongsIs(r, c, x.signer);
    }
  }

  lemma {:induction false} JoinsIs(o: Sight, d: string)
    ensures d in Rooted(o) <==> Joins(o, BaseOf(o.roster, o.crypto), d)
  {
    hide BaseOf, Seeds, Links, Closure, Begins, Follow;
    ReachedIs(o.roster, o.crypto, Seeds(o), d);
    forall a ensures a in Seeds(o) <==> Begins(o, BaseOf(o.roster, o.crypto), a) { BeginsIs(o, a); }
  }

  lemma {:induction false} BitesIs(o: Sight, x: Removal)
    ensures var r, c := o.roster, o.crypto;
            Effective(x, BaseOf(r, c), Rooted(o), Asking(r, c)) <==> Bites(o, BaseOf(r, c), x)
  {
    hide BaseOf, Rooted, Asking, Joins, Asks;
    JoinsIs(o, x.signer);
    JoinsIs(o, x.device);
    AsksIs(o.roster, o.crypto, x.device);
  }

  lemma {:induction false} BittenIs(o: Sight, d: string)
    ensures d in RemovedDevices(o) <==> Bitten(o, BaseOf(o.roster, o.crypto), d)
  {
    hide BaseOf, Rooted, Asking, Effective, Bites;
    forall x | x in o.roster.removals
      ensures x in Removals(o) <==> Bites(o, BaseOf(o.roster, o.crypto), x)
    {
      BitesIs(o, x);
    }
  }

  lemma {:induction false} LiveIs(o: Sight, a: string, b: string)
    ensures var base := BaseOf(o.roster, o.crypto);
            (a, b) in LiveLinks(o) <==> VouchesFor(o.roster, base, a, b) && Spared(o, base, a, b)
  {
    hide BaseOf, Rooted, Asking, Effective, Bites, Links, VouchesFor;
    LinkIs(o.roster, o.crypto, a, b);
    forall x | x in o.roster.removals
      ensures x in Removals(o) <==> Bites(o, BaseOf(o.roster, o.crypto), x)
    {
      BitesIs(o, x);
    }
  }

  lemma {:induction false} LivePathIs(o: Sight, p: seq<string>, a: string, d: string)
    ensures var base := BaseOf(o.roster, o.crypto);
            Path(p, {a}, LiveLinks(o), d) <==> Follow(o.roster, base, p, a, d) && AllSpared(o, base, p)
  {
    hide BaseOf, LiveLinks, VouchesFor, Spared;
    var base := BaseOf(o.roster, o.crypto);
    forall i | 0 <= i < |p| - 1
      ensures (p[i], p[i + 1]) in LiveLinks(o) <==>
              VouchesFor(o.roster, base, p[i], p[i + 1]) && Spared(o, base, p[i], p[i + 1])
    {
      LiveIs(o, p[i], p[i + 1]);
    }
  }

  lemma {:induction false} LastingIs(o: Sight, d: string)
    ensures d in Valid(o) <==> Lasting(o, BaseOf(o.roster, o.crypto), d)
  {
    var base := BaseOf(o.roster, o.crypto);
    hide BaseOf, Seeds, LiveLinks, Closure, Begins, Follow, AllSpared;
    ClosureIsReachable(Seeds(o), LiveLinks(o), d);
    forall a ensures a in Seeds(o) <==> Begins(o, base, a) { BeginsIs(o, a); }
    if d in Valid(o) {
      var p :| Path(p, Seeds(o), LiveLinks(o), d);
      LivePathIs(o, p, p[0], d);
      assert Begins(o, base, p[0]);
    }
    if p, a :| Follow(o.roster, base, p, a, d) && AllSpared(o, base, p) && Begins(o, base, a) {
      LivePathIs(o, p, a, d);
      assert Path(p, Seeds(o), LiveLinks(o), d);
    }
  }

  lemma {:induction false} FirstBiteIs(o: Sight, d: string, maker: string)
    ensures var r, c := o.roster, o.crypto;
            FirstIn(r.removals, d, maker, BaseOf(r, c), Rooted(o), Asking(r, c)) <==>
            FirstBite(o, BaseOf(r, c), d, maker)
  {
    hide BaseOf, Rooted, Asking, Effective, Bites;
    var r, c := o.roster, o.crypto;
    var xs := r.removals;
    forall i | 0 <= i < |xs|
      ensures Effective(xs[i], BaseOf(r, c), Rooted(o), Asking(r, c)) <==> Bites(o, BaseOf(r, c), xs[i])
    {
      BitesIs(o, xs[i]);
    }
    forall i | 0 <= i < |xs|
      ensures RemovedIn(xs[..i], d, BaseOf(r, c), Rooted(o), Asking(r, c)) <==>
              exists j | 0 <= j < i :: xs[j].device == d && Bites(o, BaseOf(r, c), xs[j])
    {
      assert forall j | 0 <= j < i :: xs[..i][j] == xs[j];
    }
  }

  // What the fold reports, whole: a member is led to by vouches that removals spare and bitten
  // by none; the removed are those bitten, each under the maker of its first; and who still
  // asks is pending.
  lemma {:induction false} FoldExactly(s: State, o: Sight)
    requires Judged(s, o)
    ensures Names(o.roster, o.crypto, s.base) && (s.noWait <==> Impatient(o.roster))
    ensures s.isProtected <==> o.roster.recoveries != []
    ensures forall d :: d in s.members <==> Lasting(o, s.base, d) && !Bitten(o, s.base, d)
    ensures forall d :: d in s.removed <==> Bitten(o, s.base, d)
    ensures forall d | d in s.removed :: FirstBite(o, s.base, d, s.removed[d])
    ensures forall d :: d in s.pending <==>
              Asks(o.roster, s.base, d) && !Lasting(o, s.base, d) && !Bitten(o, s.base, d)
  {
    hide BaseOf, Valid, RemovedDevices, Rooted, Asking, Lasting, Bitten, FirstIn, FirstBite, Asks, Names, NoWait,
         Impatient;
    BaseIs(o.roster, o.crypto);
    StartedIs(o.roster, o.crypto, "");
    forall d ensures d in Valid(o) <==> Lasting(o, s.base, d) { LastingIs(o, d); }
    forall d ensures d in RemovedDevices(o) <==> Bitten(o, s.base, d) { BittenIs(o, d); }
    forall d ensures d in Asking(o.roster, o.crypto) <==> Asks(o.roster, s.base, d) { AsksIs(o.roster, o.crypto, d); }
    forall d | d in s.removed ensures FirstBite(o, s.base, d, s.removed[d]) { FirstBiteIs(o, d, s.removed[d]); }
  }

  // ---- The seven days ----

  // No removal in `base` names `d`.
  ghost predicate Unnamed(r: Roster, base: string, d: string) {
    forall x | x in r.removals && x.base == base :: x.device != d
  }

  lemma {:induction false} Matures(o: Sight, base: string, d: string)
    requires base == BaseOf(o.roster, o.crypto)
    requires Asks(o.roster, base, d) && Unnamed(o.roster, base, d) && !Impatient(o.roster)
    requires d in o.seen && o.seen[d] + 604_800_000 <= o.now
    ensures d in Members(o)
  {
    LastingIs(o, d);
    BittenIs(o, d);
    hide BaseOf, Asks, Impatient, Joins, Belongs, Started, Valid, RemovedDevices;
    assert Ripe(o, base, d);
    assert Follow(o.roster, base, [d], d, d) && AllSpared(o, base, [d]);
  }

  // Seven days after a relay first saw it, the ask of a consenting device no removal names
  // has made it a member, if no newest recovery forbids waiting.
  lemma {:induction false} AskMatures(s: State, o: Sight, d: string)
    requires Judged(s, o) && Asks(o.roster, s.base, d) && Unnamed(o.roster, s.base, d) && !Impatient(o.roster)
    requires d in o.seen && o.seen[d] + 604_800_000 <= o.now
    ensures d in s.members
  {
    hide BaseOf, Asks, Impatient, Unnamed, Members;
    Matures(o, s.base, d);
  }

  // And nobody joins by waiting less: a member that does not belong without it is led to by
  // vouches from a consenting device that asks in this base, first seen seven days ago or
  // longer, that nobody who belongs removed.
  lemma {:induction false} MemberWaited(s: State, o: Sight, d: string) returns (a: string, p: seq<string>)
    requires Judged(s, o) && d in s.members && !Belongs(o.roster, s.base, d)
    ensures Follow(o.roster, s.base, p, a, d) && Asks(o.roster, s.base, a) && !Impatient(o.roster)
    ensures a in o.seen && o.seen[a] + 604_800_000 <= o.now
    ensures forall x | x in o.roster.removals && x.base == s.base && x.device == a ::
              !Belongs(o.roster, s.base, x.signer)
  {
    FoldExactly(s, o);
    hide Judged, Asks, Impatient, Bitten, AllSpared, Started, Follow;
    p, a :| Follow(o.roster, s.base, p, a, d) && AllSpared(o, s.base, p) && Begins(o, s.base, a);
    assert Ripe(o, s.base, a);
  }

  // A device with nothing but its ask is a member exactly from that moment on, and pending
  // until then.
  lemma {:induction false} LoneAsk(s: State, o: Sight, d: string)
    requires Judged(s, o) && Asks(o.roster, s.base, d) && Unnamed(o.roster, s.base, d) && !Started(o.roster, d)
    requires forall v | v in o.roster.vouches && v.base == s.base :: v.device != d
    ensures d in s.members <==> !Impatient(o.roster) && d in o.seen && o.seen[d] + 604_800_000 <= o.now
    ensures d in s.pending <==> d !in s.members
  {
    FoldExactly(s, o);
    hide Judged, Asks, Impatient, Started, Bites;
    if d in s.members {
      var p, a :| Follow(o.roster, s.base, p, a, d) && AllSpared(o, s.base, p) && Begins(o, s.base, a);
      assert |p| > 1 ==> VouchesFor(o.roster, s.base, p[|p| - 2], p[|p| - 2 + 1]);
      assert Ripe(o, s.base, d);
    } else if !Impatient(o.roster) && d in o.seen && o.seen[d] + 604_800_000 <= o.now {
      AskMatures(s, o, d);
    }
  }

  // A device that asks or joined and that one who belongs removed is removed: neither a member
  // nor pending, however long it waits.
  lemma {:induction false} RemovedStaysOut(s: State, o: Sight, x: Removal)
    requires Judged(s, o) && x in o.roster.removals && x.base == s.base && Belongs(o.roster, s.base, x.signer)
    ensures x.device !in s.members && x.device !in s.pending
    ensures Asks(o.roster, s.base, x.device) || Joins(o, s.base, x.device) ==> x.device in s.removed
  {
    FoldExactly(s, o);
    hide Judged, Follow, Asks, Started, AllSpared, Ripe;
    var p, a :| Follow(o.roster, s.base, p, a, x.signer) && Consenting(o.roster, a) && Started(o.roster, a);
    assert Begins(o, s.base, a);
    assert Joins(o, s.base, x.signer);
    if Lasting(o, s.base, x.device) { assert Joins(o, s.base, x.device); }
  }
}
