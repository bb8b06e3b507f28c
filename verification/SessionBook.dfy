// relay-uws/src/session.h, Book, and make_room of session_bounds.h: indexes of the sessions
// that name, without a walk, the one to end for a newcomer.
module SessionBooks {
  import opened Base
  import opened Orders

  const UINT64_MAX: int := 0xFFFF_FFFF_FFFF_FFFF

  // The order sessions of one share end in: all those in grace, by when they entered it, and
  // only then live ones.
  datatype Rank = Rank(live: bool, order: nat)

  predicate RankLe(a: Rank, b: Rank) {
    if a.live != b.live then !a.live else a.order <= b.order
  }

  datatype Place = Place(share: nat, rank: Rank, ip: string)

  type Where = map<string, Place>
  type Member = (Rank, string)

  predicate MemberLe(a: Member, b: Member) {
    if a.0 == b.0 then a.1 == b.1 || StrLess(a.1, b.1) else RankLe(a.0, b.0)
  }

  // Orders shares so that the one to take from is greatest: by count, then by the rank of the
  // first of its sessions to end.
  datatype CountKey = CountKey(size: nat, grace: bool, soon: int, share: nat)

  predicate CountLe(a: CountKey, b: CountKey) {
    if a.size != b.size then a.size < b.size
    else if a.grace != b.grace then b.grace
    else if a.soon != b.soon then a.soon < b.soon
    else a.share <= b.share
  }

  lemma {:induction false} FirstMember(ms: set<Member>) returns (m: Member)
    requires ms != {}
    ensures m in ms && forall o | o in ms :: MemberLe(m, o)
  {
    StrTotal();
    hide StrLess;
    var q :| q in ms;
    if ms == {q} {
      m := q;
    } else {
      var rest := FirstMember(ms - {q});
      m := if MemberLe(q, rest) then q else rest;
      forall o | o in ms ensures MemberLe(m, o) {
        if o != q { assert o in ms - {q}; }
      }
    }
  }

  lemma {:induction false} TopCount(cs: set<CountKey>) returns (c: CountKey)
    requires cs != {}
    ensures c in cs && forall o | o in cs :: CountLe(o, c)
  {
    var q :| q in cs;
    if cs == {q} {
      c := q;
    } else {
      var rest := TopCount(cs - {q});
      c := if CountLe(q, rest) then rest else q;
      forall o | o in cs ensures CountLe(o, c) {
        if o != q { assert o in cs - {q}; }
      }
    }
  }

  // ---- What the table says, by a walk ----

  ghost function OfShare(w: Where, keys: set<string>, share: nat): set<Member>
    requires keys <= w.Keys
  {
    set p | p in keys && w[p].share == share :: (w[p].rank, p)
  }

  ghost function SharesOf(w: Where): set<nat> {
    set p | p in w :: w[p].share
  }

  // How many sessions `share` holds, a newcomer of `own` counted.
  ghost function CountWith(w: Where, share: nat, own: nat): nat {
    |OfShare(w, w.Keys, share)| + if share == own then 1 else 0
  }

  // `p` gives way before every other session of its share.
  ghost predicate FirstOfShare(w: Where, p: string) {
    p in w && forall q | q in w && w[q].share == w[p].share :: MemberLe((w[p].rank, p), (w[q].rank, q))
  }

  // By a walk: `p` is first to end in a share no other outnumbers once the newcomer is in
  // `own`. As many in `own` as elsewhere means `own`; between others, the share whose first
  // session ends earlier.
  ghost predicate IsTableVictim(w: Where, own: nat, p: string) {
    && FirstOfShare(w, p)
    && (forall s | s in SharesOf(w) :: CountWith(w, s, own) <= CountWith(w, w[p].share, own))
    && (own in SharesOf(w) && CountWith(w, own, own) == CountWith(w, w[p].share, own) ==> w[p].share == own)
    && (w[p].share != own ==>
          forall q | q in w && w[q].share != own && CountWith(w, w[q].share, own) == CountWith(w, w[p].share, own) ::
            RankLe(w[p].rank, w[q].rank))
  }

  // ---- The same, by state and moment ----

  // The session at `a` ends before one at `b`: any in grace before any live one, and of two in
  // grace the one that entered it first.
  ghost predicate EndsBefore(a: Place, b: Place) {
    (!a.rank.live && b.rank.live) || (!a.rank.live && !b.rank.live && a.rank.order < b.rank.order)
  }

  // How many sessions of `share` there are.
  ghost function Count(w: Where, share: nat): nat {
    |set p | p in w && w[p].share == share|
  }

  lemma {:induction false} CountIs(w: Where, share: nat)
    ensures |OfShare(w, w.Keys, share)| == Count(w, share)
  {
    var ps := set p | p in w && w[p].share == share;
    assert OfShare(w, w.Keys, share) == set p | p in ps :: (w[p].rank, p);
    SameMany(w, ps);
  }

  lemma {:induction false} SameMany(w: Where, ps: set<string>)
    requires ps <= w.Keys
    ensures |set p | p in ps :: (w[p].rank, p)| == |ps|
  {
    if ps != {} {
      var q :| q in ps;
      SameMany(w, ps - {q});
      assert (set p | p in ps :: (w[p].rank, p)) == (set p | p in ps - {q} :: (w[p].rank, p)) + {(w[q].rank, q)};
    }
  }

  // Whom a newcomer of `own` ends: nobody of its share ends before it, or as early under a
  // lesser name; no share has more sessions, the newcomer counted; the newcomer's own share
  // rather than one with as many; and of other shares with as many, none has a session that
  // ends before it.
  lemma {:induction false} VictimEndsFirst(w: Where, own: nat, p: string, next: nat)
    requires RanksSound(w, next) && IsTableVictim(w, own, p)
    ensures forall q | q in w && w[q].share == w[p].share ::
              !EndsBefore(w[q], w[p]) && (EndsBefore(w[p], w[q]) || p == q || StrLess(p, q))
    ensures forall s ::
              Count(w, s) + (if s == own then 1 else 0) <= Count(w, w[p].share) + if w[p].share == own then 1 else 0
    ensures (exists q | q in w :: w[q].share == own) && Count(w, own) + 1 >= Count(w, w[p].share) ==> w[p].share == own
    ensures w[p].share != own ==>
              forall q | q in w && w[q].share != own && Count(w, w[q].share) == Count(w, w[p].share) ::
                !EndsBefore(w[q], w[p])
  {
    StrTotal();
    hide StrLess, OfShare;
    forall s ensures |OfShare(w, w.Keys, s)| == Count(w, s) { CountIs(w, s); }
    hide Count;
    forall s
      ensures Count(w, s) + (if s == own then 1 else 0) <= Count(w, w[p].share) + if w[p].share == own then 1 else 0
    {
      if s in SharesOf(w) {
        assert CountWith(w, s, own) <= CountWith(w, w[p].share, own);
      } else {
        NobodyOf(w, s);
        SomebodyOf(w, p);
      }
    }
  }

  lemma {:induction false} NobodyOf(w: Where, s: nat)
    requires s !in SharesOf(w)
    ensures Count(w, s) == 0
  {
    assert (set p | p in w && w[p].share == s) == {};
  }

  lemma {:induction false} SomebodyOf(w: Where, p: string)
    requires p in w
    ensures Count(w, w[p].share) > 0
  {
    var ps := set q | q in w && w[q].share == w[p].share;
    assert p in ps;
  }

  // ---- The indexes ----

  type Shares = map<nat, set<Member>>
  type Slots = map<string, set<(nat, string)>>

  ghost predicate IsLead(ms: set<Member>, m: Member) {
    m in ms && forall o | o in ms :: MemberLe(m, o)
  }

  // The member of a share that gives way first.
  ghost function Lead(ms: set<Member>): (m: Member)
    requires ms != {}
    ensures IsLead(ms, m)
  {
    LeadExists(ms);
    var m :| IsLead(ms, m);
    m
  }

  lemma {:induction false} LeadExists(ms: set<Member>)
    requires ms != {}
    ensures exists m :: IsLead(ms, m)
  {
    var m := FirstMember(ms);
    assert IsLead(ms, m);
  }

  lemma {:induction false} LeadUnique(ms: set<Member>, a: Member, b: Member)
    requires IsLead(ms, a) && IsLead(ms, b)
    ensures a == b
  {
    StrTotal();
    hide StrLess;
  }

  function KeyFor(share: nat, size: nat, first: Rank): CountKey {
    CountKey(size, !first.live, if first.live then 0 else UINT64_MAX - first.order, share)
  }

  ghost function KeyOf(share: nat, ms: set<Member>): CountKey
    requires ms != {}
  {
    KeyFor(share, |ms|, Lead(ms).0)
  }

  ghost predicate SharesExact(shares: Shares, w: Where, keys: set<string>)
    requires keys <= w.Keys
  {
    && (forall p | p in keys :: w[p].share in shares)
    && (forall s | s in shares :: shares[s] != {} && shares[s] == OfShare(w, keys, s))
  }

  ghost predicate CountsExact(byCount: set<CountKey>, shares: Shares) {
    && (forall s | s in shares :: shares[s] != {} && KeyOf(s, shares[s]) in byCount)
    && (forall c | c in byCount :: c.share in shares && shares[c.share] != {} && c == KeyOf(c.share, shares[c.share]))
  }

  predicate HoldsSlot(p: Place) { !p.rank.live && p.ip != "" }

  ghost function SlotsOf(w: Where, keys: set<string>, ip: string): set<(nat, string)>
    requires keys <= w.Keys
  {
    set p | p in keys && HoldsSlot(w[p]) && w[p].ip == ip :: (w[p].rank.order, p)
  }

  ghost predicate SlotsExact(byIp: Slots, w: Where, keys: set<string>)
    requires keys <= w.Keys
  {
    && (forall p | p in keys && HoldsSlot(w[p]) :: w[p].ip in byIp)
    && (forall i | i in byIp :: byIp[i] != {} && byIp[i] == SlotsOf(w, keys, i))
  }

  // Live sessions share one place; sessions in grace came into it one after another.
  ghost predicate RanksSound(w: Where, next: nat) {
    forall p | p in w :: if w[p].rank.live then w[p].rank.order == 0 else w[p].rank.order <= next
  }

  function AtShare(shares: Shares, share: nat): set<Member> {
    if share in shares then shares[share] else {}
  }

  function AtIp(byIp: Slots, ip: string): set<(nat, string)> {
    if ip in byIp then byIp[ip] else {}
  }

  function Put<K(==), V>(m: map<K, set<V>>, k: K, vs: set<V>): map<K, set<V>> {
    if vs == {} then m - {k} else m[k := vs]
  }

  lemma {:induction false} ShareLinked(shares: Shares, w: Where, keys: set<string>, p: string)
    requires keys <= w.Keys && p in keys
    ensures var ms, m, s := OfShare(w, keys - {p}, w[p].share), (w[p].rank, p), w[p].share;
            && OfShare(w, keys, s) == ms + {m} && m !in ms
            && (SharesExact(shares, w, keys - {p}) ==>
                  AtShare(shares, s) == ms && SharesExact(shares[s := ms + {m}], w, keys))
            && (SharesExact(shares, w, keys) ==> s in shares && SharesExact(Put(shares, s, ms), w, keys - {p}))
  {
    var s, m := w[p].share, (w[p].rank, p);
    var ms := OfShare(w, keys - {p}, s);
    assert forall q | q in keys :: q == p || q in keys - {p};
    assert OfShare(w, keys, s) == ms + {m};
    forall o | o != s ensures OfShare(w, keys, o) == OfShare(w, keys - {p}, o) {}
    if SharesExact(shares, w, keys - {p}) {
      assert s !in shares ==> ms == {};
    }
    if SharesExact(shares, w, keys) {
      forall q | q in keys - {p} && w[q].share == s ensures (w[q].rank, q) in ms {}
    }
  }

  // A share's key follows its members.
  ghost function Recounted(byCount: set<CountKey>, s: nat, before: set<Member>, after: set<Member>): set<CountKey> {
    (if before == {} then byCount else byCount - {KeyOf(s, before)}) + if after == {} then {} else {KeyOf(s, after)}
  }

  lemma {:induction false} CountsMoved(byCount: set<CountKey>, shares: Shares, s: nat, after: set<Member>)
    requires CountsExact(byCount, shares)
    ensures CountsExact(Recounted(byCount, s, AtShare(shares, s), after), Put(shares, s, after))
  {
    hide Lead, KeyFor;
    var before := AtShare(shares, s);
    var cs, after' := Recounted(byCount, s, before, after), Put(shares, s, after);
    KeyShares(shares);
    if after != {} { KeyShare(s, after); }
    forall o | o in after' ensures KeyOf(o, after'[o]) in cs {
      if o != s { assert KeyOf(o, shares[o]) in byCount; }
    }
    forall c | c in cs ensures c.share in after' && c == KeyOf(c.share, after'[c.share]) {
      if c in byCount && c.share == s { assert c == KeyOf(s, before); }
    }
  }

  lemma {:induction false} KeyShare(s: nat, ms: set<Member>)
    requires ms != {}
    ensures KeyOf(s, ms).share == s
  {}

  lemma {:induction false} KeyShares(shares: Shares)
    ensures forall s | s in shares && shares[s] != {} :: KeyOf(s, shares[s]).share == s
  {}

  lemma {:induction false} SlotLinked(byIp: Slots, w: Where, keys: set<string>, p: string)
    requires keys <= w.Keys && p in keys
    ensures var ip, m := w[p].ip, (w[p].rank.order, p);
            var ms := SlotsOf(w, keys - {p}, ip);
            && (!HoldsSlot(w[p]) ==> (SlotsExact(byIp, w, keys - {p}) <==> SlotsExact(byIp, w, keys)))
            && (HoldsSlot(w[p]) && SlotsExact(byIp, w, keys - {p}) ==>
                  AtIp(byIp, ip) == ms && SlotsExact(byIp[ip := ms + {m}], w, keys))
            && (HoldsSlot(w[p]) && SlotsExact(byIp, w, keys) ==>
                  ip in byIp && byIp[ip] - {m} == ms && SlotsExact(Put(byIp, ip, ms), w, keys - {p}))
  {
    var ip, m := w[p].ip, (w[p].rank.order, p);
    var ms := SlotsOf(w, keys - {p}, ip);
    assert forall q | q in keys :: q == p || q in keys - {p};
    if HoldsSlot(w[p]) {
      assert SlotsOf(w, keys, ip) == ms + {m} && m !in ms;
      forall o | o != ip ensures SlotsOf(w, keys, o) == SlotsOf(w, keys - {p}, o) {}
      if SlotsExact(byIp, w, keys - {p}) { assert ip !in byIp ==> ms == {}; }
      if SlotsExact(byIp, w, keys) {
        forall q | q in keys - {p} && HoldsSlot(w[q]) && w[q].ip == ip ensures (w[q].rank.order, q) in ms {}
      }
    } else {
      forall o ensures SlotsOf(w, keys, o) == SlotsOf(w, keys - {p}, o) {}
    }
  }

  class Book {
    var places: Where
    var shares: Shares
    var byCount: set<CountKey>
    var byIp: Slots
    var nextOrder: nat

    // The indexes describe exactly the sessions of `keys`.
    ghost predicate Indexes(keys: set<string>)
      requires keys <= places.Keys
      reads this
    {
      SharesExact(shares, places, keys) && CountsExact(byCount, shares) && SlotsExact(byIp, places, keys)
    }

    ghost predicate Valid()
      reads this
    {
      RanksSound(places, nextOrder) && Indexes(places.Keys)
    }

    constructor ()
      ensures Valid() && places == map[] && nextOrder == 0
    {
      places, shares, byCount, byIp, nextOrder := map[], map[], {}, map[], 0;
    }

    static method CountKeyNow(share: nat, ms: set<Member>) returns (key: CountKey)
      requires ms != {}
      ensures key == KeyOf(share, ms)
    {
      ghost var f := FirstMember(ms);
      var first :| first in ms && forall o | o in ms :: MemberLe(first, o);
      LeadUnique(ms, first, Lead(ms));
      key := KeyFor(share, |ms|, first.0);
    }

    method Recount(share: nat, before: set<Member>, after: set<Member>)
      modifies this`byCount
      ensures byCount == Recounted(old(byCount), share, before, after)
    {
      hide KeyOf;
      if before != {} {
        var was := CountKeyNow(share, before);
        byCount := byCount - {was};
      }
      if after != {} {
        var now := CountKeyNow(share, after);
        byCount := byCount + {now};
      }
    }

    method Link(peer: string)
      requires peer in places && Indexes(places.Keys - {peer})
      modifies this`shares, this`byCount, this`byIp
      ensures Indexes(places.Keys)
    {
      hide SharesExact, CountsExact, SlotsExact, OfShare, SlotsOf, KeyOf, Recounted;
      var p := places[peer];
      ShareLinked(shares, places, places.Keys, peer);
      SlotLinked(byIp, places, places.Keys, peer);
      var m := AtShare(shares, p.share);
      CountsMoved(byCount, shares, p.share, m + {(p.rank, peer)});
      Recount(p.share, m, m + {(p.rank, peer)});
      shares := shares[p.share := m + {(p.rank, peer)}];
      if HoldsSlot(p) { byIp := byIp[p.ip := AtIp(byIp, p.ip) + {(p.rank.order, peer)}]; }
    }

    method Unlink(peer: string)
      requires peer in places && Indexes(places.Keys)
      modifies this`shares, this`byCount, this`byIp
      ensures Indexes(places.Keys - {peer})
    {
      hide CountsExact, SlotsExact, OfShare, SlotsOf, KeyOf, Recounted;
      var p := places[peer];
      ShareLinked(shares, places, places.Keys, peer);
      SlotLinked(byIp, places, places.Keys, peer);
      var m := shares[p.share];
      var left := m - {(p.rank, peer)};
      hide SharesExact;
      CountsMoved(byCount, shares, p.share, left);
      Recount(p.share, m, left);
      shares := Put(shares, p.share, left);
      if HoldsSlot(p) { byIp := Put(byIp, p.ip, byIp[p.ip] - {(p.rank.order, peer)}); }
    }

    method Drop(peer: string)
      requires Valid()
      modifies this
      ensures Valid() && nextOrder == old(nextOrder)
      ensures places == old(places) - {peer}
    {
      hide SharesExact, CountsExact, SlotsExact, RanksSound;
      ghost var w := places;
      FewerSound(w, peer, nextOrder);
      if peer !in places {
        assert places - {peer} == places;
        return;
      }
      Unlink(peer);
      places := places - {peer};
      SameIndexed(shares, byIp, w, places, places.Keys);
    }

    // `peer`'s session is now at `p`.
    method Move(peer: string, p: Place)
      requires Valid() && RanksSound(map[peer := p], nextOrder)
      modifies this`places, this`shares, this`byCount, this`byIp
      ensures Valid() && places == old(places)[peer := p]
    {
      hide SharesExact, CountsExact, SlotsExact, RanksSound;
      ghost var w, keys := places, places.Keys - {peer};
      MovedSound(w, peer, p, nextOrder);
      if peer in places {
        Unlink(peer);
      } else {
        assert keys == places.Keys;
      }
      places := places[peer := p];
      SameIndexed(shares, byIp, w, places, keys);
      assert places.Keys - {peer} == keys;
      Link(peer);
    }

    // A fresh session of `share`.
    method Add(peer: string, share: nat)
      requires Valid()
      modifies this
      ensures Valid() && nextOrder == old(nextOrder)
      ensures places == old(places)[peer := Place(share, Rank(true, 0), "")]
    {
      hide SharesExact, CountsExact, SlotsExact;
      Drop(peer);
      Move(peer, Place(share, Rank(true, 0), ""));
      assert (old(places) - {peer})[peer := Place(share, Rank(true, 0), "")]
             == old(places)[peer := Place(share, Rank(true, 0), "")];
    }

    // `peer` ranks after every session already in grace, and takes a slot at `ip`.
    method ToGrace(peer: string, ip: string)
      requires Valid()
      modifies this
      ensures Valid()
      ensures peer !in old(places) ==> places == old(places) && nextOrder == old(nextOrder)
      ensures peer in old(places) ==>
                && nextOrder == old(nextOrder) + 1
                && places == old(places)[peer := Place(old(places)[peer].share, Rank(false, nextOrder), ip)]
    {
      hide SharesExact, CountsExact, SlotsExact;
      if peer !in places { return; }
      nextOrder := nextOrder + 1;
      Move(peer, Place(places[peer].share, Rank(false, nextOrder), ip));
    }

    // `peer` ranks with the live ones and has no slot.
    method ToLive(peer: string)
      requires Valid()
      modifies this
      ensures Valid() && nextOrder == old(nextOrder)
      ensures places == if peer in old(places) && !old(places)[peer].rank.live
                        then old(places)[peer := Place(old(places)[peer].share, Rank(true, 0), "")] else old(places)
    {
      hide SharesExact, CountsExact, SlotsExact;
      if peer !in places || places[peer].rank.live { return; }
      Move(peer, Place(places[peer].share, Rank(true, 0), ""));
    }

    // What a walk of the table would name, or none if it is empty.
    method TableVictim(share: nat) returns (v: Option<string>)
      requires Valid()
      ensures v.None? <==> places == map[]
      ensures v.Some? ==> IsTableVictim(places, share, v.value)
    {
      hide SlotsExact, OfShare, KeyOf, IsTableVictim;
      CountsOf(places, shares, byCount, nextOrder);
      if byCount == {} { return None; }
      ghost var t := TopCount(byCount);
      var top :| top in byCount && forall c | c in byCount :: CountLe(c, top);
      var pick := top.share;
      if share in shares && pick != share && |shares[share]| + 1 >= top.size { pick := share; }
      ghost var f := FirstMember(shares[pick]);
      var first :| first in shares[pick] && forall m | m in shares[pick] :: MemberLe(first, m);
      hide SharesExact, CountsExact;
      PickIsVictim(places, shares, byCount, nextOrder, share, top, pick, first);
      v := Some(first.1);
    }

    // As many as the sessions in grace with a slot at `ip`.
    function GraceSlots(ip: string): (n: nat)
      requires Valid()
      reads this
      ensures n == |SlotsOf(places, places.Keys, ip)|
    {
      assert ip !in byIp ==> SlotsOf(places, places.Keys, ip) == {};
      |AtIp(byIp, ip)|
    }

    // The grace slot of `ip` closest to its end, passing over the device logging in.
    method GraceSlotVictim(ip: string, spare: string) returns (v: Option<string>)
      requires Valid()
      ensures v.None? <==> forall p | p in places && HoldsSlot(places[p]) && places[p].ip == ip :: p == spare
      ensures v.Some? ==>
                && v.value in places && v.value != spare && HoldsSlot(places[v.value]) && places[v.value].ip == ip
                && forall p | p in places && p != spare && HoldsSlot(places[p]) && places[p].ip == ip ::
                     places[v.value].rank.order <= places[p].rank.order
    {
      hide SharesExact, CountsExact;
      var slots := set m | m in AtIp(byIp, ip) && m.1 != spare;
      assert forall p | p in places && p != spare && HoldsSlot(places[p]) && places[p].ip == ip ::
          (places[p].rank.order, p) in slots;
      if slots == {} { return None; }
      ghost var f := FirstSlot(slots);
      var first :| first in slots && forall m | m in slots :: first.0 <= m.0;
      v := Some(first.1);
    }
  }

  lemma {:induction false} FirstSlot(ms: set<(nat, string)>) returns (m: (nat, string))
    requires ms != {}
    ensures m in ms && forall o | o in ms :: m.0 <= o.0
  {
    var q :| q in ms;
    if ms == {q} {
      m := q;
    } else {
      var rest := FirstSlot(ms - {q});
      m := if q.0 <= rest.0 then q else rest;
    }
  }

  // Each of `out` was the session to give way among those left.
  ghost predicate VictimsInTurn(w: Where, own: nat, out: seq<string>) {
    forall i | 0 <= i < |out| :: IsTableVictim(w - Elems(out[..i]), own, out[i])
  }

  lemma {:induction false} VictimsMore(w: Where, own: nat, out: seq<string>, v: string)
    requires VictimsInTurn(w, own, out) && IsTableVictim(w - Elems(out), own, v)
    ensures VictimsInTurn(w, own, out + [v]) && Elems(out + [v]) == Elems(out) + {v}
  {
    hide IsTableVictim;
    var all := out + [v];
    forall i | 0 <= i < |all| ensures IsTableVictim(w - Elems(all[..i]), own, all[i]) {
      assert all[..i] == out[..i];
      assert out[..|out|] == out;
    }
  }

  lemma {:induction false} VictimIsThere(w: Where, own: nat, v: string)
    requires IsTableVictim(w, own, v)
    ensures v in w
  {}

  // With those in `out` gone and `peer` in, the table is within `max`; each of them was the
  // victim of what was left before it, and none went that could stay. The book, in step with
  // `sessions` before, is in step with that after.
  method MakeRoom(book: Book, sessions: set<string>, share: nat, peer: string, max: nat) returns (out: seq<string>)
    requires book.Valid() && book.places.Keys == sessions
    modifies book
    ensures book.Valid() && book.places.Keys == sessions - Elems(out) + {peer}
    ensures Elems(out) <= sessions - {peer} && |Elems(out)| == |out|
    ensures max > 0 ==> |sessions - Elems(out) + {peer}| <= max
    ensures max > 0 && out != [] ==> |sessions - Elems(out) + {peer}| == max
    ensures VictimsInTurn(old(book.places) - {peer}, share, out)
  {
    hide Book.Valid, IsTableVictim, VictimsInTurn, Elems;
    RoomStart(book.places, peer);
    book.Drop(peer);
    ghost var w := book.places;
    out := EndUntilRoom(book, share, |sessions| - (if peer in sessions then 1 else 0), max);
    RoomEnd(w, sessions, peer, Elems(out), Place(share, Rank(true, 0), ""));
    book.Add(peer, share);
  }

  method EndUntilRoom(book: Book, share: nat, sessions: nat, max: nat) returns (out: seq<string>)
    requires book.Valid() && sessions == |book.places|
    modifies book
    ensures book.Valid() && book.places == old(book.places) - Elems(out)
    ensures Elems(out) <= old(book.places).Keys && |Elems(out)| == |out|
    ensures max > 0 ==> |book.places| + 1 <= max
    ensures max > 0 && out != [] ==> |book.places| + 1 == max
    ensures VictimsInTurn(old(book.places), share, out)
  {
    hide Book.Valid, IsTableVictim, VictimsInTurn, Elems;
    out := [];
    ghost var w := book.places;
    NoVictims(w, share);
    var held := sessions;
    while held + 1 > max
      invariant book.Valid() && book.places == w - Elems(out) && held == |book.places|
      invariant Elems(out) <= w.Keys && |Elems(out)| == |out|
      invariant VictimsInTurn(w, share, out)
      invariant max > 0 && out != [] ==> held + 1 >= max
      decreases held
    {
      var victim := book.TableVictim(share);
      if victim.None? { break; }
      VictimIsThere(book.places, share, victim.value);
      VictimsMore(w, share, out, victim.value);
      OneFewer(w, Elems(out), victim.value);
      book.Drop(victim.value);
      out := out + [victim.value];
      held := held - 1;
    }
  }

  lemma {:induction false} NoVictims(w: Where, own: nat)
    ensures var none: seq<string> := []; Elems(none) == {} && w - Elems(none) == w && VictimsInTurn(w, own, none)
  {
    var none: seq<string> := [];
    assert Elems(none) == {};
  }

  lemma {:induction false} RoomStart(w: Where, peer: string)
    ensures (w - {peer}).Keys == w.Keys - {peer} && |w - {peer}| == |w.Keys| - if peer in w then 1 else 0
  {
    assert (w - {peer}).Keys == w.Keys - {peer};
    if peer !in w { assert w.Keys - {peer} == w.Keys; }
  }

  lemma {:induction false} RoomEnd(w: Where, sessions: set<string>, peer: string, gone: set<string>, p: Place)
    requires w.Keys == sessions - {peer} && gone <= w.Keys
    ensures (w - gone)[peer := p].Keys == sessions - gone + {peer}
    ensures |sessions - gone + {peer}| == |w - gone| + 1
  {
    assert (w - gone).Keys == sessions - {peer} - gone;
    assert sessions - {peer} - gone + {peer} == sessions - gone + {peer};
  }

  lemma {:induction false} OneFewer(w: Where, gone: set<string>, v: string)
    requires v in w - gone
    ensures (w - gone) - {v} == w - (gone + {v}) && |(w - gone) - {v}| == |w - gone| - 1
    ensures |gone + {v}| == |gone| + 1
  {
    assert ((w - gone) - {v}).Keys == (w - gone).Keys - {v};
  }

  lemma {:induction false} MovedSound(w: Where, peer: string, p: Place, next: nat)
    requires RanksSound(w, next) && RanksSound(map[peer := p], next)
    ensures RanksSound(w[peer := p], next)
  {
    assert peer in map[peer := p];
  }

  lemma {:induction false} FewerSound(w: Where, peer: string, next: nat)
    requires RanksSound(w, next)
    ensures RanksSound(w - {peer}, next)
  {}

  lemma {:induction false} SameIndexed(shares: Shares, byIp: Slots, w: Where, u: Where, keys: set<string>)
    requires keys <= w.Keys && keys <= u.Keys && forall k | k in keys :: w[k] == u[k]
    requires SharesExact(shares, w, keys) && SlotsExact(byIp, w, keys)
    ensures SharesExact(shares, u, keys) && SlotsExact(byIp, u, keys)
  {
    forall s ensures OfShare(w, keys, s) == OfShare(u, keys, s) {}
    forall i ensures SlotsOf(w, keys, i) == SlotsOf(u, keys, i) {}
  }

  lemma {:induction false} CountsOf(w: Where, shares: Shares, byCount: set<CountKey>, next: nat)
    requires SharesExact(shares, w, w.Keys) && CountsExact(byCount, shares)
    ensures byCount == {} <==> w == map[]
    ensures forall c | c in byCount :: c.share in shares && c.size == |shares[c.share]|
    ensures forall s | s in shares :: s in SharesOf(w)
  {
    hide Lead;
    forall s | s in shares ensures s in SharesOf(w) {
      var m :| m in shares[s];
    }
    if c :| c in byCount {
      var m :| m in shares[c.share];
    }
  }

  lemma {:induction false} MembersOf(w: Where, shares: Shares)
    requires SharesExact(shares, w, w.Keys)
    ensures forall p | p in w :: w[p].share in shares && (w[p].rank, p) in shares[w[p].share]
    ensures forall s, m | s in shares && m in shares[s] :: m.1 in w && w[m.1].share == s && w[m.1].rank == m.0
    ensures forall s | s in shares :: |OfShare(w, w.Keys, s)| == |shares[s]|
  {}

  // Of two shares with as many sessions, the greater key is the one that gives way sooner.
  lemma {:induction false} KeyRank(s: nat, t: nat, n: nat, a: Rank, b: Rank)
    requires CountLe(KeyFor(t, n, b), KeyFor(s, n, a)) && (a.live ==> a.order == 0)
    ensures RankLe(a, b)
  {}

  lemma {:induction false} PickIsVictim(w: Where, shares: Shares, byCount: set<CountKey>, next: nat, own: nat,
                                        top: CountKey, pick: nat, first: Member)
    requires SharesExact(shares, w, w.Keys) && CountsExact(byCount, shares) && RanksSound(w, next)
    requires top in byCount && forall c | c in byCount :: CountLe(c, top)
    requires pick == (if own in shares && |shares[own]| + 1 >= top.size then own else top.share)
    requires pick in shares && first in shares[pick] && forall m | m in shares[pick] :: MemberLe(first, m)
    ensures IsTableVictim(w, own, first.1)
  {
    hide SharesExact, CountsExact, OfShare, KeyOf, StrLess, CountLe, Lead;
    MembersOf(w, shares);
    Sizes(shares, byCount, top);
    var p := first.1;
    assert FirstOfShare(w, p);
    hide MemberLe, FirstOfShare;
    assert forall s | s in SharesOf(w) :: s in shares && CountWith(w, s, own) <= CountWith(w, pick, own);
    if pick != own {
      assert IsLead(shares[pick], first);
      hide RankLe, IsLead;
      forall q | q in w && w[q].share != own && CountWith(w, w[q].share, own) == CountWith(w, pick, own)
        ensures RankLe(w[p].rank, w[q].rank)
      {
        SoonerFirst(shares, byCount, top, w[q].share, first, (w[q].rank, q));
      }
    }
  }

  lemma {:induction false} Sizes(shares: Shares, byCount: set<CountKey>, top: CountKey)
    requires CountsExact(byCount, shares) && top in byCount && forall c | c in byCount :: CountLe(c, top)
    ensures top.share in shares && top.size == |shares[top.share]|
    ensures forall s | s in shares :: |shares[s]| <= top.size
  {
    hide Lead;
    forall s | s in shares ensures |shares[s]| <= top.size {
      assert CountLe(KeyOf(s, shares[s]), top);
    }
  }

  lemma {:induction false} SoonerFirst(shares: Shares, byCount: set<CountKey>, top: CountKey, t: nat, first: Member,
                                       m: Member)
    requires CountsExact(byCount, shares) && top in byCount && forall c | c in byCount :: CountLe(c, top)
    requires t in shares && top.share in shares && |shares[t]| == top.size && IsLead(shares[top.share], first)
    requires m in shares[t] && (first.0.live ==> first.0.order == 0)
    ensures RankLe(first.0, m.0)
  {
    LeadUnique(shares[top.share], first, Lead(shares[top.share]));
    assert KeyOf(t, shares[t]) in byCount;
    KeyRank(top.share, t, top.size, first.0, Lead(shares[t]).0);
    assert MemberLe(Lead(shares[t]), m);
  }
}
