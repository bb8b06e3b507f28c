// relay-uws/src/snapshot_codec.h, Writer and Reader: bytes appended one field after another
// and read back by a position that moves on, and a session's record written and read so.
module SnapshotWires {
  import opened Base
  import opened Codecs
  import opened Snapshots
  import opened SnapshotSessions
  import opened SnapshotBodies
  import opened SnapshotDatas

  // `got` is what was got, and `left` what it left.
  ghost predicate Took<T>(g: Got<T>, got: Option<T>, left: Bytes) {
    match g
    case Refused => got == None
    case Got(x, rest) => got == Some(x) && left == rest
  }

  class Writer {
    var out: Bytes

    constructor ()
      ensures out == []
    {
      out := [];
    }

    // `n` bytes, the low one first.
    method Number(v: nat, n: nat)
      modifies this
      ensures out == old(out) + Low(v, n)
    {
      var left := v;
      for i := 0 to n
        invariant out + Low(left, n - i) == old(out) + Low(v, n)
      {
        out := out + [left % 256];
        left := left / 256;
      }
    }

    method Flag(b: bool)
      modifies this
      ensures out == old(out) + Codecs.Flag().put(b)
    {
      assert Codecs.Flag().put(b) == Low(Bit(b), 1);
      Number(if b then 1 else 0, 1);
    }

    method Str(s: Bytes)
      modifies this
      ensures out == old(out) + Codecs.Str().put(s)
    {
      Number(|s|, 4);
      out := out + s;
    }

    method Count(n: nat)
      modifies this
      ensures out == old(out) + Low(n, 4)
    {
      Number(n, 4);
    }

    method Signed(v: int)
      modifies this
      ensures out == old(out) + I64().put(v)
    {
      hide Low;
      Number(Unsigned(v), 8);
    }
  }

  class Reader {
    const input: Bytes
    var pos: nat

    ghost predicate Valid()
      reads this
    {
      pos <= |input|
    }

    // What has not been read yet.
    ghost function Left(): Bytes
      requires Valid()
      reads this
    {
      input[pos..]
    }

    constructor (bytes: Bytes)
      ensures Valid() && input == bytes && pos == 0
    {
      input, pos := bytes, 0;
    }

    method Number(n: nat) returns (v: Option<nat>)
      requires Valid()
      modifies this
      ensures Valid() && Took(Codecs.Number(n).get(old(Left())), v, Left())
    {
      if |input| - pos < n { return None; }
      var sum: nat, i := 0, n;
      ghost var bytes := input[pos..pos + n];
      while i > 0
        invariant 0 <= i <= n && sum == Val(bytes[i..])
      {
        i := i - 1;
        sum := input[pos + i] + 256 * sum;
        assert bytes[i..][1..] == bytes[i + 1..];
      }
      assert bytes[0..] == bytes && old(Left())[..n] == bytes && old(Left())[n..] == input[pos + n..];
      pos := pos + n;
      return Some(sum);
    }

    method Flag() returns (b: Option<bool>)
      requires Valid()
      modifies this
      ensures Valid() && Took(Codecs.Flag().get(old(Left())), b, Left())
    {
      var v := Number(1);
      if v.None? || v.value > 1 { return None; }
      return Some(v.value == 1);
    }

    method Str() returns (s: Option<Bytes>)
      requires Valid()
      modifies this
      ensures Valid() && Took(Codecs.Str().get(old(Left())), s, Left())
    {
      ghost var left := Left();
      var n := Number(4);
      if n.None? || n.value > MAX_STRING_BYTES || n.value > |input| - pos { return None; }
      var got := input[pos..pos + n.value];
      assert left[4..4 + n.value] == got && left[4 + n.value..] == input[pos + n.value..];
      pos := pos + n.value;
      return Some(got);
    }

    // A count, refused when it is past the bytes left.
    method Count() returns (n: Option<nat>)
      requires Valid()
      modifies this
      ensures Valid()
      ensures var left := old(Left());
              if |left| < 4 || Val(left[..4]) > |left| - 4 then n == None
              else n == Some(Val(left[..4])) && Left() == left[4..]
    {
      hide Val;
      n := Number(4);
      if n.Some? && n.value > |input| - pos { return None; }
    }

    method Signed() returns (v: Option<int>)
      requires Valid()
      modifies this
      ensures Valid() && Took(I64().get(old(Left())), v, Left())
    {
      hide Val;
      ghost var left := Left();
      var n := Number(8);
      if n.None? { return None; }
      EightBytes(left[..8]);
      return Some(Codecs.Signed(n.value));
    }
  }

  lemma {:induction false} EightBytes(bs: Bytes)
    requires |bs| == 8
    ensures Val(bs) < U64_END
  {
    ValLow(bs);
    assert End(8) == U64_END;
  }

  // ---- Lists ----

  lemma {:induction false} PutSnoc<T>(c: Codec<T>, xs: seq<T>, x: T)
    ensures PutAll(c, xs + [x]) == PutAll(c, xs) + c.put(x)
  {
    if xs == [] {
      assert [x][1..] == [];
      assert PutAll(c, [x]) == c.put(x) + [];
      assert c.put(x) + [] == [] + c.put(x);
    } else {
      assert (xs + [x])[1..] == xs[1..] + [x];
      PutSnoc(c, xs[1..], x);
    }
  }

  // One record after another.
  method WriteAll<T>(w: Writer, c: Codec<T>, xs: seq<T>)
    modifies w
    ensures w.out == old(w.out) + PutAll(c, xs)
  {
    hide PutAll;
    ghost var start := w.out;
    PutNone(c);
    for i := 0 to |xs|
      invariant w.out == start + PutAll(c, xs[..i])
    {
      assert xs[..i + 1] == xs[..i] + [xs[i]];
      PutSnoc(c, xs[..i], xs[i]);
      w.out := w.out + c.put(xs[i]);
    }
    assert xs[..|xs|] == xs;
  }

  lemma {:induction false} PutNone<T>(c: Codec<T>)
    ensures PutAll(c, []) == []
  {}

  method WriteList<T>(w: Writer, c: Codec<T>, xs: seq<T>)
    modifies w
    ensures w.out == old(w.out) + List(c).put(xs)
  {
    hide PutAll, Low;
    w.Count(|xs|);
    WriteAll(w, c, xs);
  }

  // One record.
  method Take<T(!new)>(r: Reader, c: Codec<T>) returns (x: Option<T>)
    requires r.Valid() && Good(c)
    modifies r
    ensures r.Valid() && Took(c.get(old(r.Left())), x, r.Left())
  {
    hide Good;
    var bytes := r.input[r.pos..];
    var g := c.get(bytes);
    if g.Refused? { return None; }
    Was(c, bytes);
    r.pos := |r.input| - |g.rest|;
    return Some(g.value);
  }

  // A count, then so many; a count past the bytes left is refused.
  method ReadList<T(!new)>(r: Reader, c: Codec<T>) returns (xs: Option<seq<T>>)
    requires r.Valid() && Good(c)
    modifies r
    ensures r.Valid() && Took(List(c).get(old(r.Left())), xs, r.Left())
  {
    hide Good, GetAll, Val;
    var n := r.Number(4);
    if n.None? || n.value > |r.input| - r.pos { return None; }
    xs := ReadAll(r, c, n.value);
  }

  // So many records, one after another, or a refusal at the first that is not there.
  method ReadAll<T(!new)>(r: Reader, c: Codec<T>, n: nat) returns (xs: Option<seq<T>>)
    requires r.Valid() && Good(c)
    modifies r
    ensures r.Valid() && Took(GetAll(c, n, old(r.Left())), xs, r.Left())
  {
    hide GetAll, Good;
    ghost var start := r.Left();
    var got: seq<T> := [];
    GotFront([], GetAll(c, n, start));
    for i := 0 to n
      invariant r.Valid() && GetAll(c, n, start) == Front(got, GetAll(c, n - i, r.Left()))
    {
      GetNext(c, n - i, r.Left());
      var x := Take(r, c);
      if x.None? { return None; }
      FrontOn(got, x.value, GetAll(c, n - i - 1, r.Left()));
      got := got + [x.value];
    }
    GetNone(c, r.Left());
    assert got + [] == got;
    return Some(got);
  }

  ghost function Front<T>(xs: seq<T>, g: Got<seq<T>>): Got<seq<T>> {
    match g
    case Refused => Refused
    case Got(ys, rest) => Got(xs + ys, rest)
  }

  lemma {:induction false} GotFront<T>(xs: seq<T>, g: Got<seq<T>>)
    ensures xs == [] ==> Front(xs, g) == g
  {
    if g.Got? { assert [] + g.value == g.value; }
  }

  lemma {:induction false} FrontOn<T>(xs: seq<T>, x: T, g: Got<seq<T>>)
    ensures Front(xs, Front([x], g)) == Front(xs + [x], g)
  {
    if g.Got? { assert xs + ([x] + g.value) == xs + [x] + g.value; }
  }

  lemma {:induction false} GetNext<T>(c: Codec<T>, n: nat, bs: Bytes)
    requires n > 0
    ensures GetAll(c, n, bs) ==
            match c.get(bs) {
              case Refused => Refused
              case Got(x, rest) => Front([x], GetAll(c, n - 1, rest))
            }
  {}

  lemma {:induction false} GetNone<T>(c: Codec<T>, bs: Bytes)
    ensures GetAll(c, 0, bs) == Got([], bs)
  {}

  // ---- A session's record ----

  method Write<T>(w: Writer, c: Codec<T>, x: T)
    modifies w
    ensures w.out == old(w.out) + c.put(x)
  {
    w.out := w.out + c.put(x);
  }

  method WriteWho(w: Writer, s: SessionRec)
    modifies w
    ensures w.out == old(w.out) + Who().put(SessionTo(s).0)
  {
    hide Low, Str, Flag;
    ghost var start := w.out;
    w.Str(s.sid);
    w.Str(s.peerId);
    w.Number(s.share, 8);
    w.Flag(s.inactive);
    w.Number(s.inH, 8);
    Flat5(start, Codecs.Str().put(s.sid), Codecs.Str().put(s.peerId), Low(s.share, 8), Codecs.Flag().put(s.inactive),
          Low(s.inH, 8));
  }

  // ---- What the pieces of the record are written as ----

  lemma {:induction false} PairPut<S, T>(a: Codec<S>, b: Codec<T>, x: (S, T))
    ensures Pair(a, b).put(x) == a.put(x.0) + b.put(x.1)
  {}

  lemma {:induction false} OptPut<T>(c: Codec<T>, absent: T, x: Option<T>)
    ensures Opt(c, absent).put(x) == Codecs.Flag().put(x.Some?) + if x.Some? then c.put(x.value) else []
  {
    hide Codecs.Flag;
    assert Opt(c, absent).put(x) == Then(Codecs.Flag(), IfThere(c, absent)).put(ToPair(absent)(x));
  }

  lemma {:induction false} ProofPut(p: Proof)
    ensures ProofCodec().put(p) == Codecs.Str().put(p.masterKey) + (I64().put(p.tsMs) + Codecs.Str().put(p.sig))
  {
    hide Codecs.Str, I64;
    assert ProofCodec().put(p) == Pair(Codecs.Str(), Pair(I64(), Codecs.Str())).put(ProofTo(p));
  }

  lemma {:induction false} NicknamePut(n: Nickname)
    ensures NicknameCodec().put(n) ==
            Codecs.Str().put(n.nickname) +
            (Low(n.expiryUnix, 8) + (Codecs.Str().put(n.master) + Opt(ProofCodec(), NO_PROOF).put(n.proof)))
  {
    hide Codecs.Str, Low, Opt, ProofCodec;
    var c := Pair(Codecs.Str(), Pair(U64(), Pair(Codecs.Str(), Opt(ProofCodec(), NO_PROOF))));
    assert NicknameCodec().put(n) == c.put(NicknameTo(n));
  }

  lemma {:induction false} LinkPut(l: LinkCode)
    ensures LinkCodec().put(l) == Codecs.Str().put(l.code) + Low(l.expiryUnix, 8)
  {
    hide Codecs.Str, Low;
    assert LinkCodec().put(l) == Pair(Codecs.Str(), U64()).put(LinkTo(l));
  }

  // What follows a kept frame's two numbers.
  ghost function TailPut(f: RingFrame): Bytes
    requires f.Kept?
  {
    Low(f.buffer, 4) + (Codecs.Flag().put(f.binary) +
    (Low(f.share, 8) + (Low(f.kind, 1) + (Codecs.Str().put(f.room) + Low(f.budgetSeq, 8)))))
  }

  lemma {:induction false} TailIs(f: RingFrame)
    requires f.Kept?
    ensures TailCodec(0).put(RingTo(f).1) == TailPut(f)
  {
    hide Low, Codecs.Str, Codecs.Flag, BufferIndex;
    IndexPut(f.buffer);
  }

  lemma {:induction false} IndexPut(v: nat)
    ensures BufferIndex(0).put(v) == Low(v, 4)
  {
    assert BufferIndex(0).put(v) == U32().put(Same(v));
  }

  // What a frame's two numbers and, with no gap, its tail are taken from.
  function GapOf(f: RingFrame): nat { if f.Gone? then f.gap else 0 }
  function Filled(f: RingFrame): RingFrame { if f.Kept? then f else Kept(f.number, 0, false, 0, 0, [], 0) }

  lemma {:induction false} HeadPut(n: nat, gap: nat)
    ensures Pair(U64(), U64()).put((n, gap)) == Low(n, 8) + Low(gap, 8)
  {
    hide Low;
  }

  lemma {:induction false} FramePut(f: RingFrame)
    ensures RingCodec(0).put(f) ==
            Low(f.number, 8) + Low(GapOf(f), 8) + if GapOf(f) == 0 then TailPut(Filled(f)) else []
  {
    hide U64, TailCodec, TailPut, Low;
    TailIs(Filled(f));
    var (head, t) := RingTo(f);
    assert RingCodec(0).put(f) == Pair(U64(), U64()).put(head) + TailAfter(0)(head).put(t);
    HeadPut(f.number, GapOf(f));
  }

  // ---- Written field by field ----

  lemma {:induction false} ListPut<T>(c: Codec<T>, xs: seq<T>)
    ensures List(c).put(xs) == Low(|xs|, 4) + PutAll(c, xs)
  {}

  lemma {:induction false} PutOn<T>(c: Codec<T>, xs: seq<T>, i: nat, start: Bytes, out: Bytes)
    requires i < |xs| && out == start + PutAll(c, xs[..i]) + c.put(xs[i])
    ensures out == start + PutAll(c, xs[..i + 1])
  {
    hide PutAll;
    assert xs[..i + 1] == xs[..i] + [xs[i]];
    PutSnoc(c, xs[..i], xs[i]);
  }

  lemma {:induction false} PutBegin<T>(c: Codec<T>, xs: seq<T>, before: Bytes, start: Bytes)
    requires start == before + Low(|xs|, 4)
    ensures start == start + PutAll(c, xs[..0]) && start + PutAll(c, xs) == before + List(c).put(xs) && xs[..|xs|] == xs
  {
    hide Low, PutAll, List;
    PutNone(c);
    ListPut(c, xs);
    assert xs[..0] == [];
    var head, all := Low(|xs|, 4), PutAll(c, xs);
    assert before + head + all == before + (head + all);
  }

  method WriteStrings(w: Writer, xs: seq<Bytes>)
    modifies w
    ensures w.out == old(w.out) + List(Codecs.Str()).put(xs)
  {
    hide PutAll, Low, Codecs.Str, List;
    w.Count(|xs|);
    ghost var start := w.out;
    PutBegin(Codecs.Str(), xs, old(w.out), start);
    for i := 0 to |xs|
      invariant w.out == start + PutAll(Codecs.Str(), xs[..i])
    {
      w.Str(xs[i]);
      PutOn(Codecs.Str(), xs, i, start, w.out);
    }
  }

  method WriteRoom(w: Writer, room: (Bytes, bool))
    modifies w
    ensures w.out == old(w.out) + Pair(Codecs.Str(), Codecs.Flag()).put(room)
  {
    hide Codecs.Str, Codecs.Flag, Pair;
    w.Str(room.0);
    w.Flag(room.1);
    PairPut(Codecs.Str(), Codecs.Flag(), room);
  }

  // One room after another, each with whether the device owns it.
  method WriteRooms(w: Writer, rooms: seq<(Bytes, bool)>)
    modifies w
    ensures w.out == old(w.out) + List(Pair(Codecs.Str(), Codecs.Flag())).put(rooms)
  {
    hide PutAll, Low, Codecs.Str, Codecs.Flag, Pair, List;
    ghost var c := Pair(Codecs.Str(), Codecs.Flag());
    w.Count(|rooms|);
    ghost var start := w.out;
    PutBegin(c, rooms, old(w.out), start);
    for i := 0 to |rooms|
      invariant w.out == start + PutAll(c, rooms[..i])
    {
      WriteRoom(w, rooms[i]);
      PutOn(c, rooms, i, start, w.out);
    }
  }

  method WriteSubscription(w: Writer, sub: (Bytes, seq<Bytes>))
    modifies w
    ensures w.out == old(w.out) + Pair(Codecs.Str(), List(Codecs.Str())).put(sub)
  {
    hide Codecs.Str, List, Pair;
    w.Str(sub.0);
    WriteStrings(w, sub.1);
    PairPut(Codecs.Str(), List(Codecs.Str()), sub);
  }

  // One room after another, each with the topics followed there.
  method WriteSubscriptions(w: Writer, subs: seq<(Bytes, seq<Bytes>)>)
    modifies w
    ensures w.out == old(w.out) + List(Pair(Codecs.Str(), List(Codecs.Str()))).put(subs)
  {
    hide PutAll, Low, Codecs.Str, Pair, List;
    ghost var c := Pair(Codecs.Str(), List(Codecs.Str()));
    w.Count(|subs|);
    ghost var start := w.out;
    PutBegin(c, subs, old(w.out), start);
    for i := 0 to |subs|
      invariant w.out == start + PutAll(c, subs[..i])
    {
      WriteSubscription(w, subs[i]);
      PutOn(c, subs, i, start, w.out);
    }
  }

  method WriteProof(w: Writer, p: Proof)
    modifies w
    ensures w.out == old(w.out) + ProofCodec().put(p)
  {
    hide Codecs.Str, I64, ProofCodec;
    w.Str(p.masterKey);
    w.Signed(p.tsMs);
    w.Str(p.sig);
    ProofPut(p);
    Flat5(old(w.out), Codecs.Str().put(p.masterKey), I64().put(p.tsMs), Codecs.Str().put(p.sig), [], []);
  }

  method WriteNickname(w: Writer, n: Nickname)
    modifies w
    ensures w.out == old(w.out) + NicknameCodec().put(n)
  {
    hide Codecs.Str, Codecs.Flag, Opt, ProofCodec, NicknameCodec, Low;
    w.Str(n.nickname);
    w.Number(n.expiryUnix, 8);
    w.Str(n.master);
    WriteOptProof(w, n.proof);
    NicknamePut(n);
    Flat5(old(w.out), Codecs.Str().put(n.nickname), Low(n.expiryUnix, 8), Codecs.Str().put(n.master),
          Opt(ProofCodec(), NO_PROOF).put(n.proof), []);
  }

  method WriteOptProof(w: Writer, p: Option<Proof>)
    modifies w
    ensures w.out == old(w.out) + Opt(ProofCodec(), NO_PROOF).put(p)
  {
    hide Codecs.Flag, Opt, ProofCodec;
    OptPut(ProofCodec(), NO_PROOF, p);
    w.Flag(p.Some?);
    if p.Some? { WriteProof(w, p.value); }
  }

  method WriteOptNickname(w: Writer, n: Option<Nickname>)
    modifies w
    ensures w.out == old(w.out) + Opt(NicknameCodec(), NO_NICKNAME).put(n)
  {
    hide Codecs.Flag, Opt, NicknameCodec;
    OptPut(NicknameCodec(), NO_NICKNAME, n);
    w.Flag(n.Some?);
    if n.Some? { WriteNickname(w, n.value); }
  }

  method WriteOptLink(w: Writer, l: Option<LinkCode>)
    modifies w
    ensures w.out == old(w.out) + Opt(LinkCodec(), NO_LINK).put(l)
  {
    hide Codecs.Str, Codecs.Flag, Opt, LinkCodec, Low;
    OptPut(LinkCodec(), NO_LINK, l);
    w.Flag(l.Some?);
    if l.Some? {
      LinkPut(l.value);
      w.Str(l.value.code);
      w.Number(l.value.expiryUnix, 8);
    }
  }

  method WriteHeld(w: Writer, s: SessionRec)
    modifies w
    ensures w.out == old(w.out) + HeldPart().put(SessionTo(s).1.0)
  {
    hide Codecs.Str, Codecs.Flag, List, Opt, NicknameCodec, LinkCodec;
    WriteRooms(w, s.rooms);
    WriteSubscriptions(w, s.subscriptions);
    WriteOptNickname(w, s.nickname);
    WriteOptLink(w, s.linkCode);
    Flat5(old(w.out), List(Pair(Codecs.Str(), Codecs.Flag())).put(s.rooms),
          List(Pair(Codecs.Str(), List(Codecs.Str()))).put(s.subscriptions),
          Opt(NicknameCodec(), NO_NICKNAME).put(s.nickname), Opt(LinkCodec(), NO_LINK).put(s.linkCode), []);
  }

  // A run of gone frames is its two numbers; a kept frame, all its fields.
  method WriteFrame(w: Writer, f: RingFrame)
    modifies w
    ensures w.out == old(w.out) + RingCodec(0).put(f)
  {
    hide Low, Codecs.Str, Codecs.Flag, RingCodec, TailCodec, TailPut;
    FramePut(f);
    w.Number(f.number, 8);
    w.Number(GapOf(f), 8);
    if GapOf(f) == 0 { WriteTail(w, Filled(f)); }
  }

  method WriteTail(w: Writer, f: RingFrame)
    requires f.Kept?
    modifies w
    ensures w.out == old(w.out) + TailPut(f)
  {
    hide Low, Codecs.Str, Codecs.Flag;
    w.Number(f.buffer, 4);
    w.Flag(f.binary);
    w.Number(f.share, 8);
    ghost var mid := w.out;
    w.Number(f.kind, 1);
    w.Str(f.room);
    w.Number(f.budgetSeq, 8);
    ghost var rest := Low(f.kind, 1) + (Codecs.Str().put(f.room) + Low(f.budgetSeq, 8));
    Flat5(mid, Low(f.kind, 1), Codecs.Str().put(f.room), Low(f.budgetSeq, 8), [], []);
    Flat5(old(w.out), Low(f.buffer, 4), Codecs.Flag().put(f.binary), Low(f.share, 8), rest, []);
  }

  method WriteFrames(w: Writer, fs: seq<RingFrame>)
    modifies w
    ensures w.out == old(w.out) + List(RingCodec(0)).put(fs)
  {
    hide PutAll, Low, RingCodec, List;
    w.Count(|fs|);
    ghost var start := w.out;
    PutBegin(RingCodec(0), fs, old(w.out), start);
    for i := 0 to |fs|
      invariant w.out == start + PutAll(RingCodec(0), fs[..i])
    {
      WriteFrame(w, fs[i]);
      PutOn(RingCodec(0), fs, i, start, w.out);
    }
  }

  method WriteRing(w: Writer, s: SessionRec)
    modifies w
    ensures w.out == old(w.out) + RingPart(0).put(SessionTo(s).1.1)
  {
    hide Low, List, RingCodec;
    ghost var start := w.out;
    w.Number(s.sent, 8);
    w.Number(s.acked, 8);
    WriteFrames(w, s.frames);
    Flat5(start, Low(s.sent, 8), Low(s.acked, 8), List(RingCodec(0)).put(s.frames), [], []);
  }

  method WriteSession(s: SessionRec) returns (bytes: Bytes)
    ensures bytes == EncodeSession(s)
  {
    hide Who, HeldPart, RingPart;
    var w := new Writer();
    WriteWho(w, s);
    WriteHeld(w, s);
    WriteRing(w, s);
    var p := SessionTo(s);
    Flat5([], Who().put(p.0), HeldPart().put(p.1.0), RingPart(0).put(p.1.1), [], []);
    assert SessionCodec(0).put(s) == Pair(Who(), Pair(HeldPart(), RingPart(0))).put(p);
    return w.out;
  }

  lemma {:induction false} Flat5(o: Bytes, a: Bytes, b: Bytes, c: Bytes, d: Bytes, e: Bytes)
    ensures o + a + b + c + d + e == o + (a + (b + (c + (d + e))))
    ensures o + a + b + c + d == o + (a + (b + (c + d)))
    ensures o + a + b + c == o + (a + (b + c))
  {}

  method ReadWho(r: Reader) returns (x: Option<Who5>)
    requires r.Valid()
    modifies r
    ensures r.Valid() && Took(Who().get(old(r.Left())), x, r.Left())
  {
    hide Codecs.Str, Codecs.Flag, Codecs.Number;
    var sid := r.Str();
    if sid.None? { return None; }
    var peer := r.Str();
    if peer.None? { return None; }
    var rest := ReadWhoEnd(r);
    if rest.None? { return None; }
    return Some((sid.value, (peer.value, rest.value)));
  }

  method ReadWhoEnd(r: Reader) returns (x: Option<(nat, (bool, nat))>)
    requires r.Valid()
    modifies r
    ensures r.Valid() && Took(Pair(U64(), Pair(Codecs.Flag(), U64())).get(old(r.Left())), x, r.Left())
  {
    hide Codecs.Flag, Codecs.Number;
    var share := r.Number(8);
    if share.None? { return None; }
    var inactive := r.Flag();
    if inactive.None? { return None; }
    var inH := r.Number(8);
    if inH.None? { return None; }
    return Some((share.value, (inactive.value, inH.value)));
  }

  // ---- Read field by field ----

  lemma {:induction false} PairGet<S, T>(a: Codec<S>, b: Codec<T>, bs: Bytes)
    ensures Pair(a, b).get(bs) ==
            match a.get(bs) {
              case Refused => Refused
              case Got(x, rest) => match b.get(rest) { case Refused => Refused case Got(y, left) => Got((x, y), left) }
            }
  {}

  lemma {:induction false} OptGet<T>(c: Codec<T>, absent: T, bs: Bytes)
    ensures Opt(c, absent).get(bs) ==
            match Codecs.Flag().get(bs) {
              case Refused => Refused
              case Got(has, rest) =>
                if !has then Got(None, rest)
                else match c.get(rest) { case Refused => Refused case Got(x, left) => Got(Some(x), left) }
            }
  {
    hide Codecs.Flag;
  }

  lemma {:induction false} ListGet<T>(c: Codec<T>, bs: Bytes)
    ensures List(c).get(bs) ==
            if |bs| < 4 || Val(bs[..4]) > |bs| - 4 then Refused else GetAll(c, Val(bs[..4]), bs[4..])
  {}

  // The records still to come once `got` are here.
  ghost predicate Reading<T>(c: Codec<T>, all: Got<seq<T>>, got: seq<T>, n: nat, left: Bytes) {
    all == Front(got, GetAll(c, n, left))
  }

  lemma {:induction false} ReadingBegins<T>(c: Codec<T>, n: nat, left: Bytes)
    ensures Reading(c, GetAll(c, n, left), [], n, left)
  {
    hide GetAll;
    GotFront([], GetAll(c, n, left));
  }

  // One more record, or the refusal that ends the reading.
  lemma {:induction false} ReadingOn<T>(c: Codec<T>, all: Got<seq<T>>, got: seq<T>, n: nat, left: Bytes)
    requires n > 0 && Reading(c, all, got, n, left)
    ensures match c.get(left)
            case Refused => all == Refused
            case Got(x, rest) => Reading(c, all, got + [x], n - 1, rest)
  {
    hide GetAll;
    GetNext(c, n, left);
    match c.get(left)
    case Refused =>
    case Got(x, rest) => FrontOn(got, x, GetAll(c, n - 1, rest));
  }

  lemma {:induction false} ReadingEnds<T>(c: Codec<T>, all: Got<seq<T>>, got: seq<T>, left: Bytes)
    requires Reading(c, all, got, 0, left)
    ensures all == Got(got, left)
  {
    GetNone(c, left);
    assert got + [] == got;
  }

  method ReadStrings(r: Reader) returns (xs: Option<seq<Bytes>>)
    requires r.Valid()
    modifies r
    ensures r.Valid() && Took(List(Codecs.Str()).get(old(r.Left())), xs, r.Left())
  {
    hide GetAll, Val, Codecs.Str, List, Reading;
    ghost var c, bs := Codecs.Str(), r.Left();
    ListGet(c, bs);
    var n := r.Count();
    if n.None? { return None; }
    ghost var all := GetAll(c, n.value, r.Left());
    var got: seq<Bytes> := [];
    ReadingBegins(c, n.value, r.Left());
    for i := 0 to n.value
      invariant r.Valid() && Reading(c, all, got, n.value - i, r.Left())
    {
      ReadingOn(c, all, got, n.value - i, r.Left());
      var x := r.Str();
      if x.None? { return None; }
      got := got + [x.value];
    }
    ReadingEnds(c, all, got, r.Left());
    return Some(got);
  }

  method ReadRoom(r: Reader) returns (x: Option<(Bytes, bool)>)
    requires r.Valid()
    modifies r
    ensures r.Valid() && Took(Pair(Codecs.Str(), Codecs.Flag()).get(old(r.Left())), x, r.Left())
  {
    hide Codecs.Str, Codecs.Flag, Pair;
    PairGet(Codecs.Str(), Codecs.Flag(), r.Left());
    var room := r.Str();
    if room.None? { return None; }
    var owner := r.Flag();
    if owner.None? { return None; }
    return Some((room.value, owner.value));
  }

  method ReadRooms(r: Reader) returns (xs: Option<seq<(Bytes, bool)>>)
    requires r.Valid()
    modifies r
    ensures r.Valid() && Took(List(Pair(Codecs.Str(), Codecs.Flag())).get(old(r.Left())), xs, r.Left())
  {
    hide GetAll, Val, Codecs.Str, Codecs.Flag, Pair, List, Reading;
    ghost var c, bs := Pair(Codecs.Str(), Codecs.Flag()), r.Left();
    ListGet(c, bs);
    var n := r.Count();
    if n.None? { return None; }
    ghost var all := GetAll(c, n.value, r.Left());
    var got: seq<(Bytes, bool)> := [];
    ReadingBegins(c, n.value, r.Left());
    for i := 0 to n.value
      invariant r.Valid() && Reading(c, all, got, n.value - i, r.Left())
    {
      ReadingOn(c, all, got, n.value - i, r.Left());
      var x := ReadRoom(r);
      if x.None? { return None; }
      got := got + [x.value];
    }
    ReadingEnds(c, all, got, r.Left());
    return Some(got);
  }

  method ReadSubscription(r: Reader) returns (x: Option<(Bytes, seq<Bytes>)>)
    requires r.Valid()
    modifies r
    ensures r.Valid() && Took(Pair(Codecs.Str(), List(Codecs.Str())).get(old(r.Left())), x, r.Left())
  {
    hide Codecs.Str, List, Pair;
    PairGet(Codecs.Str(), List(Codecs.Str()), r.Left());
    var room := r.Str();
    if room.None? { return None; }
    var topics := ReadStrings(r);
    if topics.None? { return None; }
    return Some((room.value, topics.value));
  }

  method ReadSubscriptions(r: Reader) returns (xs: Option<seq<(Bytes, seq<Bytes>)>>)
    requires r.Valid()
    modifies r
    ensures r.Valid() && Took(List(Pair(Codecs.Str(), List(Codecs.Str()))).get(old(r.Left())), xs, r.Left())
  {
    hide GetAll, Val, Codecs.Str, Pair, List, Reading;
    ghost var c, bs := Pair(Codecs.Str(), List(Codecs.Str())), r.Left();
    ListGet(c, bs);
    var n := r.Count();
    if n.None? { return None; }
    ghost var all := GetAll(c, n.value, r.Left());
    var got: seq<(Bytes, seq<Bytes>)> := [];
    ReadingBegins(c, n.value, r.Left());
    for i := 0 to n.value
      invariant r.Valid() && Reading(c, all, got, n.value - i, r.Left())
    {
      ReadingOn(c, all, got, n.value - i, r.Left());
      var x := ReadSubscription(r);
      if x.None? { return None; }
      got := got + [x.value];
    }
    ReadingEnds(c, all, got, r.Left());
    return Some(got);
  }

  lemma {:induction false} ProofGet(bs: Bytes)
    ensures ProofCodec().get(bs) ==
            match Pair(Codecs.Str(), Pair(I64(), Codecs.Str())).get(bs) {
              case Refused => Refused
              case Got(p, rest) => Got(ProofFrom(p), rest)
            }
  {
    hide Pair;
  }

  method ReadProof(r: Reader) returns (x: Option<Proof>)
    requires r.Valid()
    modifies r
    ensures r.Valid() && Took(ProofCodec().get(old(r.Left())), x, r.Left())
  {
    hide Codecs.Str, I64, ProofCodec;
    ProofGet(r.Left());
    var key := r.Str();
    if key.None? { return None; }
    var ts := r.Signed();
    if ts.None? { return None; }
    var sig := r.Str();
    if sig.None? { return None; }
    return Some(Proof(key.value, ts.value, sig.value));
  }

  method ReadOptProof(r: Reader) returns (x: Option<Option<Proof>>)
    requires r.Valid()
    modifies r
    ensures r.Valid() && Took(Opt(ProofCodec(), NO_PROOF).get(old(r.Left())), x, r.Left())
  {
    hide Codecs.Flag, Opt, ProofCodec;
    OptGet(ProofCodec(), NO_PROOF, r.Left());
    var has := r.Flag();
    if has.None? { return None; }
    if !has.value { return Some(None); }
    var p := ReadProof(r);
    if p.None? { return None; }
    return Some(Some(p.value));
  }

  lemma {:induction false} NicknameGet(bs: Bytes)
    ensures NicknameCodec().get(bs) ==
            match Pair(Codecs.Str(), Pair(U64(), Pair(Codecs.Str(), Opt(ProofCodec(), NO_PROOF)))).get(bs) {
              case Refused => Refused
              case Got(p, rest) => Got(NicknameFrom(p), rest)
            }
  {
    hide Pair, Opt, ProofCodec;
  }

  method ReadNickname(r: Reader) returns (x: Option<Nickname>)
    requires r.Valid()
    modifies r
    ensures r.Valid() && Took(NicknameCodec().get(old(r.Left())), x, r.Left())
  {
    hide Codecs.Str, Codecs.Number, Opt, ProofCodec, NicknameCodec;
    NicknameGet(r.Left());
    var nickname := r.Str();
    if nickname.None? { return None; }
    var expiry := r.Number(8);
    if expiry.None? { return None; }
    var master := r.Str();
    if master.None? { return None; }
    var proof := ReadOptProof(r);
    if proof.None? { return None; }
    return Some(Nickname(nickname.value, expiry.value, master.value, proof.value));
  }

  method ReadOptNickname(r: Reader) returns (x: Option<Option<Nickname>>)
    requires r.Valid()
    modifies r
    ensures r.Valid() && Took(Opt(NicknameCodec(), NO_NICKNAME).get(old(r.Left())), x, r.Left())
  {
    hide Codecs.Flag, Opt, NicknameCodec;
    OptGet(NicknameCodec(), NO_NICKNAME, r.Left());
    var has := r.Flag();
    if has.None? { return None; }
    if !has.value { return Some(None); }
    var n := ReadNickname(r);
    if n.None? { return None; }
    return Some(Some(n.value));
  }

  lemma {:induction false} LinkGet(bs: Bytes)
    ensures LinkCodec().get(bs) ==
            match Pair(Codecs.Str(), U64()).get(bs) {
              case Refused => Refused
              case Got(p, rest) => Got(LinkFrom(p), rest)
            }
  {
    hide Pair;
  }

  method ReadOptLink(r: Reader) returns (x: Option<Option<LinkCode>>)
    requires r.Valid()
    modifies r
    ensures r.Valid() && Took(Opt(LinkCodec(), NO_LINK).get(old(r.Left())), x, r.Left())
  {
    hide Codecs.Flag, Codecs.Str, Codecs.Number, Opt, LinkCodec;
    OptGet(LinkCodec(), NO_LINK, r.Left());
    var has := r.Flag();
    if has.None? { return None; }
    if !has.value { return Some(None); }
    LinkGet(r.Left());
    var code := r.Str();
    if code.None? { return None; }
    var expiry := r.Number(8);
    if expiry.None? { return None; }
    return Some(Some(LinkCode(code.value, expiry.value)));
  }

  method ReadHeld(r: Reader) returns (x: Option<Held4>)
    requires r.Valid()
    modifies r
    ensures r.Valid() && Took(HeldPart().get(old(r.Left())), x, r.Left())
  {
    hide Codecs.Str, Codecs.Flag, List, Opt, NicknameCodec, LinkCodec;
    var rooms := ReadRooms(r);
    if rooms.None? { return None; }
    var subs := ReadSubscriptions(r);
    if subs.None? { return None; }
    var nickname := ReadOptNickname(r);
    if nickname.None? { return None; }
    var link := ReadOptLink(r);
    if link.None? { return None; }
    return Some((rooms.value, (subs.value, (nickname.value, link.value))));
  }

  lemma {:induction false} IndexGet(bs: Bytes, buffers: nat)
    ensures BufferIndex(buffers).get(bs) ==
            match U32().get(bs) {
              case Refused => Refused
              case Got(v, rest) => if v < buffers then Got(v, rest) else Refused
            }
  {}

  method ReadTail(r: Reader, buffers: nat) returns (x: Option<Tail6>)
    requires r.Valid()
    modifies r
    ensures r.Valid() && Took(TailCodec(buffers).get(old(r.Left())), x, r.Left())
  {
    hide Codecs.Str, Codecs.Flag, Codecs.Number, BufferIndex;
    IndexGet(r.Left(), buffers);
    var buffer := r.Number(4);
    if buffer.None? || buffer.value >= buffers { return None; }
    var binary := r.Flag();
    if binary.None? { return None; }
    var share := r.Number(8);
    if share.None? { return None; }
    var rest := ReadTailEnd(r);
    if rest.None? { return None; }
    return Some((buffer.value, (binary.value, (share.value, rest.value))));
  }

  method ReadTailEnd(r: Reader) returns (x: Option<(nat, (Bytes, nat))>)
    requires r.Valid()
    modifies r
    ensures r.Valid() && Took(Pair(U8(), Pair(Codecs.Str(), U64())).get(old(r.Left())), x, r.Left())
  {
    hide Codecs.Str, Codecs.Number;
    var kind := r.Number(1);
    if kind.None? { return None; }
    var room := r.Str();
    if room.None? { return None; }
    var stamp := r.Number(8);
    if stamp.None? { return None; }
    return Some((kind.value, (room.value, stamp.value)));
  }

  // What a frame is read from: its two numbers, then its tail unless they name a gap.
  lemma {:induction false} FrameGet(bs: Bytes, buffers: nat)
    ensures RingCodec(buffers).get(bs) ==
            match Pair(U64(), U64()).get(bs) {
              case Refused => Refused
              case Got(head, rest) =>
                if head.1 != 0 then Got(Gone(head.0, head.1), rest)
                else match TailCodec(buffers).get(rest) {
                  case Refused => Refused
                  case Got(t, left) => Got(RingFrom((head, t)), left)
                }
            }
  {
    hide U64, Pair, TailCodec;
    var c := Then(Pair(U64(), U64()), TailAfter(buffers));
    ThenGet(Pair(U64(), U64()), TailAfter(buffers), bs);
    assert RingCodec(buffers).get(bs) ==
           match c.get(bs) {
             case Refused => Refused
             case Got(p, rest) => if RingOk(p) then Got(RingFrom(p), rest) else Refused
           };
  }

  lemma {:induction false} ThenGet<S, T>(a: Codec<S>, f: S -> Codec<T>, bs: Bytes)
    ensures Then(a, f).get(bs) ==
            match a.get(bs) {
              case Refused => Refused
              case Got(x, rest) =>
                match f(x).get(rest) {
                  case Refused => Refused
                  case Got(y, left) => Got((x, y), left)
                }
            }
  {}

  method ReadFrame(r: Reader, buffers: nat) returns (x: Option<RingFrame>)
    requires r.Valid()
    modifies r
    ensures r.Valid() && Took(RingCodec(buffers).get(old(r.Left())), x, r.Left())
  {
    hide Codecs.Number, TailCodec, RingCodec;
    FrameGet(r.Left(), buffers);
    var number := r.Number(8);
    if number.None? { return None; }
    var gap := r.Number(8);
    if gap.None? { return None; }
    if gap.value != 0 { return Some(Gone(number.value, gap.value)); }
    var t := ReadTail(r, buffers);
    if t.None? { return None; }
    return Some(RingFrom(((number.value, gap.value), t.value)));
  }

  method ReadFrames(r: Reader, buffers: nat) returns (xs: Option<seq<RingFrame>>)
    requires r.Valid()
    modifies r
    ensures r.Valid() && Took(List(RingCodec(buffers)).get(old(r.Left())), xs, r.Left())
  {
    hide GetAll, Val, RingCodec, List, Reading;
    ghost var c, bs := RingCodec(buffers), r.Left();
    ListGet(c, bs);
    var n := r.Count();
    if n.None? { return None; }
    ghost var all := GetAll(c, n.value, r.Left());
    var got: seq<RingFrame> := [];
    ReadingBegins(c, n.value, r.Left());
    for i := 0 to n.value
      invariant r.Valid() && Reading(c, all, got, n.value - i, r.Left())
    {
      ReadingOn(c, all, got, n.value - i, r.Left());
      var x := ReadFrame(r, buffers);
      if x.None? { return None; }
      got := got + [x.value];
    }
    ReadingEnds(c, all, got, r.Left());
    return Some(got);
  }

  method ReadRing(r: Reader, buffers: nat) returns (x: Option<Ring3>)
    requires r.Valid()
    modifies r
    ensures r.Valid() && Took(RingPart(buffers).get(old(r.Left())), x, r.Left())
  {
    hide List, Codecs.Number, RingCodec;
    var sent := r.Number(8);
    if sent.None? { return None; }
    var acked := r.Number(8);
    if acked.None? { return None; }
    var frames := ReadFrames(r, buffers);
    if frames.None? { return None; }
    return Some((sent.value, (acked.value, frames.value)));
  }

  method ReadSession(rec: Bytes, buffers: nat) returns (s: Option<SessionRec>)
    ensures s == ParseSession(rec, buffers)
  {
    hide Who, HeldPart, RingPart, SessionCodec, SessionFrom, Pair;
    var r := new Reader(rec);
    assert r.Left() == rec;
    SessionGet(rec, buffers);
    var p := ReadParts(r, buffers);
    if p.None? || r.pos != |r.input| { return None; }
    return Some(SessionFrom(p.value));
  }

  lemma {:induction false} SessionGet(rec: Bytes, buffers: nat)
    ensures SessionCodec(buffers).get(rec) ==
            match Pair(Who(), Pair(HeldPart(), RingPart(buffers))).get(rec) {
              case Refused => Refused
              case Got(p, rest) => Got(SessionFrom(p), rest)
            }
  {
    hide Who, HeldPart, RingPart, SessionFrom, Pair;
  }

  method ReadParts(r: Reader, buffers: nat) returns (x: Option<Session3>)
    requires r.Valid()
    modifies r
    ensures r.Valid() && Took(Pair(Who(), Pair(HeldPart(), RingPart(buffers))).get(old(r.Left())), x, r.Left())
  {
    hide Who, HeldPart, RingPart, Pair;
    PairGet(Who(), Pair(HeldPart(), RingPart(buffers)), r.Left());
    var who := ReadWho(r);
    if who.None? { return None; }
    PairGet(HeldPart(), RingPart(buffers), r.Left());
    var held := ReadHeld(r);
    if held.None? { return None; }
    var ring := ReadRing(r, buffers);
    if ring.None? { return None; }
    return Some((who.value, (held.value, ring.value)));
  }

  // ---- A whole snapshot ----

  method WriteCore(w: Writer, c: Core)
    modifies w
    ensures w.out == old(w.out) + CoreCodec(VERSION).put(c)
  {
    hide List, QueueCodec, OptinCodec, TopicCodec, TokenCodec, PrefCodec, KillCodec, MarkCodec, LockCodec;
    ghost var start := w.out;
    WriteList(w, QueueCodec(), c.dm);
    WriteList(w, OptinCodec(), c.optin);
    WriteList(w, TopicCodec(), c.topics);
    WriteList(w, TokenCodec(), c.tokens);
    ghost var half := w.out;
    WriteList(w, PrefCodec(), c.prefs);
    WriteList(w, KillCodec(), c.kills);
    WriteList(w, MarkCodec(), c.marks);
    WriteList(w, LockCodec(), c.locks);
    CoreFlat(start, half, w.out, c);
  }

  lemma {:induction false} CoreFlat(start: Bytes, half: Bytes, out: Bytes, c: Core)
    requires half == start + Queues().put(c.dm) + Optins().put(c.optin) + Topics().put(c.topics)
                     + Tokens().put(c.tokens)
    requires out == half + Prefs().put(c.prefs) + Kills(VERSION).put(c.kills) + Marks(VERSION).put(c.marks)
                    + Locks(VERSION).put(c.locks)
    ensures out == start + CoreCodec(VERSION).put(c)
  {
    hide Queues, Optins, Topics, Tokens, Prefs, Kills, Marks, Locks;
    var v, p := VERSION, CoreTo(c);
    var late := Late(v).put((c.kills, (c.marks, c.locks)));
    Flat5(half, Prefs().put(c.prefs), Kills(v).put(c.kills), Marks(v).put(c.marks), Locks(v).put(c.locks), []);
    var rest := Prefs().put(c.prefs) + late;
    assert out == half + rest;
    Flat5(start, Queues().put(c.dm), Optins().put(c.optin), Topics().put(c.topics), Tokens().put(c.tokens), rest);
    assert CoreCodec(v).put(c) == CoreParts(v).put(p);
    assert Pair(Tokens(), Pair(Prefs(), Late(v))).put(p.1.1.1) == Tokens().put(c.tokens) + rest;
  }

  // Each session's record, a string of its own.
  method EncodeSessions(ss: seq<SessionRec>) returns (recs: seq<Bytes>)
    ensures recs == Each1(ss, EncodeSession)
  {
    hide EncodeSession;
    recs := [];
    for i := 0 to |ss|
      invariant |recs| == i && forall j | 0 <= j < i :: recs[j] == EncodeSession(ss[j])
    {
      var rec := WriteSession(ss[i]);
      recs := recs + [rec];
    }
  }

  method WriteExtra(w: Writer, d: Data)
    modifies w
    ensures w.out == old(w.out) + ExtraCodec(VERSION, CoreOf(d)).put(ExtraOf(d))
  {
    hide List, RingMeta, SharesCodec, RosterCodec, Column, Codecs.Str, Codecs.Flag, ReportCodec, EncodeSession, CoreOf,
         SharesOf, TopicMeta;
    var c, e := CoreOf(d), ExtraOf(d);
    ghost var start := w.out;
    Write(w, RingMeta(VERSION, c), e.ringMeta);
    Write(w, SharesCodec(VERSION, c), e.shares);
    WriteList(w, RosterCodec(), e.rosters);
    WriteAll(w, Codecs.Flag(), e.proven);
    ghost var half := w.out;
    WriteList(w, Codecs.Str(), e.buffers);
    var recs := EncodeSessions(d.sessions);
    WriteList(w, Codecs.Str(), recs);
    w.Str(e.reportKey);
    WriteList(w, ReportCodec(), e.reportShares);
    LastColumn(c, e.proven);
    LastStrings(e);
    ExtraFlat(start, half, w.out, c, e);
  }

  lemma {:induction false} LastColumn(c: Core, proven: seq<bool>)
    ensures Proven(VERSION, c).put(proven) == PutAll(Codecs.Flag(), proven)
  {}

  lemma {:induction false} LastStrings(e: Extra)
    ensures SessionStrings(VERSION).put((e.buffers, e.sessions)) ==
              List(Codecs.Str()).put(e.buffers) + List(Codecs.Str()).put(e.sessions)
    ensures ReportKey(VERSION).put(e.reportKey) == Codecs.Str().put(e.reportKey)
  {
    hide List, Codecs.Str;
    assert ReportKey(VERSION).put(e.reportKey) == Codecs.Str().put(SameBytes(e.reportKey));
  }

  lemma {:induction false} ExtraFlat(start: Bytes, half: Bytes, out: Bytes, c: Core, e: Extra)
    requires half == start + RingMeta(VERSION, c).put(e.ringMeta) + SharesCodec(VERSION, c).put(e.shares)
                     + Rosters(VERSION).put(e.rosters) + Proven(VERSION, c).put(e.proven)
    requires out == half + List(Codecs.Str()).put(e.buffers) + List(Codecs.Str()).put(e.sessions)
                    + Codecs.Str().put(e.reportKey) + ReportShares(VERSION).put(e.reportShares)
    requires SessionStrings(VERSION).put((e.buffers, e.sessions)) ==
              List(Codecs.Str()).put(e.buffers) + List(Codecs.Str()).put(e.sessions)
    requires ReportKey(VERSION).put(e.reportKey) == Codecs.Str().put(e.reportKey)
    ensures out == start + ExtraCodec(VERSION, c).put(e)
  {
    hide RingMeta, SharesCodec, Rosters, Proven, SessionStrings, ReportKey, ReportShares, List, Codecs.Str;
    var v, p := VERSION, ExtraTo(e);
    var strings := SessionStrings(v).put((e.buffers, e.sessions));
    var tail := strings + (ReportKey(v).put(e.reportKey) + ReportShares(v).put(e.reportShares));
    assert out == half + tail;
    Flat5(start, RingMeta(v, c).put(e.ringMeta), SharesCodec(v, c).put(e.shares), Rosters(v).put(e.rosters),
          Proven(v, c).put(e.proven), tail);
    assert ExtraCodec(v, c).put(e) == ExtraParts(v, c).put(p);
    assert Last(v, c).put(p.1.1.1) == Proven(v, c).put(e.proven) + tail;
  }

  method EncodeSnapshot(d: Data) returns (bytes: Bytes)
    ensures bytes == Encode(d)
  {
    hide CoreCodec, ExtraCodec, CoreOf, ExtraOf, Low;
    var c := CoreOf(d);
    var w := new Writer();
    w.out := HEADER;
    w.Number(VERSION, 4);
    ghost var head := w.out;
    WriteCore(w, c);
    WriteExtra(w, d);
    w.out := w.out + TRAILER;
    assert Body(VERSION).put((c, ExtraOf(d))) == CoreCodec(VERSION).put(c) + ExtraCodec(VERSION, c).put(ExtraOf(d));
    Flat5(head, CoreCodec(VERSION).put(c), ExtraCodec(VERSION, c).put(ExtraOf(d)), TRAILER, [], []);
    return w.out;
  }

  method ReadMaybe<T(!new, ==)>(r: Reader, present: bool, c: Codec<T>) returns (xs: Option<seq<T>>)
    requires r.Valid() && Good(c) && Solid(c)
    modifies r
    ensures r.Valid() && Took(Maybe(present, List(c), []).get(old(r.Left())), xs, r.Left())
  {
    hide Good, Solid, List;
    if !present { return Some([]); }
    xs := ReadList(r, c);
  }

  method ReadCore(r: Reader, v: nat) returns (c: Option<Core>)
    requires r.Valid()
    modifies r
    ensures r.Valid() && Took(CoreCodec(v).get(old(r.Left())), c, r.Left())
  {
    hide Good, Solid, List, QueueCodec, OptinCodec, TopicCodec, Tokens, Prefs, Late;
    ghost var start := r.Left();
    QueueGood();
    TopicGood();
    var dm := ReadList(r, QueueCodec());
    if dm.None? { return None; }
    var optin := ReadList(r, OptinCodec());
    if optin.None? { return None; }
    var topics := ReadList(r, TopicCodec());
    if topics.None? { return None; }
    var rest := ReadPeers(r, v);
    if rest.None? { return None; }
    ghost var p := (dm.value, (optin.value, (topics.value, rest.value)));
    assert CoreParts(v).get(start) == Got(p, r.Left());
    return Some(CoreFrom((dm.value, (optin.value, (topics.value, rest.value)))));
  }

  method ReadPeers(r: Reader, v: nat) returns (x: Option<(seq<PushToken>, (seq<PushPref>, Core3))>)
    requires r.Valid()
    modifies r
    ensures r.Valid() && Took(Pair(Tokens(), Pair(Prefs(), Late(v))).get(old(r.Left())), x, r.Left())
  {
    hide Good, Solid, List, TokenCodec, PrefCodec, Late;
    PrefGood();
    var tokens := ReadList(r, TokenCodec());
    if tokens.None? { return None; }
    var prefs := ReadList(r, PrefCodec());
    if prefs.None? { return None; }
    var late := ReadLate(r, v);
    if late.None? { return None; }
    return Some((tokens.value, (prefs.value, late.value)));
  }

  method ReadLate(r: Reader, v: nat) returns (x: Option<Core3>)
    requires r.Valid()
    modifies r
    ensures r.Valid() && Took(Late(v).get(old(r.Left())), x, r.Left())
  {
    hide Good, Solid, List, Maybe, KillCodec, MarkCodec, LockCodec;
    ChargedGood();
    var kills := ReadMaybe(r, v >= 2, KillCodec());
    if kills.None? { return None; }
    var marks := ReadMaybe(r, v >= 3, MarkCodec());
    if marks.None? { return None; }
    var locks := ReadMaybe(r, v >= 4, LockCodec());
    if locks.None? { return None; }
    return Some((kills.value, (marks.value, locks.value)));
  }

  method ReadExtra(r: Reader, v: nat, c: Core) returns (e: Option<Extra>)
    requires r.Valid() && |c.topics| < U32_END && forall i | 0 <= i < |c.topics| :: |c.topics[i].frames| < U32_END
    modifies r
    ensures r.Valid() && Took(ExtraCodec(v, c).get(old(r.Left())), e, r.Left())
  {
    hide Good, Solid, Maybe, List, RingMeta, SharesCodec, RosterCodec, Last;
    ghost var start := r.Left();
    RingMetaGood(v, c);
    SharesGood(v, c);
    RosterGood();
    var meta := Take(r, RingMeta(v, c));
    if meta.None? { return None; }
    var shares := Take(r, SharesCodec(v, c));
    if shares.None? { return None; }
    var rosters := ReadMaybe(r, v >= 7, RosterCodec());
    if rosters.None? { return None; }
    var last := ReadLast(r, v, c);
    if last.None? { return None; }
    ghost var p := (meta.value, (shares.value, (rosters.value, last.value)));
    assert ExtraParts(v, c).get(start) == Got(p, r.Left());
    return Some(ExtraFrom((meta.value, (shares.value, (rosters.value, last.value)))));
  }

  method ReadLast(r: Reader, v: nat, c: Core) returns (x: Option<Extra4>)
    requires r.Valid()
    modifies r
    ensures r.Valid() && Took(Last(v, c).get(old(r.Left())), x, r.Left())
  {
    hide Good, Proven, SessionStrings, ReportKey, ReportShares;
    LastParts(v, c);
    var proven := Take(r, Proven(v, c));
    if proven.None? { return None; }
    var strings := Take(r, SessionStrings(v));
    if strings.None? { return None; }
    var reports := ReadReports(r, v);
    if reports.None? { return None; }
    return Some((proven.value, (strings.value, reports.value)));
  }

  method ReadReports(r: Reader, v: nat) returns (x: Option<(Bytes, seq<ReportShare>)>)
    requires r.Valid()
    modifies r
    ensures r.Valid() && Took(Pair(ReportKey(v), ReportShares(v)).get(old(r.Left())), x, r.Left())
  {
    hide Good, Solid, Maybe, List, ReportKey, ReportCodec;
    LastParts(v, Core([], [], [], [], [], [], [], []));
    ChargedGood();
    var key := Take(r, ReportKey(v));
    if key.None? { return None; }
    var shares := ReadMaybe(r, v >= 11, ReportCodec());
    if shares.None? { return None; }
    return Some((key.value, shares.value));
  }

  lemma {:induction false} LastParts(v: nat, c: Core)
    ensures Good(Proven(v, c)) && Good(SessionStrings(v)) && Good(ReportKey(v))
  {
    hide Good, Solid, Str, Flag, Pair, Column, List, As, Maybe;
    FieldsGood();
    ColumnGood(Codecs.Flag(), |c.kills|);
    MaybeGood(v >= 8, Column(Codecs.Flag(), |c.kills|), Fill(|c.kills|, false));
    ListGood(Codecs.Str());
    PairGood(List(Codecs.Str()), List(Codecs.Str()));
    MaybeGood(v >= 9, Pair(List(Codecs.Str()), List(Codecs.Str())), ([], []));
    AsGood(Codecs.Str(), SameBytes, SameBytes, IsReportKey, IsReportKey);
    MaybeGood(v >= 10, As(Codecs.Str(), SameBytes, SameBytes, IsReportKey, IsReportKey), []);
  }

  // A record that does not parse costs its session alone.
  method ReadSessions(recs: seq<Bytes>, buffers: nat) returns (ss: seq<SessionRec>, dropped: nat)
    ensures ss == ParseAll(recs, buffers) && dropped == Dropped(recs, buffers)
  {
    hide ParseSession;
    ss, dropped := [], 0;
    assert recs[0..] == recs;
    for i := 0 to |recs|
      invariant ParseAll(recs, buffers) == ss + ParseAll(recs[i..], buffers)
      invariant Dropped(recs, buffers) == dropped + Dropped(recs[i..], buffers)
    {
      assert recs[i..][0] == recs[i] && recs[i..][1..] == recs[i + 1..];
      var s := ReadSession(recs[i], buffers);
      if s.Some? { ss := ss + [s.value]; } else { dropped := dropped + 1; }
    }
  }

  method ReadSnapshot(bytes: Bytes) returns (raw: Option<Raw>)
    ensures raw == Read(bytes)
  {
    hide Good, CoreCodec, ExtraCodec, Codecs.Number;
    if |bytes| < 4 || bytes[..4] != HEADER { return None; }
    var r := new Reader(bytes);
    r.pos := 4;
    var v := r.Number(4);
    if v.None? || v.value < MIN_VERSION || v.value > VERSION { return None; }
    ghost var left := r.Left();
    CoreGood(v.value);
    var c := ReadCore(r, v.value);
    if c.None? { return None; }
    Was(CoreCodec(v.value), left);
    CoreBounds(v.value, c.value);
    var e := ReadExtra(r, v.value, c.value);
    if e.None? { return None; }
    if bytes[r.pos..] != TRAILER { return None; }
    return Some(Raw(v.value, c.value, e.value));
  }

  method DecodeSnapshot(bytes: Bytes) returns (out: Option<Decoded>)
    ensures out == Decode(bytes)
  {
    hide Read, ParseAll, Dropped;
    var raw := ReadSnapshot(bytes);
    if raw.None? { return None; }
    var c, e := raw.value.core, raw.value.extra;
    var ss, dropped := ReadSessions(e.sessions, |e.buffers|);
    return Some(Decoded(Assembled(c, e.(sessions := [])).(sessions := ss), dropped));
  }
}
