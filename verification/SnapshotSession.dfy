// relay-uws/src/snapshot_codec.h, encode_session and parse_session: the record of one
// session, which is a string by itself.
module SnapshotSessions {
  import opened Base
  import opened Codecs
  import opened Snapshots

  datatype Proof = Proof(masterKey: Bytes, tsMs: int, sig: Bytes)
  datatype Nickname = Nickname(nickname: Bytes, expiryUnix: nat, master: Bytes, proof: Option<Proof>)
  datatype LinkCode = LinkCode(code: Bytes, expiryUnix: nat)

  // A ring entry as it is written: so many numbers gone, or a frame whose bytes are the
  // snapshot's buffer of that index.
  datatype RingFrame =
    | Gone(number: nat, gap: nat)
    | Kept(number: nat, buffer: nat, binary: bool, share: nat, kind: nat, room: Bytes, budgetSeq: nat)

  datatype SessionRec = SessionRec(
    sid: Bytes,
    peerId: Bytes,
    share: nat,
    inactive: bool,
    inH: nat,
    rooms: seq<(Bytes, bool)>,
    subscriptions: seq<(Bytes, seq<Bytes>)>,
    nickname: Option<Nickname>,
    linkCode: Option<LinkCode>,
    sent: nat,
    acked: nat,
    frames: seq<RingFrame>
  )

  // ---- A ring's entries ----

  type Tail6 = (nat, (bool, (nat, (nat, (Bytes, nat)))))
  const NO_TAIL: Tail6 := (0, (false, (0, (0, ([], 0)))))

  function Same(v: nat): nat { v }
  function Under(n: nat): nat -> bool { (v: nat) => v < n }

  function BufferIndex(buffers: nat): Codec<nat> { As(U32(), Same, Same, Under(buffers), Under(buffers)) }

  function TailCodec(buffers: nat): Codec<Tail6> {
    Pair(BufferIndex(buffers), Pair(Flag(), Pair(U64(), Pair(U8(), Pair(Str(), U64())))))
  }

  // A gone run carries no more than its numbers.
  function TailAfter(buffers: nat): ((nat, nat)) -> Codec<Tail6> {
    (head: (nat, nat)) => Maybe(head.1 == 0, TailCodec(buffers), NO_TAIL)
  }

  function RingTo(x: RingFrame): ((nat, nat), Tail6) {
    match x
    case Gone(n, g) => ((n, g), NO_TAIL)
    case Kept(n, b, bin, share, kind, room, stamp) => ((n, 0), (b, (bin, (share, (kind, (room, stamp))))))
  }
  function RingFrom(p: ((nat, nat), Tail6)): RingFrame {
    var (head, t) := p;
    if head.1 != 0 then Gone(head.0, head.1)
    else Kept(head.0, t.0, t.1.0, t.1.1.0, t.1.1.1.0, t.1.1.1.1.0, t.1.1.1.1.1)
  }
  predicate RingFits(x: RingFrame) { x.Gone? ==> x.gap != 0 }
  predicate RingOk(p: ((nat, nat), Tail6)) { p.0.1 == 0 || p.1 == NO_TAIL }

  function RingCodec(buffers: nat): Codec<RingFrame> {
    As(Then(Pair(U64(), U64()), TailAfter(buffers)), RingTo, RingFrom, RingFits, RingOk)
  }

  lemma {:induction false} RingGood(buffers: nat)
    ensures Good(RingCodec(buffers)) && Solid(RingCodec(buffers))
  {
    hide Good, Solid, Str, U8, U32, U64, Flag, Pair, Then, As, Maybe;
    FieldsGood();
    AsGood(U32(), Same, Same, Under(buffers), Under(buffers));
    Good3(U8(), Str(), U64());
    Good4(BufferIndex(buffers), Flag(), U64(), Pair(U8(), Pair(Str(), U64())));
    PairGood(U64(), U64());
    MaybeGood(true, TailCodec(buffers), NO_TAIL);
    MaybeGood(false, TailCodec(buffers), NO_TAIL);
    ThenGood(Pair(U64(), U64()), TailAfter(buffers));
    RingUndoes();
    AsGood(Then(Pair(U64(), U64()), TailAfter(buffers)), RingTo, RingFrom, RingFits, RingOk);
  }

  lemma {:induction false} RingUndoes()
    ensures Undo(RingTo, RingFrom, RingFits, RingOk)
  {}

  // ---- The session ----

  type Proof3 = (Bytes, (int, Bytes))
  function ProofTo(x: Proof): Proof3 { (x.masterKey, (x.tsMs, x.sig)) }
  function ProofFrom(p: Proof3): Proof { Proof(p.0, p.1.0, p.1.1) }
  function ProofCodec(): Codec<Proof> { As(Pair(Str(), Pair(I64(), Str())), ProofTo, ProofFrom, Any, Any) }
  const NO_PROOF := Proof([], 0, [])

  type Nickname4 = (Bytes, (nat, (Bytes, Option<Proof>)))
  function NicknameTo(x: Nickname): Nickname4 { (x.nickname, (x.expiryUnix, (x.master, x.proof))) }
  function NicknameFrom(p: Nickname4): Nickname { Nickname(p.0, p.1.0, p.1.1.0, p.1.1.1) }
  function NicknameCodec(): Codec<Nickname> {
    As(Pair(Str(), Pair(U64(), Pair(Str(), Opt(ProofCodec(), NO_PROOF)))), NicknameTo, NicknameFrom, Any, Any)
  }
  const NO_NICKNAME := Nickname([], 0, [], None)

  function LinkTo(x: LinkCode): (Bytes, nat) { (x.code, x.expiryUnix) }
  function LinkFrom(p: (Bytes, nat)): LinkCode { LinkCode(p.0, p.1) }
  function LinkCodec(): Codec<LinkCode> { As(Pair(Str(), U64()), LinkTo, LinkFrom, Any, Any) }
  const NO_LINK := LinkCode([], 0)

  lemma {:induction false} OptionalsGood()
    ensures Good(Opt(NicknameCodec(), NO_NICKNAME)) && Solid(Opt(NicknameCodec(), NO_NICKNAME))
    ensures Good(Opt(LinkCodec(), NO_LINK)) && Solid(Opt(LinkCodec(), NO_LINK))
  {
    hide Good, Solid, Str, U64, I64, Pair, As, Opt;
    FieldsGood();
    Good3(Str(), I64(), Str());
    AsGood(Pair(Str(), Pair(I64(), Str())), ProofTo, ProofFrom, Any<Proof>, Any<Proof3>);
    OptGood(ProofCodec(), NO_PROOF);
    Good4(Str(), U64(), Str(), Opt(ProofCodec(), NO_PROOF));
    AsGood(Pair(Str(), Pair(U64(), Pair(Str(), Opt(ProofCodec(), NO_PROOF)))), NicknameTo, NicknameFrom,
           Any<Nickname>, Any<Nickname4>);
    OptGood(NicknameCodec(), NO_NICKNAME);
    PairGood(Str(), U64());
    AsGood(Pair(Str(), U64()), LinkTo, LinkFrom, Any<LinkCode>, Any<(Bytes, nat)>);
    OptGood(LinkCodec(), NO_LINK);
  }

  type Who5 = (Bytes, (Bytes, (nat, (bool, nat))))
  type Held4 = (seq<(Bytes, bool)>, (seq<(Bytes, seq<Bytes>)>, (Option<Nickname>, Option<LinkCode>)))
  type Ring3 = (nat, (nat, seq<RingFrame>))
  type Session3 = (Who5, (Held4, Ring3))

  function Who(): Codec<Who5> { Pair(Str(), Pair(Str(), Pair(U64(), Pair(Flag(), U64())))) }
  function HeldPart(): Codec<Held4> {
    Pair(List(Pair(Str(), Flag())),
         Pair(List(Pair(Str(), List(Str()))),
              Pair(Opt(NicknameCodec(), NO_NICKNAME), Opt(LinkCodec(), NO_LINK))))
  }
  function RingPart(buffers: nat): Codec<Ring3> { Pair(U64(), Pair(U64(), List(RingCodec(buffers)))) }

  function SessionTo(x: SessionRec): Session3 {
    ((x.sid, (x.peerId, (x.share, (x.inactive, x.inH)))),
     ((x.rooms, (x.subscriptions, (x.nickname, x.linkCode))), (x.sent, (x.acked, x.frames))))
  }
  function SessionFrom(p: Session3): SessionRec {
    var w, h, r := p.0, p.1.0, p.1.1;
    SessionRec(w.0, w.1.0, w.1.1.0, w.1.1.1.0, w.1.1.1.1, h.0, h.1.0, h.1.1.0, h.1.1.1, r.0, r.1.0, r.1.1)
  }

  lemma {:induction false} SessionBack(x: SessionRec)
    ensures SessionFrom(SessionTo(x)) == x
  {}

  lemma {:induction false} SessionParts(p: Session3)
    ensures SessionTo(SessionFrom(p)) == p
  {}

  lemma {:induction false} SessionUndoes()
    ensures Undo(SessionTo, SessionFrom, Any<SessionRec>, Any<Session3>)
  {
    hide SessionTo, SessionFrom;
    forall x ensures SessionFrom(SessionTo(x)) == x { SessionBack(x); }
    forall p ensures SessionTo(SessionFrom(p)) == p { SessionParts(p); }
  }

  function SessionCodec(buffers: nat): Codec<SessionRec> {
    As(Pair(Who(), Pair(HeldPart(), RingPart(buffers))), SessionTo, SessionFrom, Any, Any)
  }

  lemma {:induction false} WhoGood()
    ensures Good(Who()) && Solid(Who())
  {
    hide Good, Solid, Str, U64, Flag, Pair;
    FieldsGood();
    Good5(Str(), Str(), U64(), Flag(), U64());
  }

  lemma {:induction false} HeldGood()
    ensures Good(HeldPart())
  {
    hide Good, Solid, Str, Flag, Pair, List, Opt, NicknameCodec, LinkCodec;
    FieldsGood();
    PairGood(Str(), Flag());
    ListGood(Pair(Str(), Flag()));
    ListGood(Str());
    PairGood(Str(), List(Str()));
    ListGood(Pair(Str(), List(Str())));
    OptionalsGood();
    Good4(List(Pair(Str(), Flag())), List(Pair(Str(), List(Str()))), Opt(NicknameCodec(), NO_NICKNAME),
          Opt(LinkCodec(), NO_LINK));
  }

  lemma {:induction false} RingPartGood(buffers: nat)
    ensures Good(RingPart(buffers))
  {
    hide Good, Solid, U64, Pair, List, RingCodec;
    FieldsGood();
    RingGood(buffers);
    ListGood(RingCodec(buffers));
    Good3(U64(), U64(), List(RingCodec(buffers)));
  }

  lemma {:induction false} SessionGood(buffers: nat)
    ensures Good(SessionCodec(buffers))
  {
    hide Good, Solid, Pair, As, Who, HeldPart, RingPart;
    WhoGood();
    HeldGood();
    RingPartGood(buffers);
    Good3(Who(), HeldPart(), RingPart(buffers));
    SessionUndoes();
    AsGood(Pair(Who(), Pair(HeldPart(), RingPart(buffers))), SessionTo, SessionFrom, Any<SessionRec>, Any<Session3>);
  }

  function EncodeSession(s: SessionRec): Bytes {
    SessionCodec(0).put(s)
  }

  // How a session is written does not depend on how many buffers there are.
  lemma {:induction false} SamePut(s: SessionRec, buffers: nat)
    ensures SessionCodec(buffers).put(s) == EncodeSession(s)
  {
    hide RingPart, Who, HeldPart;
    var (w, (h, r)) := SessionTo(s);
    SameRingPart(r, buffers);
    assert SessionCodec(buffers).put(s) == Who().put(w) + (HeldPart().put(h) + RingPart(buffers).put(r));
    assert SessionCodec(0).put(s) == Who().put(w) + (HeldPart().put(h) + RingPart(0).put(r));
  }

  lemma {:induction false} SameRingPart(r: Ring3, buffers: nat)
    ensures RingPart(buffers).put(r) == RingPart(0).put(r)
  {
    hide U64, RingCodec, Low;
    SamePuts(r.1.1, buffers);
  }

  lemma {:induction false} SamePuts(xs: seq<RingFrame>, buffers: nat)
    ensures PutAll(RingCodec(buffers), xs) == PutAll(RingCodec(0), xs)
  {
    if xs != [] {
      SameRing(xs[0], buffers);
      hide RingCodec;
      SamePuts(xs[1..], buffers);
    }
  }

  lemma {:induction false} SameRing(x: RingFrame, buffers: nat)
    ensures RingCodec(buffers).put(x) == RingCodec(0).put(x)
  {
    hide U64, TailCodec;
    var (head, t) := RingTo(x);
    SameTail(t, buffers);
    assert RingCodec(buffers).put(x) == Pair(U64(), U64()).put(head) + TailAfter(buffers)(head).put(t);
    assert RingCodec(0).put(x) == Pair(U64(), U64()).put(head) + TailAfter(0)(head).put(t);
    assert TailAfter(buffers)(head).put(t) == TailAfter(0)(head).put(t);
  }

  lemma {:induction false} SameTail(t: Tail6, buffers: nat)
    ensures TailCodec(buffers).put(t) == TailCodec(0).put(t)
  {
    hide U64, U32, U8, Flag, Str;
    assert BufferIndex(buffers).put(t.0) == U32().put(t.0) == BufferIndex(0).put(t.0);
  }

  // The session a whole record is read as; none if bytes are left over or an index is not
  // below `buffers`.
  function ParseSession(rec: Bytes, buffers: nat): Option<SessionRec> {
    match SessionCodec(buffers).get(rec)
    case Refused => None
    case Got(s, rest) => if rest == [] then Some(s) else None
  }

  ghost predicate SessionFits(s: SessionRec, buffers: nat) {
    SessionCodec(buffers).fits(s)
  }

  // A session that fits parses back from its record, and nothing else parses to it.
  lemma {:induction false} SessionRoundTrip(s: SessionRec, rec: Bytes, buffers: nat)
    ensures SessionFits(s, buffers) ==> ParseSession(EncodeSession(s), buffers) == Some(s)
    ensures ParseSession(rec, buffers) == Some(s) <==> SessionFits(s, buffers) && rec == EncodeSession(s)
  {
    SessionGood(buffers);
    SamePut(s, buffers);
    hide SessionCodec, EncodeSession;
    var c := SessionCodec(buffers);
    var bs := EncodeSession(s);
    assert bs + [] == bs;
    if c.fits(s) { assert c.get(c.put(s) + []) == Got(s, []); }
    if c.get(rec).Got? { assert c.get(rec).rest == [] ==> rec == c.put(c.get(rec).value); }
  }
}
