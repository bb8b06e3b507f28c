// The bytes of a snapshot (relay-uws/src/snapshot_codec.h, encode), field after field in the
// order they stand, without any codec: what the round trips alone would leave open.
module SnapshotLayouts {
  import opened Base
  import opened Codecs
  import opened Snapshots
  import opened SnapshotSessions
  import opened SnapshotBodies
  import opened SnapshotDatas

  // ---- Fields ----

  function Text(s: Bytes): Bytes { Low(|s|, 4) + s }
  function Mark1(b: bool): Bytes { [if b then 1 else 0] }

  // Two's complement in eight bytes.
  function Int8(v: int): Bytes {
    Low(if v >= 0 then v else if v >= -0x1_0000_0000_0000_0000 then v + 0x1_0000_0000_0000_0000 else 0, 8)
  }

  function All<T>(xs: seq<T>, f: T -> Bytes): Bytes {
    if xs == [] then [] else f(xs[0]) + All(xs[1..], f)
  }

  // A count, then each.
  function Items<T>(xs: seq<T>, f: T -> Bytes): Bytes { Low(|xs|, 4) + All(xs, f) }

  // A mark, then what it says is there.
  function Maybe1<T>(x: Option<T>, f: T -> Bytes): Bytes {
    Mark1(x.Some?) + if x.Some? then f(x.value) else []
  }

  // ---- Records ----

  function DmBytes(f: DmFrame): Bytes {
    var x := f.core;
    Text(x.room) + (Text(x.frame) + (Text(x.sender) +
    (Low(x.ageSecs, 4) + (Mark1(x.isImage) + (Mark1(x.isChannel) + Low(x.number, 8))))))
  }
  function QueueBytes(q: DmQueue): Bytes { Text(q.target) + Items(q.frames, DmBytes) }
  function OptinBytes(x: Optin): Bytes { Text(x.peer) + Int8(x.retentionSecs) }
  function FrameBytes(f: TopicFrame): Bytes {
    Text(f.core.frame) + (Text(f.core.sender) + (Low(f.core.ageSecs, 4) + Low(f.core.number, 8)))
  }
  function TopicBytes(t: Topic): Bytes {
    Text(t.key) + (Mark1(t.accepting) + (Int8(t.retentionSecs) +
    (Low(t.registeredAgeSecs, 4) + Items(t.frames, FrameBytes))))
  }
  function TokenBytes(x: PushToken): Bytes { Text(x.peer) + (Text(x.token) + Text(x.platform)) }
  function ChannelBytes(x: ChannelPref): Bytes { Text(x.channel) + Text(x.level) }
  function ServerBytes(x: ServerPref): Bytes { Text(x.server) + (Text(x.level) + Items(x.channels, ChannelBytes)) }
  function PrefBytes(x: PushPref): Bytes { Text(x.peer) + Items(x.servers, ServerBytes) }
  function KillBytes(k: Kill): Bytes {
    Text(k.core.target) + (Text(k.core.issuer) + (Text(k.core.blob) +
    (Int8(k.core.issuedAtMs) + Low(k.core.ageSecs, 4))))
  }
  function MarkBytes(m: Mark): Bytes { Text(m.core.master) + Low(m.core.version, 8) }
  function LockBytes(l: Lock): Bytes { Text(l.core.key) + Text(l.core.linksJson) }
  function SeenBytes(x: RosterSeen): Bytes { Text(x.device) + Low(x.ageSecs, 4) }
  function RosterBytes(x: RosterRec): Bytes {
    Text(x.master) + (Text(x.json) + (Low(x.share, 8) + Items(x.seen, SeenBytes)))
  }
  function RegistrationBytes(x: Registration): Bytes { Text(x.peer) + Low(x.share, 8) }
  function ReportBytes(x: ReportShare): Bytes { Text(x.key) + Low(x.share, 8) }

  // Retentions and shares, in columns beside the records above.
  function RetentionBytes(t: Topic): Bytes { Items(t.frames, (f: TopicFrame) => Int8(f.retentionSecs)) }
  function QueueShareBytes(q: DmQueue): Bytes { All(q.frames, (f: DmFrame) => Low(f.share, 8)) }
  function TopicShareBytes(t: Topic): Bytes { Low(t.share, 8) + All(t.frames, (f: TopicFrame) => Low(f.share, 8)) }
  function KillShareBytes(k: Kill): Bytes { Low(k.share, 8) }
  function MarkShareBytes(m: Mark): Bytes { Low(m.share, 8) }
  function LockShareBytes(l: Lock): Bytes { Low(l.share, 8) }
  function ProvenBytes(k: Kill): Bytes { Mark1(k.proven) }

  // ---- A session ----

  function RoomBytes(r: (Bytes, bool)): Bytes { Text(r.0) + Mark1(r.1) }
  function TopicsBytes(r: (Bytes, seq<Bytes>)): Bytes { Text(r.0) + Items(r.1, Text) }
  function ProofBytes(x: Proof): Bytes { Text(x.masterKey) + (Int8(x.tsMs) + Text(x.sig)) }
  function NicknameBytes(x: Nickname): Bytes {
    Text(x.nickname) + (Low(x.expiryUnix, 8) + (Text(x.master) + Maybe1(x.proof, ProofBytes)))
  }
  function LinkBytes(x: LinkCode): Bytes { Text(x.code) + Low(x.expiryUnix, 8) }
  function RingBytes(f: RingFrame): Bytes {
    match f
    case Gone(n, gap) => Low(n, 8) + Low(gap, 8)
    case Kept(n, buffer, binary, share, kind, room, stamp) =>
      Low(n, 8) + Low(0, 8) +
      (Low(buffer, 4) + (Mark1(binary) + (Low(share, 8) + (Low(kind, 1) + (Text(room) + Low(stamp, 8))))))
  }
  function SessionBytes(s: SessionRec): Bytes {
    Text(s.sid) + (Text(s.peerId) + (Low(s.share, 8) + (Mark1(s.inactive) + Low(s.inH, 8)))) +
    (Items(s.rooms, RoomBytes) + (Items(s.subscriptions, TopicsBytes) +
     (Maybe1(s.nickname, NicknameBytes) + Maybe1(s.linkCode, LinkBytes))) +
     (Low(s.sent, 8) + (Low(s.acked, 8) + Items(s.frames, RingBytes))))
  }
  function SessionText(s: SessionRec): Bytes { Text(SessionBytes(s)) }

  // ---- The snapshot ----

  // The lists, then what later versions added.
  function ListBytes(d: Data): Bytes {
    Items(d.dm, QueueBytes) + (Items(d.optin, OptinBytes) + (Items(d.topics, TopicBytes) +
    (Items(d.tokens, TokenBytes) + (Items(d.prefs, PrefBytes) +
    (Items(d.kills, KillBytes) + (Items(d.marks, MarkBytes) + Items(d.locks, LockBytes)))))))
  }

  function ShareBytes(d: Data): Bytes {
    All(d.dm, QueueShareBytes) + (All(d.topics, TopicShareBytes) + (All(d.kills, KillShareBytes) +
    (All(d.marks, MarkShareBytes) + (All(d.locks, LockShareBytes) + Items(d.registrations, RegistrationBytes)))))
  }

  function LaterBytes(d: Data): Bytes {
    Items(d.topics, RetentionBytes) + (ShareBytes(d) + (Items(d.rosters, RosterBytes) +
    (All(d.kills, ProvenBytes) + (Items(d.buffers, Text) + Items(d.sessions, SessionText) +
    (Text(d.reportKey) + Items(d.reportShares, ReportBytes))))))
  }

  function Layout(d: Data): Bytes {
    [0x48, 0x52, 0x53, 0x4E] + Low(11, 4) + (ListBytes(d) + LaterBytes(d)) + [0x48, 0x52, 0x53, 0x45]
  }

  // ---- What the codecs put ----

  lemma {:induction false} PairPut<A, B>(a: Codec<A>, b: Codec<B>, x: A, y: B)
    ensures Pair(a, b).put((x, y)) == a.put(x) + b.put(y)
  {}

  lemma {:induction false} Put3<A, B, C>(a: Codec<A>, b: Codec<B>, c: Codec<C>, x: A, y: B, z: C)
    ensures Pair(a, Pair(b, c)).put((x, (y, z))) == a.put(x) + (b.put(y) + c.put(z))
  {
    hide Pair;
    PairPut(b, c, y, z);
    PairPut(a, Pair(b, c), x, (y, z));
  }

  lemma {:induction false} Put4<A, B, C, D>(a: Codec<A>, b: Codec<B>, c: Codec<C>, d: Codec<D>, x: A, y: B, z: C, u: D)
    ensures Pair(a, Pair(b, Pair(c, d))).put((x, (y, (z, u)))) == a.put(x) + (b.put(y) + (c.put(z) + d.put(u)))
  {
    hide Pair;
    Put3(b, c, d, y, z, u);
    PairPut(a, Pair(b, Pair(c, d)), x, (y, (z, u)));
  }

  lemma {:induction false} Put5<A, B, C, D, E>(a: Codec<A>, b: Codec<B>, c: Codec<C>, d: Codec<D>, e: Codec<E>, x: A,
                                               y: B, z: C, u: D, v: E)
    ensures Pair(a, Pair(b, Pair(c, Pair(d, e)))).put((x, (y, (z, (u, v))))) ==
            a.put(x) + (b.put(y) + (c.put(z) + (d.put(u) + e.put(v))))
  {
    hide Pair;
    Put4(b, c, d, e, y, z, u, v);
    PairPut(a, Pair(b, Pair(c, Pair(d, e))), x, (y, (z, (u, v))));
  }

  lemma {:induction false} AsPut<S, T>(a: Codec<S>, of: T -> S, back: S -> T, fits: T -> bool, ok: S -> bool, x: T)
    ensures As(a, of, back, fits, ok).put(x) == a.put(of(x))
  {}

  lemma {:induction false} FieldsPut()
    ensures forall s: Bytes :: Str().put(s) == Text(s)
    ensures forall v: nat :: U8().put(v) == Low(v, 1) && U32().put(v) == Low(v, 4) && U64().put(v) == Low(v, 8)
    ensures forall b: bool :: Flag().put(b) == Mark1(b)
    ensures forall v: int :: I64().put(v) == Int8(v)
  {
    forall b: bool ensures Flag().put(b) == Mark1(b) { assert Low(Bit(b), 1) == [Bit(b) % 256] + Low(Bit(b) / 256, 0); }
    forall v: int ensures I64().put(v) == Int8(v) { assert I64().put(v) == Low(Unsigned(v), 8); }
  }

  // What is put of a list of things is each one's bytes.
  lemma {:induction false} PutIs<S, T>(c: Codec<S>, ys: seq<S>, xs: seq<T>, f: T -> Bytes)
    requires |ys| == |xs| && forall i | 0 <= i < |xs| :: c.put(ys[i]) == f(xs[i])
    ensures PutAll(c, ys) == All(xs, f) && List(c).put(ys) == Items(xs, f)
  {
    if xs != [] { PutIs(c, ys[1..], xs[1..], f); }
  }

  lemma {:induction false} EachIs<S, T>(c: nat -> Codec<S>, ns: seq<nat>, ys: seq<S>, xs: seq<T>, f: T -> Bytes)
    requires |ys| == |xs| == |ns| && forall i | 0 <= i < |xs| :: c(ns[i]).put(ys[i]) == f(xs[i])
    ensures PutEach(c, ns, ys) == All(xs, f) && Each(c, ns).put(ys) == All(xs, f)
  {
    if xs != [] { EachIs(c, ns[1..], ys[1..], xs[1..], f); }
  }

  // ---- Record by record ----

  lemma {:induction false} DmPut(f: DmFrame)
    ensures DmCodec().put(f.core) == DmBytes(f)
  {
    hide Str, U32, U64, Flag, Low, Text, Mark1, Pair, As;
    FieldsPut();
    var x, late := f.core, Pair(U32(), Pair(Flag(), Pair(Flag(), U64())));
    AsPut(Pair(Str(), Pair(Str(), Pair(Str(), late))), DmTo, DmFrom, Any<DmCore>, Any<Dm7>, x);
    Put4(U32(), Flag(), Flag(), U64(), x.ageSecs, x.isImage, x.isChannel, x.number);
    Put4(Str(), Str(), Str(), late, x.room, x.frame, x.sender, (x.ageSecs, (x.isImage, (x.isChannel, x.number))));
  }

  lemma {:induction false} QueuePut(q: DmQueue)
    ensures QueueCodec().put(QueueCore(q)) == QueueBytes(q)
  {
    hide Str, DmCodec, Low, Text, DmBytes, List, Items, Pair, As;
    FieldsPut();
    var x := QueueCore(q);
    AsPut(Pair(Str(), List(DmCodec())), QueueTo, QueueFrom, Any<DmQueueCore>, Any<(Bytes, seq<DmCore>)>, x);
    PairPut(Str(), List(DmCodec()), x.target, x.frames);
    forall i | 0 <= i < |q.frames| ensures DmCodec().put(x.frames[i]) == DmBytes(q.frames[i]) { DmPut(q.frames[i]); }
    PutIs(DmCodec(), x.frames, q.frames, DmBytes);
  }

  lemma {:induction false} KillPut(k: Kill)
    ensures KillCodec().put(k.core) == KillBytes(k)
  {
    hide Str, U32, I64, Low, Text, Pair, As;
    FieldsPut();
    var x := k.core;
    AsPut(Pair(Str(), Pair(Str(), Pair(Str(), Pair(I64(), U32())))), KillTo, KillFrom, Any<KillCore>, Any<Kill5>, x);
    Put5(Str(), Str(), Str(), I64(), U32(), x.target, x.issuer, x.blob, x.issuedAtMs, x.ageSecs);
  }

  lemma {:induction false} TopicPut(t: Topic)
    ensures TopicCodec().put(TopicPart(t)) == TopicBytes(t)
  {
    hide Str, U32, U64, I64, Flag, Low, Text, Mark1, Int8, List, Items, Pair, As, FrameBytes;
    FieldsPut();
    var x := TopicPart(t);
    var all := Pair(Str(), Pair(Flag(), Pair(I64(), Pair(U32(), List(FrameCodec())))));
    AsPut(all, TopicTo, TopicFrom, Any<TopicCore>, Any<Topic5>, x);
    Put5(Str(), Flag(), I64(), U32(), List(FrameCodec()), x.key, x.accepting, x.retentionSecs, x.registeredAgeSecs,
         x.frames);
    forall i | 0 <= i < |t.frames| ensures FrameCodec().put(x.frames[i]) == FrameBytes(t.frames[i]) {
      FramePut(t.frames[i]);
    }
    hide FrameCodec;
    PutIs(FrameCodec(), x.frames, t.frames, FrameBytes);
  }

  lemma {:induction false} FramePut(f: TopicFrame)
    ensures FrameCodec().put(f.core) == FrameBytes(f)
  {
    hide Str, U32, U64, Low, Text, Pair, As;
    FieldsPut();
    var x := f.core;
    AsPut(Pair(Str(), Pair(Str(), Pair(U32(), U64()))), FrameTo, FrameFrom, Any<TopicFrameCore>, Any<Frame4>, x);
    Put4(Str(), Str(), U32(), U64(), x.frame, x.sender, x.ageSecs, x.number);
  }

  lemma {:induction false} As2<T, A, B>(a: Codec<A>, b: Codec<B>, of: T -> (A, B), back: ((A, B)) -> T, x: T)
    ensures As(Pair(a, b), of, back, Any<T>, Any<(A, B)>).put(x) == a.put(of(x).0) + b.put(of(x).1)
  {}

  // Records of a string and a number, or of strings.
  lemma {:induction false} NumberedPuts()
    ensures forall x :: OptinCodec().put(x) == OptinBytes(x)
    ensures forall m: Mark :: MarkCodec().put(m.core) == MarkBytes(m)
    ensures forall x :: SeenCodec().put(x) == SeenBytes(x)
    ensures forall x :: RegistrationCodec().put(x) == RegistrationBytes(x)
    ensures forall x :: ReportCodec().put(x) == ReportBytes(x)
    ensures forall x :: LinkCodec().put(x) == LinkBytes(x)
  {
    hide Str, U32, U64, I64, Low, Text, Int8, Pair, As;
    FieldsPut();
    forall x ensures OptinCodec().put(x) == OptinBytes(x) { As2(Str(), I64(), OptinTo, OptinFrom, x); }
    forall m: Mark ensures MarkCodec().put(m.core) == MarkBytes(m) { As2(Str(), U64(), MarkTo, MarkFrom, m.core); }
    forall x ensures SeenCodec().put(x) == SeenBytes(x) { As2(Str(), U32(), SeenTo, SeenFrom, x); }
    forall x ensures RegistrationCodec().put(x) == RegistrationBytes(x) {
      As2(Str(), U64(), RegistrationTo, RegistrationFrom, x);
    }
    forall x ensures ReportCodec().put(x) == ReportBytes(x) { As2(Str(), U64(), ReportTo, ReportFrom, x); }
    forall x ensures LinkCodec().put(x) == LinkBytes(x) { As2(Str(), U64(), LinkTo, LinkFrom, x); }
  }

  lemma {:induction false} TextPuts()
    ensures forall x :: TokenCodec().put(x) == TokenBytes(x)
    ensures forall x :: ChannelCodec().put(x) == ChannelBytes(x)
    ensures forall l: Lock :: LockCodec().put(l.core) == LockBytes(l)
  {
    hide Str, Low, Text, Pair, As;
    FieldsPut();
    forall x ensures TokenCodec().put(x) == TokenBytes(x) {
      As2(Str(), Pair(Str(), Str()), TokenTo, TokenFrom, x);
      PairPut(Str(), Str(), x.token, x.platform);
    }
    forall x ensures ChannelCodec().put(x) == ChannelBytes(x) { As2(Str(), Str(), ChannelTo, ChannelFrom, x); }
    forall l: Lock ensures LockCodec().put(l.core) == LockBytes(l) { As2(Str(), Str(), LockTo, LockFrom, l.core); }
  }

  lemma {:induction false} PrefPut(x: PushPref)
    ensures PrefCodec().put(x) == PrefBytes(x)
  {
    hide Str, Low, Text, List, Items, Pair, As, ServerCodec, ServerBytes;
    FieldsPut();
    As2(Str(), List(ServerCodec()), PrefTo, PrefFrom, x);
    forall i | 0 <= i < |x.servers| ensures ServerCodec().put(x.servers[i]) == ServerBytes(x.servers[i]) {
      ServerPut(x.servers[i]);
    }
    PutIs(ServerCodec(), x.servers, x.servers, ServerBytes);
  }

  lemma {:induction false} ServerPut(x: ServerPref)
    ensures ServerCodec().put(x) == ServerBytes(x)
  {
    hide Str, Low, Text, List, Items, Pair, As, ChannelCodec, ChannelBytes;
    FieldsPut();
    TextPuts();
    As2(Str(), Pair(Str(), List(ChannelCodec())), ServerTo, ServerFrom, x);
    PairPut(Str(), List(ChannelCodec()), x.level, x.channels);
    PutIs(ChannelCodec(), x.channels, x.channels, ChannelBytes);
  }

  lemma {:induction false} RosterPut(x: RosterRec)
    ensures RosterCodec().put(x) == RosterBytes(x)
  {
    hide Str, U64, Low, Text, List, Items, Pair, As, SeenCodec, SeenBytes;
    FieldsPut();
    NumberedPuts();
    As2(Str(), Pair(Str(), Pair(U64(), List(SeenCodec()))), RosterTo, RosterFrom, x);
    Put3(Str(), U64(), List(SeenCodec()), x.json, x.share, x.seen);
    PutIs(SeenCodec(), x.seen, x.seen, SeenBytes);
  }

  // ---- The session ----

  lemma {:induction false} OptPut<T>(c: Codec<T>, absent: T, x: Option<T>, f: T -> Bytes)
    requires x.Some? ==> c.put(x.value) == f(x.value)
    ensures Opt(c, absent).put(x) == Maybe1(x, f)
  {
    FieldsPut();
    hide Flag, Mark1;
  }

  lemma {:induction false} NicknamePut(x: Nickname)
    ensures NicknameCodec().put(x) == NicknameBytes(x)
  {
    hide Str, U64, I64, Low, Text, Int8, Pair, As, Opt, Maybe1, Mark1;
    FieldsPut();
    var opt := Opt(ProofCodec(), NO_PROOF);
    As2(Str(), Pair(U64(), Pair(Str(), opt)), NicknameTo, NicknameFrom, x);
    Put3(U64(), Str(), opt, x.expiryUnix, x.master, x.proof);
    if x.proof.Some? {
      var p := x.proof.value;
      As2(Str(), Pair(I64(), Str()), ProofTo, ProofFrom, p);
      PairPut(I64(), Str(), p.tsMs, p.sig);
    }
    OptPut(ProofCodec(), NO_PROOF, x.proof, ProofBytes);
  }

  lemma {:induction false} RingPut(f: RingFrame, buffers: nat)
    requires f.Gone? ==> f.gap != 0
    ensures RingCodec(buffers).put(f) == RingBytes(f)
  {
    hide Str, U8, U32, U64, Flag, Low, Text, Mark1, Pair, As, Then;
    FieldsPut();
    var head := Pair(U64(), U64());
    AsPut(Then(head, TailAfter(buffers)), RingTo, RingFrom, RingFits, RingOk, f);
    var p := RingTo(f);
    ThenPut(head, TailAfter(buffers), p.0, p.1);
    PairPut(U64(), U64(), p.0.0, p.0.1);
    TailPut(f, buffers);
  }

  lemma {:induction false} ThenPut<S, T>(a: Codec<S>, f: S -> Codec<T>, x: S, y: T)
    ensures Then(a, f).put((x, y)) == a.put(x) + f(x).put(y)
  {}

  lemma {:induction false} TailPut(f: RingFrame, buffers: nat)
    requires f.Gone? ==> f.gap != 0
    ensures var p := RingTo(f);
            TailAfter(buffers)(p.0).put(p.1) ==
            match f
            case Gone(n, gap) => []
            case Kept(n, buffer, binary, share, kind, room, stamp) =>
              Low(buffer, 4) + (Mark1(binary) + (Low(share, 8) + (Low(kind, 1) + (Text(room) + Low(stamp, 8)))))
  {
    hide Str, U8, U32, U64, Flag, Low, Text, Mark1, Pair, As;
    FieldsPut();
    if f.Kept? {
      AsPut(U32(), Same, Same, Under(buffers), Under(buffers), f.buffer);
      Put3(U8(), Str(), U64(), f.kind, f.room, f.budgetSeq);
      Put4(BufferIndex(buffers), Flag(), U64(), Pair(U8(), Pair(Str(), U64())), f.buffer, f.binary, f.share,
           (f.kind, (f.room, f.budgetSeq)));
    }
  }

  // A run of gone numbers is never empty.
  ghost predicate RunsCount(s: SessionRec) {
    forall i | 0 <= i < |s.frames| :: s.frames[i].Gone? ==> s.frames[i].gap != 0
  }

  lemma {:induction false} RoomsPut()
    ensures forall x :: Pair(Str(), Flag()).put(x) == RoomBytes(x)
    ensures forall x :: Pair(Str(), List(Str())).put(x) == TopicsBytes(x)
  {
    FieldsPut();
    hide Str, Flag, Text, Mark1, List, Items;
    forall x: (Bytes, seq<Bytes>) ensures Pair(Str(), List(Str())).put(x) == TopicsBytes(x) {
      PairPut(Str(), List(Str()), x.0, x.1);
      PutIs(Str(), x.1, x.1, Text);
    }
    forall x: (Bytes, bool) ensures Pair(Str(), Flag()).put(x) == RoomBytes(x) { PairPut(Str(), Flag(), x.0, x.1); }
  }

  lemma {:induction false} HeldPut(s: SessionRec)
    ensures HeldPart().put((s.rooms, (s.subscriptions, (s.nickname, s.linkCode)))) ==
            Items(s.rooms, RoomBytes) + (Items(s.subscriptions, TopicsBytes) +
            (Maybe1(s.nickname, NicknameBytes) + Maybe1(s.linkCode, LinkBytes)))
  {
    hide Str, Flag, Low, Text, Mark1, List, Items, Pair, As, Opt, Maybe1, NicknameCodec, LinkCodec, NicknameBytes,
         LinkBytes, RoomBytes, TopicsBytes;
    RoomsPut();
    NumberedPuts();
    var rooms, subs := Pair(Str(), Flag()), Pair(Str(), List(Str()));
    Put4(List(rooms), List(subs), Opt(NicknameCodec(), NO_NICKNAME), Opt(LinkCodec(), NO_LINK), s.rooms,
         s.subscriptions, s.nickname, s.linkCode);
    PutIs(rooms, s.rooms, s.rooms, RoomBytes);
    PutIs(subs, s.subscriptions, s.subscriptions, TopicsBytes);
    if s.nickname.Some? { NicknamePut(s.nickname.value); }
    OptPut(NicknameCodec(), NO_NICKNAME, s.nickname, NicknameBytes);
    OptPut(LinkCodec(), NO_LINK, s.linkCode, LinkBytes);
  }

  lemma {:induction false} SessionPut(s: SessionRec)
    requires RunsCount(s)
    ensures EncodeSession(s) == SessionBytes(s)
  {
    hide Str, U64, Flag, Low, Text, Mark1, List, Items, Pair, As, HeldPart, RingCodec, RingBytes, Maybe1;
    FieldsPut();
    var all := Pair(Who(), Pair(HeldPart(), RingPart(0)));
    AsPut(all, SessionTo, SessionFrom, Any<SessionRec>, Any<Session3>, s);
    var (w, (h, r)) := SessionTo(s);
    Put3(Who(), HeldPart(), RingPart(0), w, h, r);
    Put5(Str(), Str(), U64(), Flag(), U64(), s.sid, s.peerId, s.share, s.inactive, s.inH);
    HeldPut(s);
    Put3(U64(), U64(), List(RingCodec(0)), s.sent, s.acked, s.frames);
    forall i | 0 <= i < |s.frames| ensures RingCodec(0).put(s.frames[i]) == RingBytes(s.frames[i]) {
      RingPut(s.frames[i], 0);
    }
    PutIs(RingCodec(0), s.frames, s.frames, RingBytes);
  }

  // ---- The whole ----

  lemma {:induction false} FirstListsPut(d: Data)
    ensures var c := CoreOf(d);
            && Queues().put(c.dm) == Items(d.dm, QueueBytes) && Optins().put(c.optin) == Items(d.optin, OptinBytes)
            && Topics().put(c.topics) == Items(d.topics, TopicBytes)
            && Tokens().put(c.tokens) == Items(d.tokens, TokenBytes)
            && Prefs().put(c.prefs) == Items(d.prefs, PrefBytes)
  {
    hide List, Items, QueueCodec, OptinCodec, TopicCodec, TokenCodec, PrefCodec, QueueBytes, OptinBytes, TopicBytes,
         TokenBytes, PrefBytes, QueueCore, TopicPart;
    var c := CoreOf(d);
    NumberedPuts();
    TextPuts();
    forall i | 0 <= i < |d.dm| ensures QueueCodec().put(c.dm[i]) == QueueBytes(d.dm[i]) { QueuePut(d.dm[i]); }
    forall i | 0 <= i < |d.topics| ensures TopicCodec().put(c.topics[i]) == TopicBytes(d.topics[i]) {
      TopicPut(d.topics[i]);
    }
    forall i | 0 <= i < |d.prefs| ensures PrefCodec().put(c.prefs[i]) == PrefBytes(d.prefs[i]) { PrefPut(d.prefs[i]); }
    PutIs(QueueCodec(), c.dm, d.dm, QueueBytes);
    PutIs(OptinCodec(), c.optin, d.optin, OptinBytes);
    PutIs(TopicCodec(), c.topics, d.topics, TopicBytes);
    PutIs(TokenCodec(), c.tokens, d.tokens, TokenBytes);
    PutIs(PrefCodec(), c.prefs, d.prefs, PrefBytes);
  }

  lemma {:induction false} LateListsPut(d: Data)
    ensures var c := CoreOf(d);
            && Kills(11).put(c.kills) == Items(d.kills, KillBytes)
            && Marks(11).put(c.marks) == Items(d.marks, MarkBytes)
            && Locks(11).put(c.locks) == Items(d.locks, LockBytes)
  {
    hide List, Items, KillCodec, MarkCodec, LockCodec, KillBytes, MarkBytes, LockBytes, QueueCore, TopicPart;
    var c := CoreOf(d);
    NumberedPuts();
    TextPuts();
    forall i | 0 <= i < |d.kills| ensures KillCodec().put(c.kills[i]) == KillBytes(d.kills[i]) { KillPut(d.kills[i]); }
    PutIs(KillCodec(), c.kills, d.kills, KillBytes);
    PutIs(MarkCodec(), c.marks, d.marks, MarkBytes);
    PutIs(LockCodec(), c.locks, d.locks, LockBytes);
  }

  lemma {:induction false} CorePut(d: Data)
    ensures CoreCodec(11).put(CoreOf(d)) == ListBytes(d)
  {
    hide CoreOf, Queues, Optins, Topics, Tokens, Prefs, Kills, Marks, Locks, Pair, As, Items;
    var c := CoreOf(d);
    FirstListsPut(d);
    LateListsPut(d);
    AsPut(CoreParts(11), CoreTo, CoreFrom, Any<Core>, Any<Core8>, c);
    var late := (c.kills, (c.marks, c.locks));
    Put3(Kills(11), Marks(11), Locks(11), c.kills, c.marks, c.locks);
    Put3(Tokens(), Prefs(), Late(11), c.tokens, c.prefs, late);
    Put4(Queues(), Optins(), Topics(), Pair(Tokens(), Pair(Prefs(), Late(11))), c.dm, c.optin, c.topics,
         (c.tokens, (c.prefs, late)));
  }

  lemma {:induction false} CountedPut<T>(n: nat, c: Codec<T>, x: T)
    ensures Counted(n, c).put(x) == Low(n, 4) + c.put(x)
  {}

  lemma {:induction false} ColumnPut<T>(c: Codec<T>, n: nat, xs: seq<T>)
    ensures Column(c, n).put(xs) == PutAll(c, xs)
  {}

  lemma {:induction false} MetaPut(t: Topic)
    ensures MetaFor(11)(|t.frames|).put(TopicMeta(t)) == RetentionBytes(t)
  {
    hide Low, Pair, I64, Str, Items, All, Int8, PutAll, Counted, Column;
    FieldsPut();
    var m, n, f := TopicMeta(t), |t.frames|, (f: TopicFrame) => Int8(f.retentionSecs);
    PairPut(Maybe(false, Str(), []), Counted(n, Column(I64(), n)), m.0, m.1);
    CountedPut(n, Column(I64(), n), m.1);
    ColumnPut(I64(), n, m.1);
    PutIs(I64(), m.1, t.frames, f);
    assert Items(t.frames, f) == Low(n, 4) + All(t.frames, f) by { ItemsAre(t.frames, f); }
    NothingFirst(Items(t.frames, f));
  }

  lemma {:induction false} ItemsAre<T>(xs: seq<T>, f: T -> Bytes)
    ensures Items(xs, f) == Low(|xs|, 4) + All(xs, f)
  {}

  lemma {:induction false} NothingFirst(bs: Bytes)
    ensures [] + bs == bs
  {}

  lemma {:induction false} SharesPut(d: Data)
    ensures SharesCodec(11, CoreOf(d)).put(SharesOf(d)) == ShareBytes(d)
  {
    hide Low, Pair, As, Each, Column, List, Items, All, U64, RegistrationCodec, RegistrationBytes, QueueCore, TopicPart,
         QueueShareBytes, TopicShareBytes;
    var c, x := CoreOf(d), SharesOf(d);
    AsPut(ShareParts(c), SharesTo, SharesFrom, Any<Shares>, Any<Shares6>, x);
    var tail := Pair(ShareColumn(|c.kills|),
                     Pair(ShareColumn(|c.marks|), Pair(ShareColumn(|c.locks|), List(RegistrationCodec()))));
    Put3(Each(ShareColumn, QueueSizes(c.dm)), Each(ShareRow, TopicSizes(c.topics)), tail, x.dm, x.topics,
         (x.kills, (x.marks, (x.locks, x.registrations))));
    Put4(ShareColumn(|c.kills|), ShareColumn(|c.marks|), ShareColumn(|c.locks|), List(RegistrationCodec()), x.kills,
         x.marks, x.locks, x.registrations);
    QueueColumnsPut(d);
    TopicRowsPut(d);
    ShareColumnsPut(d);
  }

  lemma {:induction false} QueueColumnsPut(d: Data)
    ensures Each(ShareColumn, QueueSizes(CoreOf(d).dm)).put(SharesOf(d).dm) == All(d.dm, QueueShareBytes)
  {
    hide Low, Each, Column, All, U64, PutAll;
    FieldsPut();
    var ns, ys := QueueSizes(CoreOf(d).dm), SharesOf(d).dm;
    forall i | 0 <= i < |d.dm| ensures ShareColumn(ns[i]).put(ys[i]) == QueueShareBytes(d.dm[i]) {
      ColumnPut(U64(), ns[i], ys[i]);
      PutIs(U64(), ys[i], d.dm[i].frames, (f: DmFrame) => Low(f.share, 8));
    }
    hide ShareColumn, QueueShareBytes, CoreOf, SharesOf;
    EachIs(ShareColumn, ns, ys, d.dm, QueueShareBytes);
  }

  lemma {:induction false} TopicRowsPut(d: Data)
    ensures Each(ShareRow, TopicSizes(CoreOf(d).topics)).put(SharesOf(d).topics) == All(d.topics, TopicShareBytes)
  {
    hide Low, Each, Column, All, U64, PutAll, Pair;
    FieldsPut();
    var ns, ys := TopicSizes(CoreOf(d).topics), SharesOf(d).topics;
    forall i | 0 <= i < |d.topics| ensures ShareRow(ns[i]).put(ys[i]) == TopicShareBytes(d.topics[i]) {
      PairPut(U64(), Column(U64(), ns[i]), ys[i].0, ys[i].1);
      ColumnPut(U64(), ns[i], ys[i].1);
      PutIs(U64(), ys[i].1, d.topics[i].frames, (f: TopicFrame) => Low(f.share, 8));
    }
    hide ShareRow, TopicShareBytes, CoreOf, SharesOf;
    EachIs(ShareRow, ns, ys, d.topics, TopicShareBytes);
  }

  lemma {:induction false} NumberColumn<T>(ys: seq<nat>, xs: seq<T>, f: T -> Bytes)
    requires |ys| == |xs| && forall i | 0 <= i < |xs| :: f(xs[i]) == Low(ys[i], 8)
    ensures ShareColumn(|ys|).put(ys) == All(xs, f)
  {
    hide Low, Column, All, U64, PutAll;
    FieldsPut();
    ColumnPut(U64(), |ys|, ys);
    PutIs(U64(), ys, xs, f);
  }

  lemma {:induction false} ShareColumnsPut(d: Data)
    ensures var c, x := CoreOf(d), SharesOf(d);
            && ShareColumn(|c.kills|).put(x.kills) == All(d.kills, KillShareBytes)
            && ShareColumn(|c.marks|).put(x.marks) == All(d.marks, MarkShareBytes)
            && ShareColumn(|c.locks|).put(x.locks) == All(d.locks, LockShareBytes)
            && List(RegistrationCodec()).put(x.registrations) == Items(d.registrations, RegistrationBytes)
  {
    hide Low, ShareColumn, All, List, Items, RegistrationCodec, RegistrationBytes, QueueCore, TopicPart, QueueShares,
         TopicShares;
    NumberedPuts();
    var x := SharesOf(d);
    NumberColumn(x.kills, d.kills, KillShareBytes);
    NumberColumn(x.marks, d.marks, MarkShareBytes);
    NumberColumn(x.locks, d.locks, LockShareBytes);
    PutIs(RegistrationCodec(), x.registrations, d.registrations, RegistrationBytes);
  }

  lemma {:induction false} RingMetaPut(d: Data)
    ensures RingMeta(11, CoreOf(d)).put(ExtraOf(d).ringMeta) == Items(d.topics, RetentionBytes)
  {
    hide Low, Each, All, Counted, Items, QueueCore, MetaFor, RetentionBytes, EncodeSession, SharesOf, TopicMeta;
    var c, ms := CoreOf(d), ExtraOf(d).ringMeta;
    var ns := TopicSizes(c.topics);
    forall i | 0 <= i < |d.topics| ensures MetaFor(11)(ns[i]).put(ms[i]) == RetentionBytes(d.topics[i]) {
      MetaPut(d.topics[i]);
    }
    EachIs(MetaFor(11), ns, ms, d.topics, RetentionBytes);
    CountedPut(|c.topics|, Each(MetaFor(11), ns), ms);
    ItemsAre(d.topics, RetentionBytes);
  }

  lemma {:induction false} StringsPut(d: Data)
    requires forall i | 0 <= i < |d.sessions| :: RunsCount(d.sessions[i])
    ensures var e := ExtraOf(d);
            && Proven(11, CoreOf(d)).put(e.proven) == All(d.kills, ProvenBytes)
            && SessionStrings(11).put((e.buffers, e.sessions)) ==
               Items(d.buffers, Text) + Items(d.sessions, SessionText)
  {
    hide Low, Str, Flag, Column, All, Items, List, Pair, PutAll, QueueCore, TopicPart, TopicMeta, SharesOf, Text, Mark1,
         EncodeSession, SessionBytes, RunsCount;
    FieldsPut();
    var c, e := CoreOf(d), ExtraOf(d);
    ColumnPut(Flag(), |c.kills|, e.proven);
    PutIs(Flag(), e.proven, d.kills, ProvenBytes);
    PairPut(List(Str()), List(Str()), e.buffers, e.sessions);
    PutIs(Str(), e.buffers, d.buffers, Text);
    forall i | 0 <= i < |d.sessions| ensures Str().put(e.sessions[i]) == SessionText(d.sessions[i]) {
      SessionPut(d.sessions[i]);
    }
    PutIs(Str(), e.sessions, d.sessions, SessionText);
  }

  lemma {:induction false} ReportsPut(d: Data)
    ensures ReportKey(11).put(d.reportKey) == Text(d.reportKey)
    ensures ReportShares(11).put(d.reportShares) == Items(d.reportShares, ReportBytes)
    ensures Rosters(11).put(d.rosters) == Items(d.rosters, RosterBytes)
  {
    hide Str, Text, Low, As, List, Items, ReportCodec, ReportBytes, RosterCodec, RosterBytes;
    FieldsPut();
    NumberedPuts();
    AsPut(Str(), SameBytes, SameBytes, IsReportKey, IsReportKey, d.reportKey);
    PutIs(ReportCodec(), d.reportShares, d.reportShares, ReportBytes);
    forall i | 0 <= i < |d.rosters| ensures RosterCodec().put(d.rosters[i]) == RosterBytes(d.rosters[i]) {
      RosterPut(d.rosters[i]);
    }
    PutIs(RosterCodec(), d.rosters, d.rosters, RosterBytes);
  }

  lemma {:induction false} ExtraPut(d: Data)
    requires forall i | 0 <= i < |d.sessions| :: RunsCount(d.sessions[i])
    ensures ExtraCodec(11, CoreOf(d)).put(ExtraOf(d)) == LaterBytes(d)
  {
    hide CoreOf, RunsCount, RingMeta, SharesCodec, Rosters, Proven, SessionStrings, ReportKey, ReportShares, Pair, As,
         Items, All, Text, ShareBytes, SharesOf, EncodeSession, TopicMeta;
    var c, e := CoreOf(d), ExtraOf(d);
    RingMetaPut(d);
    SharesPut(d);
    StringsPut(d);
    ReportsPut(d);
    AsPut(ExtraParts(11, c), ExtraTo, ExtraFrom, Any<Extra>, Any<Extra7>, e);
    var last := (e.proven, ((e.buffers, e.sessions), (e.reportKey, e.reportShares)));
    Put4(RingMeta(11, c), SharesCodec(11, c), Rosters(11), Last(11, c), e.ringMeta, e.shares, e.rosters, last);
    Put4(Proven(11, c), SessionStrings(11), ReportKey(11), ReportShares(11), e.proven, (e.buffers, e.sessions),
         e.reportKey, e.reportShares);
  }

  // The bytes of a snapshot are those, whatever it holds.
  lemma {:induction false} EncodeIsLayout(d: Data)
    requires forall i | 0 <= i < |d.sessions| :: RunsCount(d.sessions[i])
    ensures Encode(d) == Layout(d)
  {
    hide CoreOf, ExtraOf, RunsCount, CoreCodec, ExtraCodec, ListBytes, LaterBytes, Then, U32, Low;
    FieldsPut();
    CorePut(d);
    ExtraPut(d);
    ThenPut(CoreCodec(11), ExtraAfter(11), CoreOf(d), ExtraOf(d));
  }
}
