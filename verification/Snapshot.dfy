// relay-uws/src/snapshot_codec.h: the records of a relay snapshot, field by field in the
// order they are written. A record's later fields (a share, a retention, a proof mark) are
// written in sections of their own, so each record is split into its core and those.
module Snapshots {
  import opened Base
  import opened Codecs

  // ---- Records ----

  datatype DmCore = DmCore(room: Bytes, frame: Bytes, sender: Bytes, ageSecs: nat, isImage: bool, isChannel: bool,
                           number: nat)
  datatype DmQueueCore = DmQueueCore(target: Bytes, frames: seq<DmCore>)
  datatype Optin = Optin(peer: Bytes, retentionSecs: int)
  datatype TopicFrameCore = TopicFrameCore(frame: Bytes, sender: Bytes, ageSecs: nat, number: nat)
  datatype TopicCore = TopicCore(key: Bytes, accepting: bool, retentionSecs: int, registeredAgeSecs: nat,
                                 frames: seq<TopicFrameCore>)
  datatype PushToken = PushToken(peer: Bytes, token: Bytes, platform: Bytes)
  datatype ChannelPref = ChannelPref(channel: Bytes, level: Bytes)
  datatype ServerPref = ServerPref(server: Bytes, level: Bytes, channels: seq<ChannelPref>)
  datatype PushPref = PushPref(peer: Bytes, servers: seq<ServerPref>)
  datatype KillCore = KillCore(target: Bytes, issuer: Bytes, blob: Bytes, issuedAtMs: int, ageSecs: nat)
  datatype MarkCore = MarkCore(master: Bytes, version: nat)
  datatype LockCore = LockCore(key: Bytes, linksJson: Bytes)
  datatype Registration = Registration(peer: Bytes, share: nat)
  datatype RosterSeen = RosterSeen(device: Bytes, ageSecs: nat)
  datatype RosterRec = RosterRec(master: Bytes, json: Bytes, share: nat, seen: seq<RosterSeen>)
  datatype ReportShare = ReportShare(key: Bytes, share: nat)

  // ---- How each is written ----

  type Dm7 = (Bytes, (Bytes, (Bytes, (nat, (bool, (bool, nat))))))
  function DmTo(x: DmCore): Dm7 { (x.room, (x.frame, (x.sender, (x.ageSecs, (x.isImage, (x.isChannel, x.number)))))) }
  function DmFrom(p: Dm7): DmCore { DmCore(p.0, p.1.0, p.1.1.0, p.1.1.1.0, p.1.1.1.1.0, p.1.1.1.1.1.0, p.1.1.1.1.1.1) }
  function DmCodec(): Codec<DmCore> {
    As(Pair(Str(), Pair(Str(), Pair(Str(), Pair(U32(), Pair(Flag(), Pair(Flag(), U64())))))), DmTo, DmFrom, Any, Any)
  }

  function QueueTo(x: DmQueueCore): (Bytes, seq<DmCore>) { (x.target, x.frames) }
  function QueueFrom(p: (Bytes, seq<DmCore>)): DmQueueCore { DmQueueCore(p.0, p.1) }
  function QueueCodec(): Codec<DmQueueCore> { As(Pair(Str(), List(DmCodec())), QueueTo, QueueFrom, Any, Any) }

  lemma {:induction false} QueueGood()
    ensures Good(QueueCodec()) && Solid(QueueCodec())
  {
    hide Good, Solid, Str, U32, U64, Flag, Pair, List, As;
    FieldsGood();
    Good4(U32(), Flag(), Flag(), U64());
    Good4(Str(), Str(), Str(), Pair(U32(), Pair(Flag(), Pair(Flag(), U64()))));
    AsGood(Pair(Str(), Pair(Str(), Pair(Str(), Pair(U32(), Pair(Flag(), Pair(Flag(), U64())))))),
           DmTo, DmFrom, Any<DmCore>, Any<Dm7>);
    ListGood(DmCodec());
    PairGood(Str(), List(DmCodec()));
    AsGood(Pair(Str(), List(DmCodec())), QueueTo, QueueFrom, Any<DmQueueCore>, Any<(Bytes, seq<DmCore>)>);
  }

  lemma {:induction false} FieldsGood()
    ensures Good(U8()) && Solid(U8()) && Good(U32()) && Solid(U32()) && Good(U64()) && Solid(U64())
    ensures Good(I64()) && Solid(I64()) && Good(Flag()) && Solid(Flag()) && Good(Str()) && Solid(Str())
  {
    hide Good, Solid, Str, U8, U32, U64, I64, Flag;
    NumbersGood();
    SignedGood();
    StrGood();
  }

  function OptinTo(x: Optin): (Bytes, int) { (x.peer, x.retentionSecs) }
  function OptinFrom(p: (Bytes, int)): Optin { Optin(p.0, p.1) }
  function OptinCodec(): Codec<Optin> { As(Pair(Str(), I64()), OptinTo, OptinFrom, Any, Any) }

  type Frame4 = (Bytes, (Bytes, (nat, nat)))
  function FrameTo(x: TopicFrameCore): Frame4 { (x.frame, (x.sender, (x.ageSecs, x.number))) }
  function FrameFrom(p: Frame4): TopicFrameCore { TopicFrameCore(p.0, p.1.0, p.1.1.0, p.1.1.1) }
  function FrameCodec(): Codec<TopicFrameCore> {
    As(Pair(Str(), Pair(Str(), Pair(U32(), U64()))), FrameTo, FrameFrom, Any, Any)
  }

  type Topic5 = (Bytes, (bool, (int, (nat, seq<TopicFrameCore>))))
  function TopicTo(x: TopicCore): Topic5 { (x.key, (x.accepting, (x.retentionSecs, (x.registeredAgeSecs, x.frames)))) }
  function TopicFrom(p: Topic5): TopicCore { TopicCore(p.0, p.1.0, p.1.1.0, p.1.1.1.0, p.1.1.1.1) }
  function TopicCodec(): Codec<TopicCore> {
    As(Pair(Str(), Pair(Flag(), Pair(I64(), Pair(U32(), List(FrameCodec()))))), TopicTo, TopicFrom, Any, Any)
  }

  lemma {:induction false} TopicGood()
    ensures Good(OptinCodec()) && Solid(OptinCodec()) && Good(TopicCodec()) && Solid(TopicCodec())
  {
    hide Good, Solid, Str, U32, U64, I64, Flag, Pair, List, As;
    FieldsGood();
    PairGood(Str(), I64());
    AsGood(Pair(Str(), I64()), OptinTo, OptinFrom, Any<Optin>, Any<(Bytes, int)>);
    Good4(Str(), Str(), U32(), U64());
    AsGood(Pair(Str(), Pair(Str(), Pair(U32(), U64()))), FrameTo, FrameFrom, Any<TopicFrameCore>, Any<Frame4>);
    ListGood(FrameCodec());
    Good5(Str(), Flag(), I64(), U32(), List(FrameCodec()));
    AsGood(Pair(Str(), Pair(Flag(), Pair(I64(), Pair(U32(), List(FrameCodec()))))), TopicTo, TopicFrom,
           Any<TopicCore>, Any<Topic5>);
  }

  function TokenTo(x: PushToken): (Bytes, (Bytes, Bytes)) { (x.peer, (x.token, x.platform)) }
  function TokenFrom(p: (Bytes, (Bytes, Bytes))): PushToken { PushToken(p.0, p.1.0, p.1.1) }
  function TokenCodec(): Codec<PushToken> { As(Pair(Str(), Pair(Str(), Str())), TokenTo, TokenFrom, Any, Any) }

  function ChannelTo(x: ChannelPref): (Bytes, Bytes) { (x.channel, x.level) }
  function ChannelFrom(p: (Bytes, Bytes)): ChannelPref { ChannelPref(p.0, p.1) }
  function ChannelCodec(): Codec<ChannelPref> { As(Pair(Str(), Str()), ChannelTo, ChannelFrom, Any, Any) }

  function ServerTo(x: ServerPref): (Bytes, (Bytes, seq<ChannelPref>)) { (x.server, (x.level, x.channels)) }
  function ServerFrom(p: (Bytes, (Bytes, seq<ChannelPref>))): ServerPref { ServerPref(p.0, p.1.0, p.1.1) }
  function ServerCodec(): Codec<ServerPref> {
    As(Pair(Str(), Pair(Str(), List(ChannelCodec()))), ServerTo, ServerFrom, Any, Any)
  }

  function PrefTo(x: PushPref): (Bytes, seq<ServerPref>) { (x.peer, x.servers) }
  function PrefFrom(p: (Bytes, seq<ServerPref>)): PushPref { PushPref(p.0, p.1) }
  function PrefCodec(): Codec<PushPref> { As(Pair(Str(), List(ServerCodec())), PrefTo, PrefFrom, Any, Any) }

  lemma {:induction false} PrefGood()
    ensures Good(TokenCodec()) && Solid(TokenCodec()) && Good(PrefCodec()) && Solid(PrefCodec())
  {
    hide Good, Solid, Str, Pair, List, As;
    FieldsGood();
    Good3(Str(), Str(), Str());
    AsGood(Pair(Str(), Pair(Str(), Str())), TokenTo, TokenFrom, Any<PushToken>, Any<(Bytes, (Bytes, Bytes))>);
    PairGood(Str(), Str());
    AsGood(Pair(Str(), Str()), ChannelTo, ChannelFrom, Any<ChannelPref>, Any<(Bytes, Bytes)>);
    ListGood(ChannelCodec());
    Good3(Str(), Str(), List(ChannelCodec()));
    AsGood(Pair(Str(), Pair(Str(), List(ChannelCodec()))), ServerTo, ServerFrom, Any<ServerPref>,
           Any<(Bytes, (Bytes, seq<ChannelPref>))>);
    ListGood(ServerCodec());
    PairGood(Str(), List(ServerCodec()));
    AsGood(Pair(Str(), List(ServerCodec())), PrefTo, PrefFrom, Any<PushPref>, Any<(Bytes, seq<ServerPref>)>);
  }

  type Kill5 = (Bytes, (Bytes, (Bytes, (int, nat))))
  function KillTo(x: KillCore): Kill5 { (x.target, (x.issuer, (x.blob, (x.issuedAtMs, x.ageSecs)))) }
  function KillFrom(p: Kill5): KillCore { KillCore(p.0, p.1.0, p.1.1.0, p.1.1.1.0, p.1.1.1.1) }
  function KillCodec(): Codec<KillCore> {
    As(Pair(Str(), Pair(Str(), Pair(Str(), Pair(I64(), U32())))), KillTo, KillFrom, Any, Any)
  }

  function MarkTo(x: MarkCore): (Bytes, nat) { (x.master, x.version) }
  function MarkFrom(p: (Bytes, nat)): MarkCore { MarkCore(p.0, p.1) }
  function MarkCodec(): Codec<MarkCore> { As(Pair(Str(), U64()), MarkTo, MarkFrom, Any, Any) }

  function LockTo(x: LockCore): (Bytes, Bytes) { (x.key, x.linksJson) }
  function LockFrom(p: (Bytes, Bytes)): LockCore { LockCore(p.0, p.1) }
  function LockCodec(): Codec<LockCore> { As(Pair(Str(), Str()), LockTo, LockFrom, Any, Any) }

  function RegistrationTo(x: Registration): (Bytes, nat) { (x.peer, x.share) }
  function RegistrationFrom(p: (Bytes, nat)): Registration { Registration(p.0, p.1) }
  function RegistrationCodec(): Codec<Registration> {
    As(Pair(Str(), U64()), RegistrationTo, RegistrationFrom, Any, Any)
  }

  function ReportTo(x: ReportShare): (Bytes, nat) { (x.key, x.share) }
  function ReportFrom(p: (Bytes, nat)): ReportShare { ReportShare(p.0, p.1) }
  function ReportCodec(): Codec<ReportShare> { As(Pair(Str(), U64()), ReportTo, ReportFrom, Any, Any) }

  lemma {:induction false} ChargedGood()
    ensures Good(KillCodec()) && Solid(KillCodec()) && Good(MarkCodec()) && Solid(MarkCodec())
    ensures Good(LockCodec()) && Solid(LockCodec()) && Good(RegistrationCodec()) && Solid(RegistrationCodec())
    ensures Good(ReportCodec()) && Solid(ReportCodec())
  {
    hide Good, Solid, Str, U32, U64, I64, Pair, As;
    FieldsGood();
    Good5(Str(), Str(), Str(), I64(), U32());
    AsGood(Pair(Str(), Pair(Str(), Pair(Str(), Pair(I64(), U32())))), KillTo, KillFrom, Any<KillCore>, Any<Kill5>);
    PairGood(Str(), U64());
    PairGood(Str(), Str());
    AsGood(Pair(Str(), U64()), MarkTo, MarkFrom, Any<MarkCore>, Any<(Bytes, nat)>);
    AsGood(Pair(Str(), Str()), LockTo, LockFrom, Any<LockCore>, Any<(Bytes, Bytes)>);
    AsGood(Pair(Str(), U64()), RegistrationTo, RegistrationFrom, Any<Registration>, Any<(Bytes, nat)>);
    AsGood(Pair(Str(), U64()), ReportTo, ReportFrom, Any<ReportShare>, Any<(Bytes, nat)>);
  }

  function SeenTo(x: RosterSeen): (Bytes, nat) { (x.device, x.ageSecs) }
  function SeenFrom(p: (Bytes, nat)): RosterSeen { RosterSeen(p.0, p.1) }
  function SeenCodec(): Codec<RosterSeen> { As(Pair(Str(), U32()), SeenTo, SeenFrom, Any, Any) }

  type Roster4 = (Bytes, (Bytes, (nat, seq<RosterSeen>)))
  function RosterTo(x: RosterRec): Roster4 { (x.master, (x.json, (x.share, x.seen))) }
  function RosterFrom(p: Roster4): RosterRec { RosterRec(p.0, p.1.0, p.1.1.0, p.1.1.1) }
  function RosterCodec(): Codec<RosterRec> {
    As(Pair(Str(), Pair(Str(), Pair(U64(), List(SeenCodec())))), RosterTo, RosterFrom, Any, Any)
  }

  lemma {:induction false} RosterGood()
    ensures Good(RosterCodec()) && Solid(RosterCodec())
  {
    hide Good, Solid, Str, U32, U64, Pair, List, As;
    FieldsGood();
    PairGood(Str(), U32());
    AsGood(Pair(Str(), U32()), SeenTo, SeenFrom, Any<RosterSeen>, Any<(Bytes, nat)>);
    ListGood(SeenCodec());
    Good4(Str(), Str(), U64(), List(SeenCodec()));
    AsGood(Pair(Str(), Pair(Str(), Pair(U64(), List(SeenCodec())))), RosterTo, RosterFrom, Any<RosterRec>,
           Any<Roster4>);
  }
}
