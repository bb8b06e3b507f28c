// relay-uws/src/snapshot_codec.h, encode and decode: the sections of a snapshot, which of
// them each version has, and the whole between its two tags.
module SnapshotBodies {
  import opened Base
  import opened Codecs
  import opened Snapshots
  import opened SnapshotSessions

  const VERSION: nat := 11
  const MIN_VERSION: nat := 1
  const REPORT_KEY_BYTES: nat := 32

  // ---- The lists every later section lines up with ----

  datatype Core = Core(
    dm: seq<DmQueueCore>,
    optin: seq<Optin>,
    topics: seq<TopicCore>,
    tokens: seq<PushToken>,
    prefs: seq<PushPref>,
    kills: seq<KillCore>,
    marks: seq<MarkCore>,
    locks: seq<LockCore>
  )

  type Core3 = (seq<KillCore>, (seq<MarkCore>, seq<LockCore>))
  type Core8 = (seq<DmQueueCore>, (seq<Optin>, (seq<TopicCore>, (seq<PushToken>, (seq<PushPref>, Core3)))))
  function CoreTo(x: Core): Core8 {
    (x.dm, (x.optin, (x.topics, (x.tokens, (x.prefs, (x.kills, (x.marks, x.locks)))))))
  }
  function CoreFrom(p: Core8): Core {
    var late := p.1.1.1.1.1;
    Core(p.0, p.1.0, p.1.1.0, p.1.1.1.0, p.1.1.1.1.0, late.0, late.1.0, late.1.1)
  }

  function Queues(): Codec<seq<DmQueueCore>> { List(QueueCodec()) }
  function Optins(): Codec<seq<Optin>> { List(OptinCodec()) }
  function Topics(): Codec<seq<TopicCore>> { List(TopicCodec()) }
  function Tokens(): Codec<seq<PushToken>> { List(TokenCodec()) }
  function Prefs(): Codec<seq<PushPref>> { List(PrefCodec()) }
  function Kills(v: nat): Codec<seq<KillCore>> { Maybe(v >= 2, List(KillCodec()), []) }
  function Marks(v: nat): Codec<seq<MarkCore>> { Maybe(v >= 3, List(MarkCodec()), []) }
  function Locks(v: nat): Codec<seq<LockCore>> { Maybe(v >= 4, List(LockCodec()), []) }

  function Late(v: nat): Codec<Core3> { Pair(Kills(v), Pair(Marks(v), Locks(v))) }

  function CoreParts(v: nat): Codec<Core8> {
    Pair(Queues(), Pair(Optins(), Pair(Topics(), Pair(Tokens(), Pair(Prefs(), Late(v))))))
  }

  function CoreCodec(v: nat): Codec<Core> { As(CoreParts(v), CoreTo, CoreFrom, Any, Any) }

  lemma {:induction false} ListsGood()
    ensures Good(Queues()) && Good(Optins()) && Good(Topics()) && Good(Tokens()) && Good(Prefs())
  {
    hide Good, Solid, List, QueueCodec, OptinCodec, TopicCodec, TokenCodec, PrefCodec;
    QueueGood();
    TopicGood();
    PrefGood();
    ListGood(QueueCodec());
    ListGood(OptinCodec());
    ListGood(TopicCodec());
    ListGood(TokenCodec());
    ListGood(PrefCodec());
  }

  lemma {:induction false} LateGood(v: nat)
    ensures Good(Late(v))
  {
    hide Good, Solid, List, Pair, Maybe, KillCodec, MarkCodec, LockCodec;
    ChargedGood();
    ListGood(KillCodec());
    ListGood(MarkCodec());
    ListGood(LockCodec());
    MaybeGood(v >= 2, List(KillCodec()), []);
    MaybeGood(v >= 3, List(MarkCodec()), []);
    MaybeGood(v >= 4, List(LockCodec()), []);
    Good3(Kills(v), Marks(v), Locks(v));
  }

  lemma {:induction false} CoreGood(v: nat)
    ensures Good(CoreCodec(v))
  {
    hide Good, Solid, Pair, As, Queues, Optins, Topics, Tokens, Prefs, Late;
    ListsGood();
    LateGood(v);
    Good3(Tokens(), Prefs(), Late(v));
    Good4(Queues(), Optins(), Topics(), Pair(Tokens(), Pair(Prefs(), Late(v))));
    AsGood(CoreParts(v), CoreTo, CoreFrom, Any<Core>, Any<Core8>);
  }

  // ---- The later sections ----

  // One ring's owner binding, which only version 5 wrote, and its frames' retentions.
  type Meta = (Bytes, seq<int>)

  datatype Shares = Shares(
    dm: seq<seq<nat>>,
    topics: seq<(nat, seq<nat>)>,
    kills: seq<nat>,
    marks: seq<nat>,
    locks: seq<nat>,
    registrations: seq<Registration>
  )

  datatype Extra = Extra(
    ringMeta: seq<Meta>,
    shares: Shares,
    rosters: seq<RosterRec>,
    proven: seq<bool>,
    buffers: seq<Bytes>,
    sessions: seq<Bytes>,
    reportKey: Bytes,
    reportShares: seq<ReportShare>
  )

  function QueueSizes(qs: seq<DmQueueCore>): (ns: seq<nat>)
    ensures |ns| == |qs| && forall i | 0 <= i < |qs| :: ns[i] == |qs[i].frames|
  {
    seq(|qs|, i requires 0 <= i < |qs| => |qs[i].frames|)
  }

  function TopicSizes(ts: seq<TopicCore>): (ns: seq<nat>)
    ensures |ns| == |ts| && forall i | 0 <= i < |ts| :: ns[i] == |ts[i].frames|
  {
    seq(|ts|, i requires 0 <= i < |ts| => |ts[i].frames|)
  }

  function MetaFor(v: nat): nat -> Codec<Meta> {
    (n: nat) => Pair(Maybe(v == 5, Str(), []), Counted(n, Column(I64(), n)))
  }
  function ShareColumn(n: nat): Codec<seq<nat>> { Column(U64(), n) }
  function ShareRow(n: nat): Codec<(nat, seq<nat>)> { Pair(U64(), Column(U64(), n)) }

  // What a snapshot without the section is read as.
  function Fill<T>(n: nat, x: T): seq<T> { seq(n, _ => x) }
  function NoMeta(ns: seq<nat>): seq<Meta> { seq(|ns|, i requires 0 <= i < |ns| => ([], Fill(ns[i], 0))) }
  function NoColumns(ns: seq<nat>): seq<seq<nat>> { seq(|ns|, i requires 0 <= i < |ns| => Fill(ns[i], 0)) }
  function NoRows(ns: seq<nat>): seq<(nat, seq<nat>)> { seq(|ns|, i requires 0 <= i < |ns| => (0, Fill(ns[i], 0))) }
  function NoShares(c: Core): Shares {
    Shares(NoColumns(QueueSizes(c.dm)), NoRows(TopicSizes(c.topics)), Fill(|c.kills|, 0), Fill(|c.marks|, 0),
           Fill(|c.locks|, 0), [])
  }

  function RingMeta(v: nat, c: Core): Codec<seq<Meta>> {
    Maybe(v >= 5, Counted(|c.topics|, Each(MetaFor(v), TopicSizes(c.topics))), NoMeta(TopicSizes(c.topics)))
  }

  type Shares6 = (seq<seq<nat>>, (seq<(nat, seq<nat>)>, (seq<nat>, (seq<nat>, (seq<nat>, seq<Registration>)))))
  function SharesTo(x: Shares): Shares6 { (x.dm, (x.topics, (x.kills, (x.marks, (x.locks, x.registrations))))) }
  function SharesFrom(p: Shares6): Shares { Shares(p.0, p.1.0, p.1.1.0, p.1.1.1.0, p.1.1.1.1.0, p.1.1.1.1.1) }
  function ShareParts(c: Core): Codec<Shares6> {
    Pair(Each(ShareColumn, QueueSizes(c.dm)),
         Pair(Each(ShareRow, TopicSizes(c.topics)),
              Pair(ShareColumn(|c.kills|),
                   Pair(ShareColumn(|c.marks|), Pair(ShareColumn(|c.locks|), List(RegistrationCodec()))))))
  }
  function SharesCodec(v: nat, c: Core): Codec<Shares> {
    Maybe(v >= 6, As(ShareParts(c), SharesTo, SharesFrom, Any, Any), NoShares(c))
  }

  function Rosters(v: nat): Codec<seq<RosterRec>> { Maybe(v >= 7, List(RosterCodec()), []) }
  function Proven(v: nat, c: Core): Codec<seq<bool>> {
    Maybe(v >= 8, Column(Flag(), |c.kills|), Fill(|c.kills|, false))
  }
  function SessionStrings(v: nat): Codec<(seq<Bytes>, seq<Bytes>)> {
    Maybe(v >= 9, Pair(List(Str()), List(Str())), ([], []))
  }

  predicate IsReportKey(k: Bytes) { k == [] || |k| == REPORT_KEY_BYTES }
  function SameBytes(k: Bytes): Bytes { k }
  function ReportKey(v: nat): Codec<Bytes> {
    Maybe(v >= 10, As(Str(), SameBytes, SameBytes, IsReportKey, IsReportKey), [])
  }
  function ReportShares(v: nat): Codec<seq<ReportShare>> { Maybe(v >= 11, List(ReportCodec()), []) }

  type Extra4 = (seq<bool>, ((seq<Bytes>, seq<Bytes>), (Bytes, seq<ReportShare>)))
  type Extra7 = (seq<Meta>, (Shares, (seq<RosterRec>, Extra4)))
  function ExtraTo(x: Extra): Extra7 {
    (x.ringMeta, (x.shares, (x.rosters, (x.proven, ((x.buffers, x.sessions), (x.reportKey, x.reportShares))))))
  }
  function ExtraFrom(p: Extra7): Extra {
    var last := p.1.1.1;
    Extra(p.0, p.1.0, p.1.1.0, last.0, last.1.0.0, last.1.0.1, last.1.1.0, last.1.1.1)
  }
  function Last(v: nat, c: Core): Codec<Extra4> {
    Pair(Proven(v, c), Pair(SessionStrings(v), Pair(ReportKey(v), ReportShares(v))))
  }
  function ExtraParts(v: nat, c: Core): Codec<Extra7> {
    Pair(RingMeta(v, c), Pair(SharesCodec(v, c), Pair(Rosters(v), Last(v, c))))
  }
  function ExtraCodec(v: nat, c: Core): Codec<Extra> { As(ExtraParts(v, c), ExtraTo, ExtraFrom, Any, Any) }

  lemma {:induction false} RingMetaGood(v: nat, c: Core)
    requires |c.topics| < U32_END && forall i | 0 <= i < |c.topics| :: |c.topics[i].frames| < U32_END
    ensures Good(RingMeta(v, c))
  {
    hide Good, Solid, Roomy, Str, I64, Pair, Column, Counted, Each, Maybe;
    var ns := TopicSizes(c.topics);
    FieldsGood();
    MaybeGood(v == 5, Str(), []);
    forall i | 0 <= i < |ns| ensures Good(MetaFor(v)(ns[i])) && Roomy(1, MetaFor(v)(ns[i])) {
      var n := ns[i];
      ColumnGood(I64(), n);
      ColumnRoomy(I64(), n);
      CountedGood(n, Column(I64(), n));
      PairGood(Maybe(v == 5, Str(), []), Counted(n, Column(I64(), n)));
      PairRoomy(Maybe(v == 5, Str(), []), Counted(n, Column(I64(), n)));
    }
    EachGood(MetaFor(v), ns);
    EachRoomy(MetaFor(v), ns);
    CountedGood(|ns|, Each(MetaFor(v), ns));
    MaybeGood(v >= 5, Counted(|ns|, Each(MetaFor(v), ns)), NoMeta(ns));
  }

  lemma {:induction false} PairRoomy<S(!new), T(!new)>(a: Codec<S>, b: Codec<T>)
    requires Roomy(4, b)
    ensures Roomy(1, Pair(a, b))
  {
    forall x | Pair(a, b).fits(x) ensures |Pair(a, b).put(x)| >= 1 { assert |b.put(x.1)| >= 4; }
  }

  lemma {:induction false} SharesGood(v: nat, c: Core)
    ensures Good(SharesCodec(v, c))
  {
    hide Good, Solid, U64, Pair, Column, Each, List, As, Maybe, RegistrationCodec;
    FieldsGood();
    ChargedGood();
    forall n ensures Good(ShareColumn(n)) && Good(ShareRow(n)) {
      ColumnGood(U64(), n);
      PairGood(U64(), Column(U64(), n));
    }
    EachGood(ShareColumn, QueueSizes(c.dm));
    EachGood(ShareRow, TopicSizes(c.topics));
    ListGood(RegistrationCodec());
    Good4(ShareColumn(|c.kills|), ShareColumn(|c.marks|), ShareColumn(|c.locks|), List(RegistrationCodec()));
    Good3(Each(ShareColumn, QueueSizes(c.dm)), Each(ShareRow, TopicSizes(c.topics)),
          Pair(ShareColumn(|c.kills|),
               Pair(ShareColumn(|c.marks|), Pair(ShareColumn(|c.locks|), List(RegistrationCodec())))));
    AsGood(ShareParts(c), SharesTo, SharesFrom, Any<Shares>, Any<Shares6>);
    MaybeGood(v >= 6, As(ShareParts(c), SharesTo, SharesFrom, Any, Any), NoShares(c));
  }

  lemma {:induction false} LastGood(v: nat, c: Core)
    ensures Good(Last(v, c)) && Good(Rosters(v))
  {
    hide Good, Solid, Str, Flag, Pair, Column, List, As, Maybe, RosterCodec, ReportCodec;
    FieldsGood();
    RosterGood();
    ChargedGood();
    ListGood(RosterCodec());
    MaybeGood(v >= 7, List(RosterCodec()), []);
    ColumnGood(Flag(), |c.kills|);
    MaybeGood(v >= 8, Column(Flag(), |c.kills|), Fill(|c.kills|, false));
    ListGood(Str());
    PairGood(List(Str()), List(Str()));
    MaybeGood(v >= 9, Pair(List(Str()), List(Str())), ([], []));
    AsGood(Str(), SameBytes, SameBytes, IsReportKey, IsReportKey);
    MaybeGood(v >= 10, As(Str(), SameBytes, SameBytes, IsReportKey, IsReportKey), []);
    ListGood(ReportCodec());
    MaybeGood(v >= 11, List(ReportCodec()), []);
    Good4(Proven(v, c), SessionStrings(v), ReportKey(v), ReportShares(v));
  }

  lemma {:induction false} ExtraGood(v: nat, c: Core)
    requires |c.topics| < U32_END && forall i | 0 <= i < |c.topics| :: |c.topics[i].frames| < U32_END
    ensures Good(ExtraCodec(v, c))
  {
    hide Good, Solid, Pair, As, RingMeta, SharesCodec, Rosters, Last;
    RingMetaGood(v, c);
    SharesGood(v, c);
    LastGood(v, c);
    Good4(RingMeta(v, c), SharesCodec(v, c), Rosters(v), Last(v, c));
    AsGood(ExtraParts(v, c), ExtraTo, ExtraFrom, Any<Extra>, Any<Extra7>);
  }

  // ---- The whole body ----

  function ExtraAfter(v: nat): Core -> Codec<Extra> { (c: Core) => ExtraCodec(v, c) }

  function Body(v: nat): Codec<(Core, Extra)> { Then(CoreCodec(v), ExtraAfter(v)) }

  lemma {:induction false} CoreBounds(v: nat, c: Core)
    requires CoreCodec(v).fits(c)
    ensures |c.topics| < U32_END && forall i | 0 <= i < |c.topics| :: |c.topics[i].frames| < U32_END
  {
    hide Queues, Optins, Tokens, Prefs, Late, FrameCodec, Str, U32, I64, Flag;
    assert CoreParts(v).fits(CoreTo(c));
    assert Topics().fits(c.topics);
    forall i | 0 <= i < |c.topics| ensures |c.topics[i].frames| < U32_END {
      var p := TopicTo(c.topics[i]);
      assert TopicCodec().fits(c.topics[i]);
      assert Pair(Str(), Pair(Flag(), Pair(I64(), Pair(U32(), List(FrameCodec()))))).fits(p);
      assert Pair(I64(), Pair(U32(), List(FrameCodec()))).fits(p.1.1);
    }
  }

  lemma {:induction false} BodyGood(v: nat)
    ensures Good(Body(v))
  {
    hide Good, Solid, Then, CoreCodec, ExtraCodec;
    CoreGood(v);
    forall c | CoreCodec(v).fits(c) ensures Good(ExtraAfter(v)(c)) {
      CoreBounds(v, c);
      ExtraGood(v, c);
    }
    ThenGood(CoreCodec(v), ExtraAfter(v));
  }

  // ---- A snapshot ----

  const HEADER: Bytes := [0x48, 0x52, 0x53, 0x4E]
  const TRAILER: Bytes := [0x48, 0x52, 0x53, 0x45]

  datatype Raw = Raw(version: nat, core: Core, extra: Extra)

  // The sections between the two tags, of a version from 1 to 11 and with no byte left over.
  function Read(bytes: Bytes): Option<Raw> {
    if |bytes| < 4 || bytes[..4] != HEADER then None
    else
      match U32().get(bytes[4..])
      case Refused => None
      case Got(v, rest) =>
        if v < MIN_VERSION || v > VERSION then None
        else
          match Body(v).get(rest)
          case Refused => None
          case Got(x, left) => if left == TRAILER then Some(Raw(v, x.0, x.1)) else None
  }

  function Write(r: Raw): Bytes {
    HEADER + U32().put(r.version) + Body(r.version).put((r.core, r.extra)) + TRAILER
  }

  ghost predicate RawFits(r: Raw) {
    1 <= r.version <= 11 && Body(r.version).fits((r.core, r.extra))
  }

  // What is read is exactly what would be written, for every version.
  lemma {:induction false} ReadIsWritten(bytes: Bytes, r: Raw)
    ensures Read(bytes) == Some(r) <==> RawFits(r) && bytes == Write(r)
  {
    hide Body, U32, Read, Good;
    if RawFits(r) { WrittenIsRead(r, []); }
    if Read(bytes) == Some(r) { ReadWasWritten(bytes, r); }
    assert Write(r) + [] == Write(r);
  }

  // Read with more behind it, a snapshot is read the same and the rest is left over.
  lemma {:induction false} WrittenIsRead(r: Raw, more: Bytes)
    requires RawFits(r)
    ensures Read(Write(r) + more) == if more == [] then Some(r) else None
  {
    hide Body, U32, Good;
    FieldsGood();
    VersionFits(r.version);
    BodyGood(r.version);
    var x, left := (r.core, r.extra), TRAILER + more;
    var rest := Body(r.version).put(x) + left;
    Reassociate(HEADER, U32().put(r.version), Body(r.version).put(x), TRAILER, more);
    Back(U32(), r.version, rest);
    Back(Body(r.version), x, left);
    assert |left| == 4 + |more|;
    assert more == [] ==> left == TRAILER;
  }

  lemma {:induction false} Reassociate(h: Bytes, a: Bytes, b: Bytes, t: Bytes, m: Bytes)
    ensures var all, tail := h + a + b + t + m, a + (b + (t + m));
            all[..|h|] == h && all[|h|..] == tail
  {
    assert h + a + b + t + m == h + (a + (b + (t + m)));
  }

  lemma {:induction false} ReadWasWritten(bytes: Bytes, r: Raw)
    requires Read(bytes) == Some(r)
    ensures RawFits(r) && bytes == Write(r)
  {
    hide Body, U32, Good;
    FieldsGood();
    BodyGood(r.version);
    var g := U32().get(bytes[4..]);
    Was(U32(), bytes[4..]);
    Was(Body(r.version), g.rest);
    assert bytes == HEADER + bytes[4..];
  }

  lemma {:induction false} VersionFits(v: nat)
    requires v <= VERSION
    ensures U32().fits(v)
  {
    assert End(4) == U32_END;
  }

  // No snapshot is the front of another: whatever is cut off or added is refused.
  lemma {:induction false} PrefixFree(bytes: Bytes, more: Bytes)
    requires Read(bytes).Some? && Read(bytes + more).Some?
    ensures more == []
  {
    hide Body, Read, Write;
    var r := Read(bytes).value;
    ReadIsWritten(bytes, r);
    WrittenIsRead(r, more);
  }
}
