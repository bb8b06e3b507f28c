// relay-uws/src/snapshot_codec.h, decode: whatever any version from 1 to 11 decodes to, this
// build can write again and read back, with no session lost.
module SnapshotUpgrades {
  import opened Base
  import opened Codecs
  import opened Snapshots
  import opened SnapshotSessions
  import opened SnapshotBodies
  import opened SnapshotDatas

  // A section a version lacks is read as something a newer version can write.
  lemma {:induction false} MaybeUp<T(!new)>(present: bool, c: Codec<T>, absent: T, x: T)
    requires Maybe(present, c, absent).fits(x) && c.fits(absent)
    ensures Maybe(true, c, absent).fits(x) && c.fits(x)
  {}

  lemma {:induction false} ZeroFits()
    ensures U64().fits(0) && I64().fits(0) && Flag().fits(false)
  {
    assert End(8) > 0 && End(1) > 0;
    assert U64().fits(Unsigned(0)) && U8().fits(Bit(false));
  }

  // ---- The lists ----

  lemma {:induction false} CoreParts8(v: nat, c: Core)
    ensures CoreCodec(v).fits(c) <==>
              && Queues().fits(c.dm) && Optins().fits(c.optin) && Topics().fits(c.topics) && Tokens().fits(c.tokens)
              && Prefs().fits(c.prefs) && Kills(v).fits(c.kills) && Marks(v).fits(c.marks) && Locks(v).fits(c.locks)
  {
    hide Queues, Optins, Topics, Tokens, Prefs, Kills, Marks, Locks;
    var p := CoreTo(c);
    assert CoreCodec(v).fits(c) <==> CoreParts(v).fits(p);
    var late := p.1.1.1.1.1;
    assert Late(v).fits(late) <==> Kills(v).fits(c.kills) && Marks(v).fits(c.marks) && Locks(v).fits(c.locks);
    assert Pair(Tokens(), Pair(Prefs(), Late(v))).fits(p.1.1.1) <==>
           Tokens().fits(c.tokens) && Prefs().fits(c.prefs) && Late(v).fits(late);
  }

  lemma {:induction false} CoreUp(v: nat, c: Core)
    requires CoreCodec(v).fits(c)
    ensures CoreCodec(VERSION).fits(c)
  {
    hide CoreCodec, Queues, Optins, Topics, Tokens, Prefs, KillCodec, MarkCodec, LockCodec;
    CoreParts8(v, c);
    CoreParts8(VERSION, c);
    MaybeUp(v >= 2, List(KillCodec()), [], c.kills);
    MaybeUp(v >= 3, List(MarkCodec()), [], c.marks);
    MaybeUp(v >= 4, List(LockCodec()), [], c.locks);
  }

  // ---- The later sections ----

  lemma {:induction false} ExtraParts8(v: nat, c: Core, e: Extra)
    ensures ExtraCodec(v, c).fits(e) <==>
              && RingMeta(v, c).fits(e.ringMeta) && SharesCodec(v, c).fits(e.shares) && Rosters(v).fits(e.rosters)
              && Proven(v, c).fits(e.proven) && SessionStrings(v).fits((e.buffers, e.sessions))
              && ReportKey(v).fits(e.reportKey) && ReportShares(v).fits(e.reportShares)
  {
    hide RingMeta, SharesCodec, Rosters, Proven, SessionStrings, ReportKey, ReportShares;
    var p := ExtraTo(e);
    assert ExtraCodec(v, c).fits(e) <==> ExtraParts(v, c).fits(p);
    assert Last(v, c).fits(p.1.1.1) <==>
           && Proven(v, c).fits(e.proven) && SessionStrings(v).fits((e.buffers, e.sessions))
           && ReportKey(v).fits(e.reportKey) && ReportShares(v).fits(e.reportShares);
  }

  // Version 5's owner bindings are dropped.
  function Blanked(ms: seq<Meta>): seq<Meta> { Each1(ms, (m: Meta) => ([], m.1)) }

  lemma {:induction false} MetaParts(v: nat, n: nat, m: Meta)
    ensures MetaFor(v)(n).fits(m) <==> Maybe(v == 5, Str(), []).fits(m.0) && Column(I64(), n).fits(m.1)
  {
    hide Str, I64, Column, Maybe;
  }

  lemma {:induction false} MetaUp(v: nat, c: Core, ms: seq<Meta>)
    requires RingMeta(v, c).fits(ms)
    ensures |ms| == |c.topics| && forall i | 0 <= i < |ms| :: |ms[i].1| == |c.topics[i].frames|
    ensures RingMeta(VERSION, c).fits(Blanked(ms))
  {
    hide Str, I64, MetaFor;
    var ns := TopicSizes(c.topics);
    ZeroFits();
    forall i | 0 <= i < |ms| && i < |ns| ensures Column(I64(), ns[i]).fits(ms[i].1) {
      if v >= 5 {
        assert MetaFor(v)(ns[i]).fits(ms[i]);
        MetaParts(v, ns[i], ms[i]);
      }
    }
    forall i | 0 <= i < |ms| && i < |ns| ensures MetaFor(VERSION)(ns[i]).fits(Blanked(ms)[i]) {
      MetaParts(VERSION, ns[i], Blanked(ms)[i]);
    }
  }

  lemma {:induction false} ShareParts6(c: Core, s: Shares)
    ensures As(ShareParts(c), SharesTo, SharesFrom, Any, Any).fits(s) <==>
              && Each(ShareColumn, QueueSizes(c.dm)).fits(s.dm) && Each(ShareRow, TopicSizes(c.topics)).fits(s.topics)
              && ShareColumn(|c.kills|).fits(s.kills) && ShareColumn(|c.marks|).fits(s.marks)
              && ShareColumn(|c.locks|).fits(s.locks) && List(RegistrationCodec()).fits(s.registrations)
  {
    hide Each, ShareColumn, ShareRow, List, RegistrationCodec;
    var p := SharesTo(s);
    assert As(ShareParts(c), SharesTo, SharesFrom, Any, Any).fits(s) <==> ShareParts(c).fits(p);
    var rest := Pair(ShareColumn(|c.marks|), Pair(ShareColumn(|c.locks|), List(RegistrationCodec())));
    assert Pair(ShareColumn(|c.kills|), rest).fits(p.1.1) <==>
             && ShareColumn(|c.kills|).fits(s.kills) && ShareColumn(|c.marks|).fits(s.marks)
             && ShareColumn(|c.locks|).fits(s.locks) && List(RegistrationCodec()).fits(s.registrations);
  }

  lemma {:induction false} ZeroColumn(n: nat)
    ensures ShareColumn(n).fits(Fill(n, 0)) && ShareRow(n).fits((0, Fill(n, 0)))
  {
    hide U64;
    ZeroFits();
    assert Column(U64(), n).fits(Fill(n, 0));
  }

  lemma {:induction false} ZeroEach(ns: seq<nat>)
    ensures Each(ShareColumn, ns).fits(NoColumns(ns)) && Each(ShareRow, ns).fits(NoRows(ns))
  {
    hide ShareColumn, ShareRow;
    forall i | 0 <= i < |ns| ensures ShareColumn(ns[i]).fits(NoColumns(ns)[i]) && ShareRow(ns[i]).fits(NoRows(ns)[i]) {
      ZeroColumn(ns[i]);
    }
  }

  lemma {:induction false} ZeroColumns(c: Core)
    ensures As(ShareParts(c), SharesTo, SharesFrom, Any, Any).fits(NoShares(c))
  {
    hide As, ShareParts, Each, ShareColumn, ShareRow, RegistrationCodec, NoColumns, NoRows, Fill;
    ShareParts6(c, NoShares(c));
    ZeroEach(QueueSizes(c.dm));
    ZeroEach(TopicSizes(c.topics));
    ZeroColumn(|c.kills|);
    ZeroColumn(|c.marks|);
    ZeroColumn(|c.locks|);
  }

  lemma {:induction false} SharesUp(v: nat, c: Core, s: Shares)
    requires SharesCodec(v, c).fits(s)
    ensures SharesCodec(VERSION, c).fits(s)
    ensures |s.dm| == |c.dm| && forall i | 0 <= i < |s.dm| :: |s.dm[i]| == |c.dm[i].frames|
    ensures |s.topics| == |c.topics| && forall i | 0 <= i < |s.topics| :: |s.topics[i].1| == |c.topics[i].frames|
    ensures |s.kills| == |c.kills| && |s.marks| == |c.marks| && |s.locks| == |c.locks|
  {
    hide U64, As, ShareParts, RegistrationCodec, NoShares;
    ZeroColumns(c);
    MaybeUp(v >= 6, As(ShareParts(c), SharesTo, SharesFrom, Any, Any), NoShares(c), s);
    ShareParts6(c, s);
    assert forall i | 0 <= i < |s.dm| :: ShareColumn(QueueSizes(c.dm)[i]).fits(s.dm[i]);
    assert forall i | 0 <= i < |s.topics| :: ShareRow(TopicSizes(c.topics)[i]).fits(s.topics[i]);
  }

  // The records that parse are written again as they were.
  lemma {:induction false} RecordsKept(recs: seq<Bytes>, buffers: nat)
    ensures var ss := ParseAll(recs, buffers);
            && |ss| <= |recs| && (forall i | 0 <= i < |ss| :: SessionFits(ss[i], buffers))
            && forall i | 0 <= i < |ss| :: EncodeSession(ss[i]) in recs
  {
    hide SessionFits, ParseSession, EncodeSession;
    if recs != [] {
      RecordsKept(recs[1..], buffers);
      var s := ParseSession(recs[0], buffers);
      if s.Some? { SessionRoundTrip(s.value, recs[0], buffers); }
    }
  }

  lemma {:induction false} StringsUp(v: nat, buffers: seq<Bytes>, recs: seq<Bytes>)
    requires SessionStrings(v).fits((buffers, recs))
    ensures SessionStrings(VERSION).fits((buffers, Each1(ParseAll(recs, |buffers|), EncodeSession)))
  {
    hide Str, SessionFits, EncodeSession, ParseAll;
    MaybeUp(v >= 9, Pair(List(Str()), List(Str())), ([], []), (buffers, recs));
    RecordsKept(recs, |buffers|);
  }

  // ---- Together ----

  // What the sections of a decoded snapshot become when it is written again.
  function Rewritten(e: Extra): Extra {
    e.(ringMeta := Blanked(e.ringMeta), sessions := Each1(ParseAll(e.sessions, |e.buffers|), EncodeSession))
  }

  ghost predicate LinedUp(c: Core, e: Extra) {
    && |e.ringMeta| == |c.topics| && (forall i | 0 <= i < |e.ringMeta| :: |e.ringMeta[i].1| == |c.topics[i].frames|)
    && |e.shares.dm| == |c.dm| && (forall i | 0 <= i < |c.dm| :: |e.shares.dm[i]| == |c.dm[i].frames|)
    && |e.shares.topics| == |c.topics|
    && (forall i | 0 <= i < |c.topics| :: |e.shares.topics[i].1| == |c.topics[i].frames|)
    && |e.shares.kills| == |c.kills| == |e.proven| && |e.shares.marks| == |c.marks| && |e.shares.locks| == |c.locks|
  }

  lemma {:induction false} ComesApart(c: Core, e: Extra)
    requires LinedUp(c, e)
    ensures CoreOf(Assembled(c, e)) == c && ExtraOf(Assembled(c, e)) == Rewritten(e)
  {
    hide EncodeSession, ParseAll;
    var d := Assembled(c, e);
    var c2, e2, w := CoreOf(d), ExtraOf(d), Rewritten(e);
    forall i | 0 <= i < |c.dm| ensures c2.dm[i] == c.dm[i] && e2.shares.dm[i] == e.shares.dm[i] {
      assert c2.dm[i].frames == c.dm[i].frames;
    }
    forall i | 0 <= i < |c.topics|
      ensures c2.topics[i] == c.topics[i] && e2.shares.topics[i] == e.shares.topics[i]
              && e2.ringMeta[i] == w.ringMeta[i]
    {
      assert c2.topics[i].frames == c.topics[i].frames;
      assert e2.shares.topics[i].1 == e.shares.topics[i].1;
      assert e2.ringMeta[i].1 == e.ringMeta[i].1;
    }
    assert c2.dm == c.dm && c2.topics == c.topics && c2.kills == c.kills && c2.marks == c.marks && c2.locks == c.locks;
    assert e2.ringMeta == w.ringMeta && e2.shares == e.shares && e2.proven == e.proven;
  }

  lemma {:induction false} ExtraUp(v: nat, c: Core, e: Extra)
    requires ExtraCodec(v, c).fits(e)
    ensures LinedUp(c, e) && ExtraCodec(VERSION, c).fits(Rewritten(e))
  {
    hide ExtraCodec, RingMeta, SharesCodec, SessionStrings, Str, Flag, RosterCodec, ReportCodec, EncodeSession,
         ParseAll, Blanked;
    ExtraParts8(v, c, e);
    ExtraParts8(VERSION, c, Rewritten(e));
    MetaUp(v, c, e.ringMeta);
    SharesUp(v, c, e.shares);
    StringsUp(v, e.buffers, e.sessions);
    ZeroFits();
    MaybeUp(v >= 7, List(RosterCodec()), [], e.rosters);
    MaybeUp(v >= 8, Column(Flag(), |c.kills|), Fill(|c.kills|, false), e.proven);
    MaybeUp(v >= 11, List(ReportCodec()), [], e.reportShares);
    KeyUp(v, e.reportKey);
  }

  lemma {:induction false} KeyUp(v: nat, key: Bytes)
    requires ReportKey(v).fits(key)
    ensures ReportKey(VERSION).fits(key)
  {
    var c := As(Str(), SameBytes, SameBytes, IsReportKey, IsReportKey);
    assert c.fits([]) by { assert Str().fits(SameBytes([])); }
    MaybeUp(v >= 10, c, [], key);
  }

  // Anything decoded from any version can be written again.
  lemma {:induction false} DecodedIsCanonical(bytes: Bytes)
    requires Decode(bytes).Some?
    ensures Canonical(Decode(bytes).value.data)
  {
    hide Read, Write, ExtraCodec, CoreCodec, Assembled, CoreOf, ExtraOf, ParseAll, Dropped, SessionFits, EncodeSession;
    var r := Read(bytes).value;
    ReadIsWritten(bytes, r);
    BodyParts(r.version, r.core, r.extra);
    CoreUp(r.version, r.core);
    ExtraUp(r.version, r.core, r.extra);
    ComesApart(r.core, r.extra);
    BodyParts(VERSION, r.core, Rewritten(r.extra));
    RecordsKept(r.extra.sessions, |r.extra.buffers|);
    AssembledSessions(r.core, r.extra);
  }

  lemma {:induction false} BodyParts(v: nat, c: Core, e: Extra)
    ensures Body(v).fits((c, e)) <==> CoreCodec(v).fits(c) && ExtraCodec(v, c).fits(e)
  {
    hide CoreCodec, ExtraCodec;
  }

  lemma {:induction false} AssembledSessions(c: Core, e: Extra)
    ensures Assembled(c, e).sessions == ParseAll(e.sessions, |e.buffers|) && Assembled(c, e).buffers == e.buffers
  {}

  // And reads back the same, no session dropped.
  lemma {:induction false} UpgradeKeepsAll(bytes: Bytes)
    requires Decode(bytes).Some?
    ensures var d := Decode(bytes).value.data; Decode(Encode(d)) == Some(Decoded(d, 0))
  {
    hide Decode, Encode, Canonical;
    DecodedIsCanonical(bytes);
    DecodeUndoesEncode(Decode(bytes).value.data);
  }
}
