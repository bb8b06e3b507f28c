// relay-uws/src/snapshot_codec.h, encode and decode: a snapshot's data put into bytes and
// got back, sessions parsed one by one.
module SnapshotDatas {
  import opened Base
  import opened Codecs
  import opened Snapshots
  import opened SnapshotSessions
  import opened SnapshotBodies

  datatype DmFrame = DmFrame(core: DmCore, share: nat)
  datatype DmQueue = DmQueue(target: Bytes, frames: seq<DmFrame>)
  datatype TopicFrame = TopicFrame(core: TopicFrameCore, retentionSecs: int, share: nat)
  datatype Topic = Topic(key: Bytes, accepting: bool, retentionSecs: int, registeredAgeSecs: nat,
                         frames: seq<TopicFrame>, share: nat)
  datatype Kill = Kill(core: KillCore, share: nat, proven: bool)
  datatype Mark = Mark(core: MarkCore, share: nat)
  datatype Lock = Lock(core: LockCore, share: nat)

  datatype Data = Data(
    dm: seq<DmQueue>,
    optin: seq<Optin>,
    topics: seq<Topic>,
    tokens: seq<PushToken>,
    prefs: seq<PushPref>,
    kills: seq<Kill>,
    marks: seq<Mark>,
    locks: seq<Lock>,
    registrations: seq<Registration>,
    rosters: seq<RosterRec>,
    buffers: seq<Bytes>,
    sessions: seq<SessionRec>,
    reportKey: Bytes,
    reportShares: seq<ReportShare>
  )

  function Each1<S, T>(xs: seq<S>, f: S -> T): (ys: seq<T>)
    ensures |ys| == |xs| && forall i | 0 <= i < |xs| :: ys[i] == f(xs[i])
  {
    seq(|xs|, i requires 0 <= i < |xs| => f(xs[i]))
  }

  // ---- Apart, as the sections write it ----

  function QueueCore(q: DmQueue): DmQueueCore { DmQueueCore(q.target, Each1(q.frames, (f: DmFrame) => f.core)) }
  function QueueShares(q: DmQueue): seq<nat> { Each1(q.frames, (f: DmFrame) => f.share) }
  function TopicPart(t: Topic): TopicCore {
    TopicCore(t.key, t.accepting, t.retentionSecs, t.registeredAgeSecs, Each1(t.frames, (f: TopicFrame) => f.core))
  }
  function TopicMeta(t: Topic): Meta { ([], Each1(t.frames, (f: TopicFrame) => f.retentionSecs)) }
  function TopicShares(t: Topic): (nat, seq<nat>) { (t.share, Each1(t.frames, (f: TopicFrame) => f.share)) }

  function CoreOf(d: Data): Core {
    Core(Each1(d.dm, QueueCore), d.optin, Each1(d.topics, TopicPart), d.tokens, d.prefs,
         Each1(d.kills, (k: Kill) => k.core), Each1(d.marks, (m: Mark) => m.core), Each1(d.locks, (l: Lock) => l.core))
  }

  function SharesOf(d: Data): Shares {
    Shares(Each1(d.dm, QueueShares), Each1(d.topics, TopicShares), Each1(d.kills, (k: Kill) => k.share),
           Each1(d.marks, (m: Mark) => m.share), Each1(d.locks, (l: Lock) => l.share), d.registrations)
  }

  function ExtraOf(d: Data): Extra {
    Extra(Each1(d.topics, TopicMeta), SharesOf(d), d.rosters, Each1(d.kills, (k: Kill) => k.proven), d.buffers,
          Each1(d.sessions, EncodeSession), d.reportKey, d.reportShares)
  }

  // ---- Together again ----

  function At<T>(xs: seq<T>, i: nat, x: T): T { if i < |xs| then xs[i] else x }

  function JoinQueue(q: DmQueueCore, shares: seq<nat>): DmQueue {
    DmQueue(q.target, seq(|q.frames|, i requires 0 <= i < |q.frames| => DmFrame(q.frames[i], At(shares, i, 0))))
  }

  function JoinTopic(t: TopicCore, meta: Meta, shares: (nat, seq<nat>)): Topic {
    Topic(t.key, t.accepting, t.retentionSecs, t.registeredAgeSecs,
          seq(|t.frames|, i requires 0 <= i < |t.frames| =>
            TopicFrame(t.frames[i], At(meta.1, i, 0), At(shares.1, i, 0))),
          shares.0)
  }

  // The records that parse; each that does not costs itself alone.
  function ParseAll(recs: seq<Bytes>, buffers: nat): seq<SessionRec> {
    if recs == [] then []
    else
      var s := ParseSession(recs[0], buffers);
      (if s.Some? then [s.value] else []) + ParseAll(recs[1..], buffers)
  }

  function Dropped(recs: seq<Bytes>, buffers: nat): nat {
    if recs == [] then 0
    else (if ParseSession(recs[0], buffers).Some? then 0 else 1) + Dropped(recs[1..], buffers)
  }

  function Assembled(c: Core, e: Extra): Data {
    Data(
      seq(|c.dm|, i requires 0 <= i < |c.dm| => JoinQueue(c.dm[i], At(e.shares.dm, i, []))),
      c.optin,
      seq(|c.topics|, i requires 0 <= i < |c.topics| =>
        JoinTopic(c.topics[i], At(e.ringMeta, i, ([], [])), At(e.shares.topics, i, (0, [])))),
      c.tokens,
      c.prefs,
      seq(|c.kills|, i requires 0 <= i < |c.kills| =>
        Kill(c.kills[i], At(e.shares.kills, i, 0), At(e.proven, i, false))),
      seq(|c.marks|, i requires 0 <= i < |c.marks| => Mark(c.marks[i], At(e.shares.marks, i, 0))),
      seq(|c.locks|, i requires 0 <= i < |c.locks| => Lock(c.locks[i], At(e.shares.locks, i, 0))),
      e.shares.registrations,
      e.rosters,
      e.buffers,
      ParseAll(e.sessions, |e.buffers|),
      e.reportKey,
      e.reportShares)
  }

  // ---- Encode and decode ----

  function Encode(d: Data): Bytes {
    Write(Raw(VERSION, CoreOf(d), ExtraOf(d)))
  }

  datatype Decoded = Decoded(data: Data, sessionsDropped: nat)

  function Decode(bytes: Bytes): Option<Decoded> {
    match Read(bytes)
    case None => None
    case Some(r) => Some(Decoded(Assembled(r.core, r.extra), Dropped(r.extra.sessions, |r.extra.buffers|)))
  }

  // Data a snapshot can carry: numbers in range, strings and lists within their bounds,
  // every ring frame's buffer among the buffers, a report key of no or 32 bytes.
  ghost predicate Canonical(d: Data) {
    && RawFits(Raw(VERSION, CoreOf(d), ExtraOf(d)))
    && forall i | 0 <= i < |d.sessions| :: SessionFits(d.sessions[i], |d.buffers|)
  }

  lemma {:induction false} SessionsBack(ss: seq<SessionRec>, buffers: nat)
    requires forall i | 0 <= i < |ss| :: SessionFits(ss[i], buffers)
    ensures ParseAll(Each1(ss, EncodeSession), buffers) == ss && Dropped(Each1(ss, EncodeSession), buffers) == 0
  {
    hide SessionFits, ParseSession, EncodeSession;
    if ss != [] {
      var recs := Each1(ss, EncodeSession);
      assert recs[1..] == Each1(ss[1..], EncodeSession);
      SessionRoundTrip(ss[0], recs[0], buffers);
      SessionsBack(ss[1..], buffers);
      assert ss == [ss[0]] + ss[1..];
    }
  }

  lemma {:induction false} AssemblesBack(d: Data)
    requires forall i | 0 <= i < |d.sessions| :: SessionFits(d.sessions[i], |d.buffers|)
    ensures Assembled(CoreOf(d), ExtraOf(d)) == d
  {
    hide SessionFits, EncodeSession, ParseAll, Dropped;
    SessionsBack(d.sessions, |d.buffers|);
    var a := Assembled(CoreOf(d), ExtraOf(d));
    forall i | 0 <= i < |d.dm| ensures a.dm[i] == d.dm[i] { assert a.dm[i].frames == d.dm[i].frames; }
    forall i | 0 <= i < |d.topics| ensures a.topics[i] == d.topics[i] {
      assert a.topics[i].frames == d.topics[i].frames;
    }
    assert a.dm == d.dm && a.topics == d.topics;
    assert a.kills == d.kills && a.marks == d.marks && a.locks == d.locks;
  }

  // Decoding undoes encoding.
  lemma {:induction false} DecodeUndoesEncode(d: Data)
    requires Canonical(d)
    ensures Decode(Encode(d)) == Some(Decoded(d, 0))
  {
    hide RawFits, Read, Write, CoreOf, SessionFits, Assembled, ParseAll, Dropped, EncodeSession;
    ReadIsWritten(Encode(d), Raw(VERSION, CoreOf(d), ExtraOf(d)));
    AssemblesBack(d);
    SessionsBack(d.sessions, |d.buffers|);
  }

  // Whatever is cut off a snapshot or added to it is refused.
  lemma {:induction false} DecodePrefixFree(bytes: Bytes, more: Bytes)
    requires Decode(bytes).Some? && Decode(bytes + more).Some?
    ensures more == []
  {
    hide Read, Assembled, Dropped;
    PrefixFree(bytes, more);
  }
}
