// relay-uws/src/roster.h: the statements about one identity's devices, and how a set of them
// is checked, compacted and merged.
module Rosters {
  import opened Base
  import opened Orders
  import opened Closures

  const LEGACY_BASE := "legacy"
  const MAX_FUTURE_SKEW_MS: int := 10 * 60 * 1000
  const MAX_VOUCHES: nat := 128
  const MAX_REMOVALS: nat := 96
  const MAX_REMOVAL_KEEP: nat := 16
  const MAX_KEEP: nat := 64
  const MAX_RECOVERY_TIES: nat := 4
  const MAX_PHRASE_ADMITS: nat := 64
  const MAX_LEGACY: nat := 64
  const MAX_PENDING: nat := 16
  const MAX_CONSENTS: nat := 96
  const MAX_UNNAMED_CONSENTS: nat := 8

  // ---- Statements ----

  datatype Consent = Consent(device: string, sig: string)
  datatype Recovery = Recovery(at: int, keep: seq<string>, noWait: bool, sigR: string, sigM: string)
  datatype PhraseAdmit = PhraseAdmit(at: int, device: string, sigR: string, sigM: string)
  datatype Vouch = Vouch(base: string, device: string, signer: string, sig: string)
  datatype Pending = Pending(base: string, device: string, sigM: string)
  datatype LegacyClaim = LegacyClaim(device: string, sigM: string)
  datatype Removal = Removal(base: string, device: string, signer: string, keepVouched: seq<string>, sig: string)

  // The fields each kind sorts by, in order.
  function ConsentKey(x: Consent): Key { [Str(x.device), Str(x.sig)] }
  function RecoveryKey(x: Recovery): Key {
    [Num(x.at), Strs(x.keep), Num(if x.noWait then 1 else 0), Str(x.sigR), Str(x.sigM)]
  }
  function PhraseKey(x: PhraseAdmit): Key { [Num(x.at), Str(x.device), Str(x.sigR), Str(x.sigM)] }
  function VouchKey(x: Vouch): Key { [Str(x.base), Str(x.device), Str(x.signer), Str(x.sig)] }
  function PendingKey(x: Pending): Key { [Str(x.base), Str(x.device), Str(x.sigM)] }
  function LegacyKey(x: LegacyClaim): Key { [Str(x.device), Str(x.sigM)] }
  function RemovalKey(x: Removal): Key {
    [Str(x.base), Str(x.device), Str(x.signer), Strs(x.keepVouched), Str(x.sig)]
  }

  lemma {:induction false} KeysInjective()
    ensures Injective(ConsentKey) && Injective(RecoveryKey) && Injective(PhraseKey) && Injective(VouchKey)
    ensures Injective(PendingKey) && Injective(LegacyKey) && Injective(RemovalKey)
  {
    forall x, y | ConsentKey(x) == ConsentKey(y) ensures x == y {
      assert ConsentKey(x)[0] == ConsentKey(y)[0] && ConsentKey(x)[1] == ConsentKey(y)[1];
    }
    forall x, y | RecoveryKey(x) == RecoveryKey(y) ensures x == y {
      assert forall i | 0 <= i < 5 :: RecoveryKey(x)[i] == RecoveryKey(y)[i];
      assert RecoveryKey(x)[2] == RecoveryKey(y)[2];
    }
    forall x, y | PhraseKey(x) == PhraseKey(y) ensures x == y {
      assert forall i | 0 <= i < 4 :: PhraseKey(x)[i] == PhraseKey(y)[i];
    }
    forall x, y | VouchKey(x) == VouchKey(y) ensures x == y {
      assert forall i | 0 <= i < 4 :: VouchKey(x)[i] == VouchKey(y)[i];
    }
    forall x, y | PendingKey(x) == PendingKey(y) ensures x == y {
      assert forall i | 0 <= i < 3 :: PendingKey(x)[i] == PendingKey(y)[i];
    }
    forall x, y | LegacyKey(x) == LegacyKey(y) ensures x == y {
      assert forall i | 0 <= i < 2 :: LegacyKey(x)[i] == LegacyKey(y)[i];
    }
    forall x, y | RemovalKey(x) == RemovalKey(y) ensures x == y {
      assert forall i | 0 <= i < 5 :: RemovalKey(x)[i] == RemovalKey(y)[i];
    }
  }

  // ---- Crypto, handed in ----

  // What a signature is over. The payload text is these fields in one line.
  datatype Message =
    | JoinMsg(master: string, device: string)
    | RecoveryMsg(master: string, rPub: string, at: int, keep: seq<string>, noWait: bool)
    | PhraseAdmitMsg(master: string, rPub: string, at: int, device: string)
    | AdmitMsg(master: string, base: string, device: string)
    | PendingMsg(master: string, base: string, device: string)
    | LegacyMsg(master: string, device: string)
    | RemoveMsg(master: string, base: string, device: string, keep: seq<string>)

  datatype Crypto = Crypto(
    verifyById: (string, string, Message) -> bool,
    verifyByKey: (string, string, Message) -> bool,
    isKey: string -> bool,
    sha256Hex: Message -> string
  )

  function IdKey(x: string): Key { [Str(x)] }

  function SortedIds(v: seq<string>): seq<string> {
    SortUnique(v, IdKey)
  }

  predicate IsBaseShape(base: string) {
    base == LEGACY_BASE ||
    (|base| == 32 && forall c | c in base :: '0' <= c <= '9' || 'a' <= c <= 'f')
  }

  // ---- The roster ----

  datatype Roster = Roster(
    master: string,
    rPub: string,
    recoveries: seq<Recovery>,
    phraseAdmits: seq<PhraseAdmit>,
    consents: seq<Consent>,
    vouches: seq<Vouch>,
    pendings: seq<Pending>,
    legacy: seq<LegacyClaim>,
    removals: seq<Removal>
  )

  function Named(m: string): Roster {
    Roster(m, "", [], [], [], [], [], [], [])
  }

  predicate WithinCaps(r: Roster) {
    && |r.recoveries| <= MAX_RECOVERY_TIES && |r.phraseAdmits| <= MAX_PHRASE_ADMITS
    && |r.consents| <= MAX_CONSENTS && |r.vouches| <= MAX_VOUCHES && |r.pendings| <= MAX_PENDING
    && |r.legacy| <= MAX_LEGACY && |r.removals| <= MAX_REMOVALS
  }

  // The id of the base a recovery starts: the first 32 hex digits of its payload's hash.
  function BaseId(m: string, rPub: string, x: Recovery, c: Crypto): string {
    var h := c.sha256Hex(RecoveryMsg(m, rPub, x.at, SortedIds(x.keep), x.noWait));
    if |h| > 32 then h[..32] else h
  }

  function LatestAt(rs: seq<Recovery>): int
    requires rs != []
  {
    if |rs| == 1 then rs[0].at
    else
      var rest := LatestAt(rs[1..]);
      if rs[0].at > rest then rs[0].at else rest
  }

  function LeastId(ids: seq<string>): string
    requires ids != []
  {
    if |ids| == 1 then ids[0]
    else
      var rest := LeastId(ids[1..]);
      if StrLess(ids[0], rest) then ids[0] else rest
  }

  function Ids(rs: seq<Recovery>, m: string, rPub: string, c: Crypto): (ids: seq<string>)
    ensures |ids| == |rs|
    ensures forall i | 0 <= i < |rs| :: ids[i] == BaseId(m, rPub, rs[i], c)
  {
    if rs == [] then [] else [BaseId(m, rPub, rs[0], c)] + Ids(rs[1..], m, rPub, c)
  }

  // The recoveries of the latest moment.
  function Latest(rs: seq<Recovery>): seq<Recovery> {
    if rs == [] then [] else Filter(rs, (x: Recovery) => x.at == LatestAt(rs))
  }

  datatype Current = Current(base: string, at: int, keep: set<string>, noWait: bool)

  function CurrentRecovery(r: Roster, c: Crypto): Option<Current> {
    if r.recoveries == [] then None
    else
      var tip := Latest(r.recoveries);
      LatestExists(r.recoveries);
      Some(Current(
        LeastId(Ids(tip, r.master, r.rPub, c)),
        LatestAt(r.recoveries),
        set x, k | x in tip && k in x.keep :: k,
        exists x | x in tip :: x.noWait))
  }

  lemma {:induction false} LatestAtIs(rs: seq<Recovery>)
    requires rs != []
    ensures exists x | x in rs :: x.at == LatestAt(rs)
    ensures forall x | x in rs :: x.at <= LatestAt(rs)
  {
    assert rs[0] in rs;
    if |rs| > 1 {
      LatestAtIs(rs[1..]);
      assert rs == [rs[0]] + rs[1..];
    }
  }

  lemma {:induction false} LatestExists(rs: seq<Recovery>)
    requires rs != []
    ensures Latest(rs) != []
  {
    LatestAtIs(rs);
    var x :| x in rs && x.at == LatestAt(rs);
    FilterElems(rs, (x: Recovery) => x.at == LatestAt(rs), x);
  }

  function BaseOf(r: Roster, c: Crypto): string {
    var cur := CurrentRecovery(r, c);
    if cur.Some? then cur.value.base else LEGACY_BASE
  }

  // Whom the current base starts from, with or without their consent: those a recovery keeps
  // and the phrase admitted since; without a recovery, those claimed and those admitted.
  function BaseRoots(r: Roster, c: Crypto): set<string> {
    var cur := CurrentRecovery(r, c);
    if cur.Some? then
      cur.value.keep + set p | p in r.phraseAdmits && p.at > cur.value.at :: p.device
    else
      (set l | l in r.legacy :: l.device) + set p | p in r.phraseAdmits :: p.device
  }

  function Consented(r: Roster): set<string> {
    set k | k in r.consents :: k.device
  }

  function VouchEdges(vs: seq<Vouch>, consented: set<string>): set<Edge> {
    set v | v in vs && v.device in consented :: (v.signer, v.device)
  }

  // Who is reached by vouches from a consenting root (tier 0) or, failing that, from a
  // consenting ask (tier 1), and in how many steps. No removal is looked at.
  function Standing(r: Roster, c: Crypto): Places {
    var cons := Consented(r);
    Standings(BaseRoots(r, c) * cons, (set p | p in r.pendings :: p.device) * cons, VouchEdges(r.vouches, cons))
  }

  // A standing device's place among the others: tier, depth, then its id.
  function RankKey(stand: Places, id: string): Key {
    if id in stand then [Num(stand[id].tier), Num(stand[id].depth), Str(id)] else []
  }

  // ---- Compaction ----

  // The first consent of each device in a sorted list (std::unique over the device).
  function FirstPerDevice(cs: seq<Consent>): seq<Consent>
    decreases |cs|
  {
    if |cs| <= 1 then cs
    else if cs[0].device == cs[1].device then FirstPerDevice([cs[0]] + cs[2..])
    else [cs[0]] + FirstPerDevice(cs[1..])
  }

  function VouchesOf(vs: seq<Vouch>, base: string): seq<Vouch> {
    Filter(vs, (v: Vouch) => v.base == base)
  }

  function PendingsOf(ps: seq<Pending>, base: string): seq<Pending> {
    SortUnique(Filter(ps, (p: Pending) => p.base == base), PendingKey)
  }

  function RemovalsOf(xs: seq<Removal>, base: string): seq<Removal> {
    Filter(xs, (x: Removal) => x.base == base)
  }

  function AdmitsPast(ps: seq<PhraseAdmit>, cur: Option<Current>): seq<PhraseAdmit> {
    SortUnique(if cur.Some? then Filter(ps, (p: PhraseAdmit) => p.at > cur.value.at) else ps, PhraseKey)
  }

  function OneConsentEach(cs: seq<Consent>): seq<Consent> {
    FirstPerDevice(SortUnique(cs, ConsentKey))
  }

  // The statements the current base does not supersede, before any is ranked or cut.
  function Unsuperseded(r: Roster, c: Crypto): Roster {
    var recoveries := Cap(SortUnique(Latest(r.recoveries), RecoveryKey), MAX_RECOVERY_TIES);
    var cur := CurrentRecovery(r.(recoveries := recoveries), c);
    var base := if cur.Some? then cur.value.base else LEGACY_BASE;
    Roster(
      r.master, r.rPub, recoveries,
      AdmitsPast(r.phraseAdmits, cur),
      OneConsentEach(r.consents),
      VouchesOf(r.vouches, base),
      PendingsOf(r.pendings, base),
      SortUnique(if cur.Some? then [] else r.legacy, LegacyKey),
      RemovalsOf(r.removals, base))
  }

  function Surviving(r: Roster, c: Crypto): Roster {
    var u := Unsuperseded(r, c);
    u.(phraseAdmits := Cap(u.phraseAdmits, MAX_PHRASE_ADMITS),
       pendings := Cap(u.pendings, MAX_PENDING),
       legacy := Cap(u.legacy, MAX_LEGACY))
  }

  // One vouch for each standing device, the best-ranked, before all others.
  function TreeFirst(vs: seq<Vouch>, stand: Places, best: set<string>): (seq<Vouch>, seq<Vouch>) {
    if vs == [] then ([], [])
    else
      var v := vs[0];
      if v.device in stand && v.device !in best then
        var (tree, rest) := TreeFirst(vs[1..], stand, best + {v.device});
        ([v] + tree, rest)
      else
        var (tree, rest) := TreeFirst(vs[1..], stand, best);
        (tree, [v] + rest)
  }

  // The vouches by standing devices, best first.
  function RankedVouches(vs: seq<Vouch>, stand: Places): seq<Vouch> {
    var ranked := SortUnique(Filter(vs, (v: Vouch) => v.signer in stand),
                             (v: Vouch) => RankKey(stand, v.signer) + VouchKey(v));
    var (tree, rest) := TreeFirst(ranked, stand, {});
    tree + rest
  }

  // The removals by standing devices, best first.
  function RankedRemovals(xs: seq<Removal>, stand: Places): seq<Removal> {
    SortUnique(Filter(xs, (x: Removal) => x.signer in stand), (x: Removal) => RankKey(stand, x.signer) + RemovalKey(x))
  }

  function Mentioned(r: Roster): set<string> {
    (set x, k | x in r.recoveries && k in x.keep :: k) + (set p | p in r.phraseAdmits :: p.device) +
    (set p | p in r.pendings :: p.device) + (set l | l in r.legacy :: l.device) +
    (set v | v in r.vouches :: v.device) + (set x | x in r.removals :: x.device)
  }

  // 0 for a device that stands, 1 for one some other statement is about, 2 for the rest.
  function ConsentClass(k: Consent, stand: Places, mentioned: set<string>): nat {
    if k.device in stand then 0 else if k.device in mentioned then 1 else 2
  }

  function RankedConsents(cs: seq<Consent>, stand: Places, mentioned: set<string>): seq<Consent> {
    SortUnique(cs, (k: Consent) =>
      [Num(ConsentClass(k, stand, mentioned))] + RankKey(stand, k.device) + ConsentKey(k))
  }

  // At most so many of the unnamed ones.
  function FewUnnamed(cs: seq<Consent>, stand: Places, mentioned: set<string>, taken: nat): seq<Consent> {
    if cs == [] then []
    else if ConsentClass(cs[0], stand, mentioned) == 2 then
      (if taken < MAX_UNNAMED_CONSENTS then [cs[0]] else []) + FewUnnamed(cs[1..], stand, mentioned, taken + 1)
    else [cs[0]] + FewUnnamed(cs[1..], stand, mentioned, taken)
  }

  // The surviving statements with only the standing devices' vouches and removals.
  function Ranking(s: Roster, stand: Places): Roster {
    s.(vouches := SortUnique(Cap(RankedVouches(s.vouches, stand), MAX_VOUCHES), VouchKey),
       removals := SortUnique(Cap(RankedRemovals(s.removals, stand), MAX_REMOVALS), RemovalKey))
  }

  function KeptConsents(cs: seq<Consent>, stand: Places, mentioned: set<string>): seq<Consent> {
    var few := FewUnnamed(RankedConsents(cs, stand, mentioned), stand, mentioned, 0);
    SortUnique(Cap(few, MAX_CONSENTS), ConsentKey)
  }

  // What is kept of the surviving statements, given who stands.
  function Trimmed(s: Roster, stand: Places): Roster {
    var named := Ranking(s, stand);
    named.(consents := KeptConsents(s.consents, stand, Mentioned(named)))
  }

  // The statements of the current base, ranked by who made them, each kind cut to its ceiling
  // and put in order.
  function Compacted(r: Roster, c: Crypto): Roster {
    var s := Surviving(r, c);
    Trimmed(s, Standing(s, c))
  }

  // Whether trimming cuts nothing to a ceiling.
  ghost predicate RoomToTrim(s: Roster, stand: Places) {
    var mentioned := Mentioned(Ranking(s, stand));
    var consents := RankedConsents(s.consents, stand, mentioned);
    && |RankedVouches(s.vouches, stand)| <= MAX_VOUCHES && |RankedRemovals(s.removals, stand)| <= MAX_REMOVALS
    && |consents| <= MAX_CONSENTS
    && |Filter(consents, (k: Consent) => ConsentClass(k, stand, mentioned) == 2)| <= MAX_UNNAMED_CONSENTS
  }

  // Whether the phrase's and the master's own statements fit their ceilings.
  ghost predicate RoomForPhrase(r: Roster, c: Crypto) {
    var u := Unsuperseded(r, c);
    && |SortUnique(Latest(r.recoveries), RecoveryKey)| <= MAX_RECOVERY_TIES
    && |u.phraseAdmits| <= MAX_PHRASE_ADMITS && |u.legacy| <= MAX_LEGACY
  }

  // Whether compacting `r` cuts nothing to a ceiling, pending joins aside.
  ghost predicate RoomBesideAsks(r: Roster, c: Crypto) {
    var s := Surviving(r, c);
    RoomForPhrase(r, c) && RoomToTrim(s, Standing(s, c))
  }

  // Whether compacting `r` cuts nothing at all.
  ghost predicate NoCeiling(r: Roster, c: Crypto) {
    RoomBesideAsks(r, c) && |Unsuperseded(r, c).pendings| <= MAX_PENDING
  }

  // ---- Verification ----

  // Each kind's own check: shape first, then the signatures.
  predicate RecoveryShape(x: Recovery, now: int, c: Crypto) {
    && x.at <= now + MAX_FUTURE_SKEW_MS && SortedIds(x.keep) == x.keep && x.keep != [] && |x.keep| <= MAX_KEEP
    && forall d | d in x.keep :: c.isKey(d)
  }
  predicate RecoverySigned(x: Recovery, m: string, rPub: string, c: Crypto) {
    var p := RecoveryMsg(m, rPub, x.at, SortedIds(x.keep), x.noWait);
    c.verifyByKey(rPub, x.sigR, p) && c.verifyById(m, x.sigM, p)
  }
  predicate PhraseShape(x: PhraseAdmit, now: int, c: Crypto) {
    x.at <= now + MAX_FUTURE_SKEW_MS && c.isKey(x.device)
  }
  predicate PhraseSigned(x: PhraseAdmit, m: string, rPub: string, c: Crypto) {
    var p := PhraseAdmitMsg(m, rPub, x.at, x.device);
    c.verifyByKey(rPub, x.sigR, p) && c.verifyById(m, x.sigM, p)
  }
  predicate ConsentSigned(x: Consent, m: string, c: Crypto) {
    c.verifyById(x.device, x.sig, JoinMsg(m, x.device))
  }
  predicate VouchShape(x: Vouch, c: Crypto) {
    IsBaseShape(x.base) && c.isKey(x.device) && x.device != x.signer
  }
  predicate VouchSigned(x: Vouch, m: string, c: Crypto) {
    c.verifyById(x.signer, x.sig, AdmitMsg(m, x.base, x.device))
  }
  predicate PendingShape(x: Pending, c: Crypto) {
    IsBaseShape(x.base) && c.isKey(x.device)
  }
  predicate PendingSigned(x: Pending, m: string, c: Crypto) {
    c.verifyById(m, x.sigM, PendingMsg(m, x.base, x.device))
  }
  predicate LegacySigned(x: LegacyClaim, m: string, c: Crypto) {
    c.verifyById(m, x.sigM, LegacyMsg(m, x.device))
  }
  predicate RemovalShape(x: Removal, c: Crypto) {
    && IsBaseShape(x.base) && c.isKey(x.device) && SortedIds(x.keepVouched) == x.keepVouched
    && |x.keepVouched| <= MAX_REMOVAL_KEEP && forall d | d in x.keepVouched :: c.isKey(d)
  }
  predicate RemovalSigned(x: Removal, m: string, c: Crypto) {
    c.verifyById(x.signer, x.sig, RemoveMsg(m, x.base, x.device, SortedIds(x.keepVouched)))
  }

  // Whether a statement is kept, given those already checked.
  function RecoveryTest(m: string, rPub: string, now: int, c: Crypto, known: seq<Recovery>): Recovery -> bool {
    (x: Recovery) => RecoveryShape(x, now, c) && (x in known || RecoverySigned(x, m, rPub, c))
  }
  function PhraseTest(m: string, rPub: string, now: int, c: Crypto, known: seq<PhraseAdmit>): PhraseAdmit -> bool {
    (x: PhraseAdmit) => PhraseShape(x, now, c) && (x in known || PhraseSigned(x, m, rPub, c))
  }
  function ConsentTest(m: string, c: Crypto, known: seq<Consent>): Consent -> bool {
    (x: Consent) => x in known || ConsentSigned(x, m, c)
  }
  function VouchTest(m: string, c: Crypto, known: seq<Vouch>): Vouch -> bool {
    (x: Vouch) => VouchShape(x, c) && (x in known || VouchSigned(x, m, c))
  }
  function PendingTest(m: string, c: Crypto, known: seq<Pending>): Pending -> bool {
    (x: Pending) => PendingShape(x, c) && (x in known || PendingSigned(x, m, c))
  }
  function LegacyTest(m: string, c: Crypto, known: seq<LegacyClaim>): LegacyClaim -> bool {
    (x: LegacyClaim) => c.isKey(x.device) && (x in known || LegacySigned(x, m, c))
  }
  function RemovalTest(m: string, c: Crypto, known: seq<Removal>): Removal -> bool {
    (x: Removal) => RemovalShape(x, c) && (x in known || RemovalSigned(x, m, c))
  }

  // The statements whose shape and signatures are right. A statement found in `known` is taken
  // to be signed; a phrase statement only if `known` is under the same recovery key.
  function Checked(r: Roster, now: int, c: Crypto, known: Option<Roster>): Roster {
    var m := r.master;
    var k := if known.Some? then known.value else Named("");
    var phraseKnown := known.Some? && k.rPub == r.rPub;
    var recoveries := Filter(r.recoveries, RecoveryTest(m, r.rPub, now, c, if phraseKnown then k.recoveries else []));
    var admits := Filter(r.phraseAdmits, PhraseTest(m, r.rPub, now, c, if phraseKnown then k.phraseAdmits else []));
    Roster(
      m,
      if recoveries != [] || admits != [] then r.rPub else "",
      recoveries,
      admits,
      Filter(r.consents, ConsentTest(m, c, k.consents)),
      Filter(r.vouches, VouchTest(m, c, k.vouches)),
      Filter(r.pendings, PendingTest(m, c, k.pendings)),
      Filter(r.legacy, LegacyTest(m, c, k.legacy)),
      Filter(r.removals, RemovalTest(m, c, k.removals)))
  }

  function Verified(r: Roster, now: int, c: Crypto, known: Option<Roster>): Roster {
    if !c.isKey(r.master) then Named("") else Compacted(Checked(r, now, c, known), c)
  }

  // ---- The merge ----

  // The union of both, of the phrase statements only those under the key of `a`, or of `b`
  // when `a` has none.
  function Joined(a: Roster, b: Roster): Roster {
    var phrase := (a.rPub == "" || a.rPub == b.rPub) && b.rPub != "";
    Roster(
      b.master,
      if phrase then b.rPub else a.rPub,
      if phrase then SortUnique(a.recoveries + b.recoveries, RecoveryKey) else a.recoveries,
      if phrase then SortUnique(a.phraseAdmits + b.phraseAdmits, PhraseKey) else a.phraseAdmits,
      SortUnique(a.consents + b.consents, ConsentKey),
      SortUnique(a.vouches + b.vouches, VouchKey),
      SortUnique(a.pendings + b.pendings, PendingKey),
      SortUnique(a.legacy + b.legacy, LegacyKey),
      SortUnique(a.removals + b.removals, RemovalKey))
  }

  function Merged(a: Roster, b: Roster, c: Crypto): Roster {
    if a.master != "" && b.master != a.master then a else Compacted(Joined(a, b), c)
  }
}
