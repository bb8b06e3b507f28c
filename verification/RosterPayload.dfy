// relay-uws/src/roster.h, the payload texts: two statements are never signed as one, of
// whatever kinds they are.
module RosterPayloads {
  import opened Base
  import opened Rosters

  function Csv(ids: seq<string>): string {
    if ids == [] then "" else if |ids| == 1 then ids[0] else ids[0] + [','] + Csv(ids[1..])
  }

  function Signed(v: int): string {
    if v < 0 then "-" + Decimal(-v) else Decimal(v)
  }

  // What kind of statement it is, and the rest of the text.
  function Kind(m: Message): string {
    match m
    case JoinMsg(_, _) => "hollow-id1-join"
    case RecoveryMsg(_, _, _, _, _) => "hollow-id1-recovery"
    case PhraseAdmitMsg(_, _, _, _) => "hollow-id1-radmit"
    case AdmitMsg(_, _, _) => "hollow-id1-admit"
    case PendingMsg(_, _, _) => "hollow-id1-pending"
    case LegacyMsg(_, _) => "hollow-id1-legacy"
    case RemoveMsg(_, _, _, _) => "hollow-id1-remove"
  }

  function Fields(m: Message): string {
    match m
    case JoinMsg(_, d) => d
    case RecoveryMsg(_, r, at, keep, noWait) =>
      r + [':'] + (Signed(at) + [':'] + (Csv(keep) + if noWait then ":nowait" else ""))
    case PhraseAdmitMsg(_, r, at, d) => r + [':'] + (Signed(at) + [':'] + d)
    case AdmitMsg(_, base, d) => base + [':'] + d
    case PendingMsg(_, base, d) => base + [':'] + d
    case LegacyMsg(_, d) => d
    case RemoveMsg(_, base, d, keep) => base + [':'] + (d + [':'] + Csv(keep))
  }

  function Text(m: Message): string {
    Kind(m) + [':'] + (m.master + [':'] + Fields(m))
  }

  // An id: not empty and free of both marks, as base58 is.
  predicate Id(s: string) {
    s != "" && Free(s, ':') && Free(s, ',')
  }

  predicate Ids(ids: seq<string>) {
    forall i | 0 <= i < |ids| :: Id(ids[i])
  }

  // What the relay signs for: ids, bases and keys without a colon.
  predicate Plain(m: Message) {
    && Id(m.master)
    && match m
       case JoinMsg(_, d) => Id(d)
       case RecoveryMsg(_, r, _, keep, _) => Free(r, ':') && Ids(keep)
       case PhraseAdmitMsg(_, r, _, d) => Free(r, ':') && Id(d)
       case AdmitMsg(_, base, d) => Free(base, ':') && Id(d)
       case PendingMsg(_, base, d) => Free(base, ':') && Id(d)
       case LegacyMsg(_, d) => Id(d)
       case RemoveMsg(_, base, d, keep) => Free(base, ':') && Id(d) && Ids(keep)
  }

  lemma {:induction false} KindFree(m: Message)
    ensures Free(Kind(m), ':')
  {}

  lemma {:induction false} SignedFree(v: int)
    ensures Free(Signed(v), ':')
  {
    DecimalFree(if v < 0 then -v else v, ':');
  }

  lemma {:induction false} SignedSame(v: int, w: int)
    requires Signed(v) == Signed(w)
    ensures v == w
  {
    var a, b := if v < 0 then -v else v, if w < 0 then -w else w;
    DecimalFree(a, '-');
    DecimalFree(b, '-');
    assert v < 0 ==> Signed(v)[0] == '-' && Signed(v)[1..] == Decimal(a);
    assert w < 0 ==> Signed(w)[0] == '-' && Signed(w)[1..] == Decimal(b);
    assert Decimal(a) == Decimal(b);
    DecimalSame(a, b);
  }

  lemma {:induction false} CsvFree(ids: seq<string>)
    requires Ids(ids)
    ensures Free(Csv(ids), ':') && (Csv(ids) == "" <==> ids == [])
    ensures |ids| > 1 ==> exists i | 0 <= i < |Csv(ids)| :: Csv(ids)[i] == ','
  {
    if |ids| == 1 {
      assert Id(ids[0]);
    } else if |ids| > 1 {
      assert Id(ids[0]);
      assert forall i | 0 <= i < |ids[1..]| :: ids[1..][i] == ids[i + 1];
      CsvFree(ids[1..]);
      assert Csv(ids)[|ids[0]|] == ',';
    }
  }

  lemma {:induction false} CsvSame(a: seq<string>, b: seq<string>)
    requires Ids(a) && Ids(b) && Csv(a) == Csv(b)
    ensures a == b
  {
    CsvFree(a);
    CsvFree(b);
    assert (a != [] ==> Id(a[0])) && (b != [] ==> Id(b[0]));
    if |a| > 1 && |b| > 1 {
      assert forall i | 0 <= i < |a[1..]| :: a[1..][i] == a[i + 1];
      assert forall i | 0 <= i < |b[1..]| :: b[1..][i] == b[i + 1];
      SplitSame(a[0], Csv(a[1..]), b[0], Csv(b[1..]), ',');
      CsvSame(a[1..], b[1..]);
      assert a == [a[0]] + a[1..] && b == [b[0]] + b[1..];
    }
  }

  // A list, and whether ":nowait" follows it.
  lemma {:induction false} WaitSame(a: string, x: bool, b: string, y: bool)
    requires Free(a, ':') && Free(b, ':')
    requires a + (if x then ":nowait" else "") == b + if y then ":nowait" else ""
    ensures a == b && x == y
  {
    var s, t := a + (if x then ":nowait" else ""), b + if y then ":nowait" else "";
    assert x ==> s[|a|] == ':';
    assert y ==> t[|b|] == ':';
    assert (!x ==> s == a) && (!y ==> t == b);
    if x && y {
      assert a + [':'] + "nowait" == s && b + [':'] + "nowait" == t;
      SplitSame(a, "nowait", b, "nowait", ':');
    }
  }

  lemma {:induction false} KindSame(a: Message, b: Message)
    requires Kind(a) == Kind(b)
    ensures a.JoinMsg? == b.JoinMsg? && a.RecoveryMsg? == b.RecoveryMsg? && a.PhraseAdmitMsg? == b.PhraseAdmitMsg?
    ensures a.AdmitMsg? == b.AdmitMsg? && a.PendingMsg? == b.PendingMsg? && a.LegacyMsg? == b.LegacyMsg?
  {
    var s, t := Kind(a), Kind(b);
    assert |s| == |t| && forall i | 0 <= i < |s| :: s[i] == t[i];
    assert |s| > 11 && s[11] == t[11] && s[12] == t[12];
  }

  // The text names the statement: master, kind and every field.
  lemma {:induction false} TextNames(a: Message, b: Message)
    requires Plain(a) && Plain(b) && Text(a) == Text(b)
    ensures a == b
  {
    KindFree(a);
    KindFree(b);
    hide Kind, Fields;
    SplitSame(Kind(a), a.master + [':'] + Fields(a), Kind(b), b.master + [':'] + Fields(b), ':');
    SplitSame(a.master, Fields(a), b.master, Fields(b), ':');
    KindSame(a, b);
    FieldsSame(a, b);
  }

  lemma {:induction false} FieldsSame(a: Message, b: Message)
    requires Plain(a) && Plain(b) && a.master == b.master && Fields(a) == Fields(b) && Kind(a) == Kind(b)
    ensures a == b
  {
    KindSame(a, b);
    hide Kind, Signed, Csv, Free;
    match a
    case RecoveryMsg(_, r, at, keep, noWait) =>
      var x, y := Csv(keep) + (if noWait then ":nowait" else ""), Csv(b.keep) + if b.noWait then ":nowait" else "";
      SignedFree(at);
      SignedFree(b.at);
      CsvFree(keep);
      CsvFree(b.keep);
      SplitSame(r, Signed(at) + [':'] + x, b.rPub, Signed(b.at) + [':'] + y, ':');
      SplitSame(Signed(at), x, Signed(b.at), y, ':');
      SignedSame(at, b.at);
      WaitSame(Csv(keep), noWait, Csv(b.keep), b.noWait);
      CsvSame(keep, b.keep);
    case PhraseAdmitMsg(_, r, at, d) =>
      SignedFree(at);
      SignedFree(b.at);
      SplitSame(r, Signed(at) + [':'] + d, b.rPub, Signed(b.at) + [':'] + b.device, ':');
      SplitSame(Signed(at), d, Signed(b.at), b.device, ':');
      SignedSame(at, b.at);
    case AdmitMsg(_, base, d) => SplitSame(base, d, b.base, b.device, ':');
    case PendingMsg(_, base, d) => SplitSame(base, d, b.base, b.device, ':');
    case RemoveMsg(_, base, d, keep) =>
      SplitSame(base, d + [':'] + Csv(keep), b.base, b.device + [':'] + Csv(b.keep), ':');
      SplitSame(d, Csv(keep), b.device, Csv(b.keep), ':');
      CsvSame(keep, b.keep);
    case _ =>
  }
}
