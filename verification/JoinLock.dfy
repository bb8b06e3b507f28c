// relay-uws/src/join_lock.h: the chains of join locks, each link signed by the one before
// it or by the server's owner, and the rule by which the relay takes a new one.
module JoinLocking {
  import opened Base
  import F = FairShares
  import S = Shelves

  const MAX_CHAIN: nat := 256
  const MAX_N: nat := 0x1F_FFFF_FFFF_FFFF

  datatype LockLink = LockLink(n: nat, door: string, change: string, sig: string, owner: Option<string>,
                               nonce: Option<string>) {
    predicate IsBase() { owner.Some? }
    predicate SameLock(o: LockLink) { n == o.n && door == o.door && change == o.change }
  }

  type Chain = seq<LockLink>

  // What a link's signature is over. The payload text is these fields, one to a line.
  datatype Payload = Payload(server: string, n: nat, door: string, change: string, tail: Tail)
  datatype Tail = BaseTail(owner: string, nonce: string) | NextTail

  datatype LockCrypto = LockCrypto(
    verify: (string, string, Payload) -> bool,
    peerId: string -> string,
    genesisId: (string, string) -> string
  )

  // ---- Shapes ----

  predicate IsLowerHex(c: char) { '0' <= c <= '9' || 'a' <= c <= 'f' }
  predicate IsHex(c: char) { IsLowerHex(c) || 'A' <= c <= 'F' }

  predicate IsGenesisId(id: string) {
    |id| == 40 && forall c | c in id :: IsLowerHex(c)
  }

  predicate IsServerIdShape(id: string) {
    (|id| == 32 || |id| == 40) && forall c | c in id :: IsLowerHex(c)
  }

  predicate IsAlnum(c: char) { 'A' <= c <= 'Z' || 'a' <= c <= 'z' || '0' <= c <= '9' }

  // 64 bytes in base64: 86 letters, then two of padding.
  predicate B64Chars(s: string, urlSafe: bool) {
    forall i | 0 <= i < |s| ::
      || IsAlnum(s[i])
      || (if urlSafe then s[i] == '-' || s[i] == '_' else s[i] == '+' || s[i] == '/')
      || (!urlSafe && s[i] == '=' && i + 2 >= |s| && |s| == 88)
  }

  predicate KeyShape(k: string) { |k| == 48 && B64Chars(k, false) }

  predicate WellFormed(l: LockLink) {
    && l.n <= MAX_N
    && |l.door| == 43 && B64Chars(l.door, true)
    && KeyShape(l.change)
    && |l.sig| == 88 && B64Chars(l.sig, false)
    && (l.owner.Some? ==> KeyShape(l.owner.value))
    && (l.nonce.Some? ==> |l.nonce.value| <= 64 && forall c | c in l.nonce.value :: IsHex(c))
    && (l.owner.Some? || l.nonce.None?)
  }

  // 43 letters of the url-safe alphabet, 48 of the standard one, or 86 of that and two signs of
  // padding.
  predicate Letters(s: string, from: nat, to: nat, extra: string)
    requires from <= to <= |s|
  {
    forall i | from <= i < to ::
      'A' <= s[i] <= 'Z' || 'a' <= s[i] <= 'z' || '0' <= s[i] <= '9' || s[i] in extra
  }

  // What the shape check lets through, field by field. A signature may also lack its padding.
  lemma {:induction false} ShapeExactly(l: LockLink)
    ensures WellFormed(l) <==>
            && l.n <= 9_007_199_254_740_991
            && |l.door| == 43 && Letters(l.door, 0, 43, "-_") && |l.change| == 48 && Letters(l.change, 0, 48, "+/")
            && |l.sig| == 88 && Letters(l.sig, 0, 86, "+/") && Letters(l.sig, 86, 88, "+/=")
            && (l.owner.Some? ==> |l.owner.value| == 48 && Letters(l.owner.value, 0, 48, "+/"))
            && (l.nonce.Some? ==>
                  && l.owner.Some? && |l.nonce.value| <= 64
                  && forall i | 0 <= i < |l.nonce.value| ::
                       var x := l.nonce.value[i]; '0' <= x <= '9' || 'a' <= x <= 'f' || 'A' <= x <= 'F')
  {
    if l.nonce.Some? {
      assert forall i | 0 <= i < |l.nonce.value| :: l.nonce.value[i] in l.nonce.value;
    }
  }

  function PayloadOf(server: string, l: LockLink): Payload {
    Payload(server, l.n, l.door, l.change,
            if l.owner.Some? then BaseTail(l.owner.value, if l.nonce.Some? then l.nonce.value else "") else NextTail)
  }

  // ---- The text that is signed ----

  function TextTail(l: LockLink): string {
    if l.owner.Some? then "base" + ['\n'] + (l.owner.value + ['\n'] + if l.nonce.Some? then l.nonce.value else "")
    else "next"
  }

  function PayloadText(server: string, l: LockLink): string {
    "hollow-lock1" + ['\n'] + (server + ['\n'] + (Decimal(l.n) + ['\n'] +
    (l.door + ['\n'] + (l.change + ['\n'] + TextTail(l)))))
  }

  lemma {:induction false} FieldsFree(server: string, l: LockLink)
    requires IsServerIdShape(server) && WellFormed(l)
    ensures Free(server, '\n') && Free(l.door, '\n') && Free(l.change, '\n')
    ensures l.owner.Some? ==> Free(l.owner.value, '\n')
  {
    assert forall i | 0 <= i < |server| :: server[i] in server && IsLowerHex(server[i]);
  }

  // Two well-formed links have one payload text only if they say the same of one server: no
  // field runs into the next, and an owner's link is never read as another.
  lemma {:induction false} TextNamesPayload(s: string, l: LockLink, t: string, k: LockLink)
    requires IsServerIdShape(s) && IsServerIdShape(t) && WellFormed(l) && WellFormed(k)
    ensures PayloadText(s, l) == PayloadText(t, k) <==> PayloadOf(s, l) == PayloadOf(t, k)
  {
    if PayloadText(s, l) == PayloadText(t, k) {
      FieldsFree(s, l);
      FieldsFree(t, k);
      hide WellFormed, IsServerIdShape, Decimal;
      SameFields(s, l, t, k);
    } else {
      hide WellFormed, IsServerIdShape, Decimal;
    }
  }

  lemma {:induction false} SameFields(s: string, l: LockLink, t: string, k: LockLink)
    requires Free(s, '\n') && Free(l.door, '\n') && Free(l.change, '\n')
    requires Free(t, '\n') && Free(k.door, '\n') && Free(k.change, '\n')
    requires (l.owner.Some? ==> Free(l.owner.value, '\n')) && (k.owner.Some? ==> Free(k.owner.value, '\n'))
    requires PayloadText(s, l) == PayloadText(t, k)
    ensures PayloadOf(s, l) == PayloadOf(t, k)
  {
    hide Decimal, Free;
    DecimalFree(l.n, '\n');
    DecimalFree(k.n, '\n');
    var a4, b4 := l.change + ['\n'] + TextTail(l), k.change + ['\n'] + TextTail(k);
    var a3, b3 := l.door + ['\n'] + a4, k.door + ['\n'] + b4;
    var a2, b2 := Decimal(l.n) + ['\n'] + a3, Decimal(k.n) + ['\n'] + b3;
    var a1, b1 := s + ['\n'] + a2, t + ['\n'] + b2;
    HeadFree();
    SplitSame("hollow-lock1", a1, "hollow-lock1", b1, '\n');
    SplitSame(s, a2, t, b2, '\n');
    SplitSame(Decimal(l.n), a3, Decimal(k.n), b3, '\n');
    DecimalSame(l.n, k.n);
    SplitSame(l.door, a4, k.door, b4, '\n');
    SplitSame(l.change, TextTail(l), k.change, TextTail(k), '\n');
    SameTail(l, k);
  }

  lemma {:induction false} HeadFree()
    ensures Free("hollow-lock1", '\n') && Free("base", '\n')
  {}

  lemma {:induction false} SameTail(l: LockLink, k: LockLink)
    requires (l.owner.Some? ==> Free(l.owner.value, '\n')) && (k.owner.Some? ==> Free(k.owner.value, '\n'))
    requires TextTail(l) == TextTail(k)
    ensures PayloadOf("", l).tail == PayloadOf("", k).tail
  {
    HeadFree();
    assert TextTail(l)[0] == (if l.owner.Some? then 'b' else 'n');
    if l.owner.Some? && k.owner.Some? {
      var x := l.owner.value + ['\n'] + if l.nonce.Some? then l.nonce.value else "";
      var y := k.owner.value + ['\n'] + if k.nonce.Some? then k.nonce.value else "";
      SplitSame("base", x, "base", y, '\n');
      SplitSame(l.owner.value, x[|l.owner.value| + 1..], k.owner.value, y[|k.owner.value| + 1..], '\n');
    }
  }

  // ---- Chains ----

  // Whose key signed `l` as an owner's link; "" when nobody's did.
  function BaseOwner(server: string, l: LockLink, c: LockCrypto): string {
    if l.owner.None? || !WellFormed(l) then ""
    else
      var owner := c.peerId(l.owner.value);
      if owner == "" then ""
      else if IsGenesisId(server) && (l.nonce.None? || c.genesisId(owner, l.nonce.value) != server) then ""
      else if c.verify(l.owner.value, l.sig, PayloadOf(server, l)) then owner else ""
  }

  // `next` is signed by `prev`'s change key, one number on.
  predicate Extends(server: string, prev: LockLink, next: LockLink, c: LockCrypto) {
    && !next.IsBase() && WellFormed(next) && prev.n < MAX_N && next.n == prev.n + 1
    && c.verify(prev.change, next.sig, PayloadOf(server, next))
  }

  predicate Follows(server: string, owner: string, prev: LockLink, next: LockLink, c: LockCrypto) {
    if next.IsBase() then next.n > prev.n && BaseOwner(server, next, c) == owner else Extends(server, prev, next, c)
  }

  ghost predicate Linked(server: string, owner: string, links: Chain, c: LockCrypto) {
    forall i | 0 < i < |links| :: Follows(server, owner, links[i - 1], links[i], c)
  }

  // `links` is a whole chain that speaks for `owner`.
  ghost predicate Speaks(server: string, owner: string, links: Chain, c: LockCrypto) {
    && 0 < |links| <= MAX_CHAIN && owner != ""
    && BaseOwner(server, links[0], c) == owner && Linked(server, owner, links, c)
  }

  // The first link's owner when every later link follows on from the one before it; else "".
  method VerifyChain(server: string, links: Chain, c: LockCrypto) returns (owner: string)
    ensures owner != "" ==> Speaks(server, owner, links, c)
    ensures owner == "" ==> forall o :: !Speaks(server, o, links, c)
  {
    if links == [] || |links| > MAX_CHAIN { return ""; }
    owner := BaseOwner(server, links[0], c);
    if owner == "" { return; }
    for i := 1 to |links|
      invariant forall j | 0 < j < i :: Follows(server, owner, links[j - 1], links[j], c)
    {
      if !Follows(server, owner, links[i - 1], links[i], c) { return ""; }
    }
  }

  function Tip(links: Chain): LockLink
    requires links != []
  {
    links[|links| - 1]
  }

  lemma {:induction false} NumbersRise(server: string, owner: string, links: Chain, c: LockCrypto, i: nat, j: nat)
    requires Linked(server, owner, links, c) && i <= j < |links|
    ensures links[i].n + (j - i) <= links[j].n
    decreases j
  {
    if i < j {
      NumbersRise(server, owner, links, c, i, j - 1);
      assert Follows(server, owner, links[j - 1], links[j], c);
    }
  }

  // ---- The put rule ----

  function Before(prev: LockLink, links: Chain, i: nat): LockLink
    requires i <= |links|
  {
    if i == 0 then prev else links[i - 1]
  }

  ghost predicate ExtendsAll(server: string, prev: LockLink, links: Chain, c: LockCrypto) {
    forall i | 0 <= i < |links| :: Extends(server, Before(prev, links, i), links[i], c)
  }

  ghost predicate Continues(links: Chain, tip: LockLink) {
    exists i | 0 <= i < |links| :: links[i].SameLock(tip)
  }

  // The last owner-signed link of `links` is numbered past `tip`.
  ghost predicate Resets(links: Chain, tip: LockLink) {
    exists i | 0 <= i < |links| ::
      links[i].IsBase() && links[i].n > tip.n && forall j | i < j < |links| :: !links[j].IsBase()
  }

  // `next` is what is stored after `submitted` meets `stored`. Links that go on from the tip
  // are appended; a chain from its owner's link on replaces the stored one when it passes
  // through that tip or starts anew past it, or gets to the same tip in fewer links. None is
  // a refusal.
  ghost predicate Accepts(server: string, stored: Chain, submitted: Chain, c: LockCrypto, next: Option<Chain>) {
    if submitted == [] then next == None
    else if !submitted[0].IsBase() then
      if stored != [] && ExtendsAll(server, Tip(stored), submitted, c) && |stored| + |submitted| <= MAX_CHAIN
      then next == Some(stored + submitted) else next == None
    else if !(exists o :: Speaks(server, o, submitted, c) && (stored == [] || BaseOwner(server, stored[0], c) == o))
    then next == None
    else if stored == [] then next == Some(submitted)
    else if Tip(submitted).n > Tip(stored).n then
      next == if Continues(submitted, Tip(stored)) || Resets(submitted, Tip(stored)) then Some(submitted) else None
    else if Tip(submitted).SameLock(Tip(stored)) then
      next == Some(if |submitted| < |stored| then submitted else stored)
    else next == None
  }

  method ExtendsTip(server: string, tip: LockLink, submitted: Chain, c: LockCrypto) returns (ok: bool)
    ensures ok <==> ExtendsAll(server, tip, submitted, c)
  {
    var prev := tip;
    for i := 0 to |submitted|
      invariant prev == Before(tip, submitted, i)
      invariant forall j | 0 <= j < i :: Extends(server, Before(tip, submitted, j), submitted[j], c)
    {
      if !Extends(server, prev, submitted[i], c) { return false; }
      prev := submitted[i];
    }
    return true;
  }

  method RelayPut(server: string, stored: Chain, submitted: Chain, c: LockCrypto) returns (next: Option<Chain>)
    ensures Accepts(server, stored, submitted, c, next)
  {
    if submitted == [] { return None; }
    if !submitted[0].IsBase() {
      if stored == [] { return None; }
      var ok := ExtendsTip(server, Tip(stored), submitted, c);
      if !ok || |stored| + |submitted| > MAX_CHAIN { return None; }
      return Some(stored + submitted);
    }
    var owner := VerifyChain(server, submitted, c);
    if owner == "" { return None; }
    OneOwner(server, submitted, c, owner);
    hide Speaks;
    if stored == [] { return Some(submitted); }
    if BaseOwner(server, stored[0], c) != owner { return None; }
    var tip, newest := Tip(stored), Tip(submitted);
    if newest.n > tip.n {
      var wins := ContinuesOrResets(submitted, tip);
      return if wins then Some(submitted) else None;
    }
    if newest.SameLock(tip) { return Some(if |submitted| < |stored| then submitted else stored); }
    return None;
  }

  method ContinuesOrResets(submitted: Chain, tip: LockLink) returns (wins: bool)
    ensures wins <==> Continues(submitted, tip) || Resets(submitted, tip)
  {
    var continues := false;
    for i := 0 to |submitted|
      invariant continues <==> exists j | 0 <= j < i :: submitted[j].SameLock(tip)
    {
      continues := continues || submitted[i].SameLock(tip);
    }
    var reset := false;
    var i := |submitted|;
    while i > 0
      invariant 0 <= i <= |submitted| && !reset
      invariant forall j | i <= j < |submitted| :: !submitted[j].IsBase()
    {
      i := i - 1;
      if submitted[i].IsBase() {
        reset := submitted[i].n > tip.n;
        break;
      }
    }
    wins := continues || reset;
  }

  lemma {:induction false} OneOwner(server: string, links: Chain, c: LockCrypto, owner: string)
    requires Speaks(server, owner, links, c)
    ensures forall o | Speaks(server, o, links, c) :: o == owner
  {}

  // ---- What a put can change ----

  // `links` is reached by signatures: from `tip`'s own change key, or from a link the owner
  // signed past it, every later link signed by the one before.
  ghost predicate Reached(server: string, owner: string, tip: LockLink, links: Chain, c: LockCrypto) {
    exists i | 0 <= i < |links| ::
      && (links[i].SameLock(tip) || (BaseOwner(server, links[i], c) == owner && links[i].n > tip.n))
      && forall j | i < j < |links| :: Extends(server, links[j - 1], links[j], c)
  }

  // The tip stays the same lock, or moves to a later one reached by signatures.
  ghost predicate Advances(server: string, owner: string, tip: LockLink, links: Chain, c: LockCrypto)
    requires links != []
  {
    Tip(links).SameLock(tip) || (Tip(links).n > tip.n && Reached(server, owner, tip, links, c))
  }

  // The last owner-signed link at or after `i`, or `i` itself.
  lemma {:induction false} LastBase(links: Chain, i: nat) returns (k: nat)
    requires i < |links|
    ensures i <= k < |links| && (k == i || links[k].IsBase()) && forall j | k < j < |links| :: !links[j].IsBase()
    decreases |links|
  {
    var last := |links| - 1;
    if links[last].IsBase() || last == i {
      k := last;
    } else {
      k := LastBase(links[..last], i);
      assert forall j | k < j < last :: links[..last][j] == links[j];
    }
  }

  lemma {:induction false} ExtensionSpeaks(server: string, owner: string, stored: Chain, more: Chain, c: LockCrypto)
    requires Speaks(server, owner, stored, c) && ExtendsAll(server, Tip(stored), more, c)
              && |stored| + |more| <= MAX_CHAIN
    requires more != []
    ensures Speaks(server, owner, stored + more, c) && Advances(server, owner, Tip(stored), stored + more, c)
  {
    var next := stored + more;
    hide Extends;
    var at := |stored| - 1;
    forall j | at < j < |next| ensures Extends(server, next[j - 1], next[j], c) && !next[j].IsBase() {
      var k := j - |stored|;
      assert Extends(server, Before(Tip(stored), more, k), more[k], c);
      assert next[j] == more[k] && next[j - 1] == Before(Tip(stored), more, k);
      NextLink(server, next[j - 1], next[j], c);
    }
    assert Linked(server, owner, next, c) by {
      forall i | 0 < i < |next| ensures Follows(server, owner, next[i - 1], next[i], c) {
        if i < |stored| {
          assert Follows(server, owner, stored[i - 1], stored[i], c);
        }
      }
    }
    assert next[at].SameLock(Tip(stored)) && next[0] == stored[0];
    NumbersRise(server, owner, next, c, at, |next| - 1);
  }

  lemma {:induction false} NextLink(server: string, prev: LockLink, next: LockLink, c: LockCrypto)
    requires Extends(server, prev, next, c)
    ensures !next.IsBase() && next.n == prev.n + 1
  {}

  // A whole chain that runs through the old tip, or whose last owner-signed link is past it.
  lemma {:induction false} ReplacementReaches(server: string, owner: string, tip: LockLink, links: Chain, c: LockCrypto)
    requires Speaks(server, owner, links, c) && (Continues(links, tip) || Resets(links, tip))
    ensures Reached(server, owner, tip, links, c)
  {
    hide BaseOwner, Extends;
    var k: nat;
    if Resets(links, tip) {
      k :| k < |links| && links[k].IsBase() && links[k].n > tip.n && forall j | k < j < |links| :: !links[j].IsBase();
    } else {
      var i: nat :| i < |links| && links[i].SameLock(tip);
      k := LastBase(links, i);
      NumbersRise(server, owner, links, c, i, k);
    }
    assert k > 0 ==> Follows(server, owner, links[k - 1], links[k], c);
    forall j | k < j < |links| ensures Extends(server, links[j - 1], links[j], c) {
      assert Follows(server, owner, links[j - 1], links[j], c);
    }
    assert links[k].SameLock(tip) || (BaseOwner(server, links[k], c) == owner && links[k].n > tip.n);
  }

  // Whatever is offered, the chain held still speaks for the same owner, and its tip never
  // falls back: it is the same lock or a later one, reached by signatures.
  lemma {:induction false} PutAdvances(server: string, owner: string, stored: Chain, submitted: Chain, c: LockCrypto,
                                       next: Chain)
    requires Speaks(server, owner, stored, c) && Accepts(server, stored, submitted, c, Some(next))
    ensures Speaks(server, owner, next, c) && Advances(server, owner, Tip(stored), next, c)
    ensures Tip(next) == Tip(stored) || Tip(next) == Tip(submitted)
  {
    hide Reached, Linked;
    if !submitted[0].IsBase() {
      hide BaseOwner, Extends;
      ExtensionSpeaks(server, owner, stored, submitted, c);
    } else {
      var o :| Speaks(server, o, submitted, c) && BaseOwner(server, stored[0], c) == o;
      hide BaseOwner, Extends;
      if Tip(submitted).n > Tip(stored).n { ReplacementReaches(server, owner, Tip(stored), submitted, c); }
    }
  }

  // A first chain must speak for itself.
  lemma {:induction false} FirstSpeaks(server: string, submitted: Chain, c: LockCrypto, next: Chain)
    requires Accepts(server, [], submitted, c, Some(next))
    ensures next == submitted && exists o :: Speaks(server, o, next, c)
  {
    hide Speaks;
  }

  // ---- Whose signature that takes ----

  // `sig` is the owner's own over the link `l`, every field in its place; under a
  // self-certifying id the link also shows the nonce that id was made with.
  ghost predicate OwnerSigned(server: string, owner: string, l: LockLink, c: LockCrypto) {
    && l.owner.Some? && c.peerId(l.owner.value) == owner
    && c.verify(l.owner.value, l.sig,
                Payload(server, l.n, l.door, l.change,
                        BaseTail(l.owner.value, if l.nonce.Some? then l.nonce.value else "")))
    && (|server| == 40 && (forall x | x in server :: '0' <= x <= '9' || 'a' <= x <= 'f') ==>
          l.nonce.Some? && c.genesisId(owner, l.nonce.value) == server)
  }

  // `l` is one number past `prev` and signed by the key `prev` names for changing it.
  ghost predicate KeySigned(server: string, prev: LockLink, l: LockLink, c: LockCrypto) {
    && l.owner.None? && l.n == prev.n + 1
    && c.verify(prev.change, l.sig, Payload(server, prev.n + 1, l.door, l.change, NextTail))
  }

  lemma {:induction false} ExtensionSigned(server: string, prev: LockLink, next: LockLink, c: LockCrypto)
    ensures Extends(server, prev, next, c) <==>
            KeySigned(server, prev, next, c) && WellFormed(next) && prev.n < 9_007_199_254_740_991
  {}

  lemma {:induction false} BaseSigned(server: string, owner: string, l: LockLink, c: LockCrypto)
    requires owner != ""
    ensures BaseOwner(server, l, c) == owner <==> OwnerSigned(server, owner, l, c) && WellFormed(l)
  {}

  // A later tip rests on a signature: by the old tip's change key over the next number, or by
  // the owner over a number past it; and every link after that by the key the one before it
  // names.
  lemma {:induction false} MovedBySignature(server: string, owner: string, tip: LockLink, links: Chain, c: LockCrypto)
    returns (i: nat)
    requires links != [] && owner != "" && Advances(server, owner, tip, links, c)
    requires Tip(links).n != tip.n || Tip(links).door != tip.door || Tip(links).change != tip.change
    ensures i < |links| && Tip(links).n > tip.n
    ensures || KeySigned(server, tip, links[i], c)
            || (OwnerSigned(server, owner, links[i], c) && links[i].n > tip.n)
    ensures forall j | i < j < |links| :: KeySigned(server, links[j - 1], links[j], c)
  {
    hide Extends, BaseOwner;
    var k: nat :| k < |links|
                  && (links[k].SameLock(tip) || (BaseOwner(server, links[k], c) == owner && links[k].n > tip.n))
                  && forall j | k < j < |links| :: Extends(server, links[j - 1], links[j], c);
    forall j | k < j < |links| ensures KeySigned(server, links[j - 1], links[j], c) {
      ExtensionSigned(server, links[j - 1], links[j], c);
    }
    BaseSigned(server, owner, links[k], c);
    hide OwnerSigned;
    if links[k].SameLock(tip) {
      assert k + 1 < |links|;
      assert KeySigned(server, links[k], links[k + 1], c);
      i := k + 1;
    } else {
      i := k;
    }
  }

  // Nobody can sign a link past `tip`: no signature by its change key covers the next number,
  // and none by a key of `owner` a greater one.
  ghost predicate Locked(server: string, owner: string, tip: LockLink, c: LockCrypto) {
    && (forall sig, p: Payload | p.server == server && p.n == tip.n + 1 && p.tail == NextTail ::
          !c.verify(tip.change, sig, p))
    && (forall key, sig, p: Payload | p.server == server && p.n > tip.n && p.tail.BaseTail? && p.tail.owner == key ::
          c.peerId(key) == owner ==> !c.verify(key, sig, p))
  }

  lemma {:induction false} LockedSigns(server: string, owner: string, tip: LockLink, l: LockLink, c: LockCrypto)
    requires Locked(server, owner, tip, c)
    ensures !KeySigned(server, tip, l, c) && (l.n > tip.n ==> !OwnerSigned(server, owner, l, c))
  {}

  // Then whatever is offered the lock stays.
  lemma {:induction false} NoKeyNoMove(server: string, owner: string, stored: Chain, submitted: Chain, c: LockCrypto,
                                       next: Chain)
    requires Speaks(server, owner, stored, c) && Locked(server, owner, Tip(stored), c)
    requires Accepts(server, stored, submitted, c, Some(next))
    ensures Speaks(server, owner, next, c)
    ensures var was, now := Tip(stored), Tip(next); now.n == was.n && now.door == was.door && now.change == was.change
  {
    hide Accepts, Advances, Linked, BaseOwner, Locked, KeySigned, OwnerSigned;
    PutAdvances(server, owner, stored, submitted, c, next);
    var was, now := Tip(stored), Tip(next);
    if now.n != was.n || now.door != was.door || now.change != was.change {
      var i := MovedBySignature(server, owner, was, next, c);
      LockedSigns(server, owner, was, next[i], c);
    }
  }

  // And a link so signed is taken: appended to a chain there is room in, or starting a chain
  // of its own.
  lemma {:induction false} KeyMoves(server: string, stored: Chain, l: LockLink, c: LockCrypto)
    requires 0 < |stored| < 256 && Tip(stored).n < 9_007_199_254_740_991
    requires WellFormed(l) && KeySigned(server, Tip(stored), l, c)
    ensures Accepts(server, stored, [l], c, Some(stored + [l]))
  {
    ExtensionSigned(server, Tip(stored), l, c);
    hide Extends;
    assert ExtendsAll(server, Tip(stored), [l], c);
  }

  lemma {:induction false} OwnerMoves(server: string, owner: string, stored: Chain, l: LockLink, c: LockCrypto)
    requires owner != "" && WellFormed(l) && OwnerSigned(server, owner, l, c)
    requires stored != [] ==> BaseOwner(server, stored[0], c) == owner && l.n > Tip(stored).n
    ensures Accepts(server, stored, [l], c, Some([l]))
  {
    BaseSigned(server, owner, l, c);
    hide BaseOwner, OwnerSigned;
    assert Speaks(server, owner, [l], c);
    OneOwner(server, [l], c, owner);
    hide Speaks;
    assert stored != [] ==> Resets([l], Tip(stored));
  }

  // ---- Over a whole run ----

  // Each chain of `held` was put in place of the one before it.
  ghost predicate Puts(server: string, held: seq<Chain>, offers: seq<Chain>, c: LockCrypto) {
    |held| == |offers| + 1 && forall i | 0 <= i < |offers| :: Accepts(server, held[i], offers[i], c, Some(held[i + 1]))
  }

  // While a chain is held, every later one speaks for its owner, the tip's number never
  // falls, and a different lock has a larger number.
  lemma {:induction false} TipNeverFalls(server: string, owner: string, held: seq<Chain>, offers: seq<Chain>,
                                         c: LockCrypto, i: nat, j: nat)
    requires Puts(server, held, offers, c) && Speaks(server, owner, held[0], c) && i <= j < |held|
    ensures Speaks(server, owner, held[i], c) && Speaks(server, owner, held[j], c)
    ensures Tip(held[j]).SameLock(Tip(held[i])) || Tip(held[j]).n > Tip(held[i]).n
    decreases j, i
  {
    hide Accepts, BaseOwner, Linked, Reached;
    if i < j {
      TipNeverFalls(server, owner, held, offers, c, i, j - 1);
      assert Accepts(server, held[j - 1], offers[j - 1], c, Some(held[j - 1 + 1]));
      PutAdvances(server, owner, held[j - 1], offers[j - 1], c, held[j]);
    } else if 0 < i {
      TipNeverFalls(server, owner, held, offers, c, i - 1, j - 1);
      assert Accepts(server, held[j - 1], offers[j - 1], c, Some(held[j - 1 + 1]));
      PutAdvances(server, owner, held[j - 1], offers[j - 1], c, held[j]);
    }
  }

  // So a lock nobody can sign past stays over the whole run.
  lemma {:induction false} LockHolds(server: string, owner: string, held: seq<Chain>, offers: seq<Chain>, c: LockCrypto,
                                     i: nat, j: nat)
    requires Puts(server, held, offers, c) && Speaks(server, owner, held[0], c) && i <= j < |held|
    requires held[i] != [] ==> Locked(server, owner, Tip(held[i]), c)
    ensures held[i] != [] && held[j] != [] && Speaks(server, owner, held[j], c)
    ensures var was, now := Tip(held[i]), Tip(held[j]);
            now.n == was.n && now.door == was.door && now.change == was.change
    decreases j - i
  {
    hide Accepts, BaseOwner, Linked, Locked;
    TipNeverFalls(server, owner, held, offers, c, i, j);
    if i < j {
      LockHolds(server, owner, held, offers, c, i, j - 1);
      assert Accepts(server, held[j - 1], offers[j - 1], c, Some(held[j - 1 + 1]));
      SameLocked(server, owner, Tip(held[i]), Tip(held[j - 1]), c);
      NoKeyNoMove(server, owner, held[j - 1], offers[j - 1], c, held[j]);
    }
  }

  lemma {:induction false} SameLocked(server: string, owner: string, a: LockLink, b: LockLink, c: LockCrypto)
    requires Locked(server, owner, a, c) && a.n == b.n && a.change == b.change
    ensures Locked(server, owner, b, c)
  {}

  // ---- The table ----

  function RecordKey(server: string, owner: string): string {
    if IsGenesisId(server) then server else server + "|" + owner
  }

  // A record's key names its server and, for a legacy id, the owner.
  lemma {:induction false} KeyNames(s: string, o: string, t: string, p: string)
    requires IsServerIdShape(s) && IsServerIdShape(t) && RecordKey(s, o) == RecordKey(t, p)
    ensures s == t && (IsGenesisId(s) || o == p)
  {
    hide IsLowerHex;
    NoBar(s);
    NoBar(t);
    var k := RecordKey(s, o);
    if !IsGenesisId(s) { assert k[32] == '|' && k[..32] == s && k[33..] == o; }
    if !IsGenesisId(t) { assert k[32] == '|' && k[..32] == t && k[33..] == p; }
  }

  lemma {:induction false} NoBar(s: string)
    requires IsServerIdShape(s)
    ensures forall i | 0 <= i < |s| :: s[i] != '|'
  {
    assert forall i | 0 <= i < |s| :: s[i] in s && IsLowerHex(s[i]);
  }

  // A record holds a chain that passes verification under the owner its key names.
  ghost predicate Honest(key: string, links: Chain, c: LockCrypto) {
    exists server, named, owner ::
      && IsServerIdShape(server) && key == RecordKey(server, named)
      && Speaks(server, owner, links, c) && (IsGenesisId(server) || owner == named)
  }

  lemma {:induction false} HonestOwner(server: string, named: string, links: Chain,
                                       c: LockCrypto) returns (owner: string)
    requires IsServerIdShape(server) && Honest(RecordKey(server, named), links, c)
    ensures Speaks(server, owner, links, c) && (IsGenesisId(server) || owner == named)
  {
    hide Speaks;
    var t, p, o :| IsServerIdShape(t) && RecordKey(server, named) == RecordKey(t, p) && Speaks(t, o, links, c)
                   && (IsGenesisId(t) || o == p);
    KeyNames(server, named, t, p);
    owner := o;
  }

  // Refused whatever the stored chain says: under a legacy id the links have to be the named
  // owner's.
  predicate WrongOwner(server: string, owner: string, submitted: Chain, c: LockCrypto) {
    submitted == [] ||
    (submitted[0].IsBase() && !IsGenesisId(server) && BaseOwner(server, submitted[0], c) != owner)
  }

  // That is, links that begin with an owner's one which the owner named did not sign. An id of
  // 40 digits certifies its own owner, so nobody need be named.
  lemma {:induction false} WrongOwnerExactly(server: string, owner: string, submitted: Chain, c: LockCrypto)
    requires IsServerIdShape(server) && owner != ""
    ensures WrongOwner(server, owner, submitted, c) <==>
            || submitted == []
            || (submitted[0].owner.Some? && |server| == 32
                && !(OwnerSigned(server, owner, submitted[0], c) && WellFormed(submitted[0])))
  {
    if submitted != [] { BaseSigned(server, owner, submitted[0], c); }
  }

  lemma {:induction false} TakenIsHonest(server: string, named: string, stored: Chain, submitted: Chain, c: LockCrypto,
                                         next: Chain)
    requires IsServerIdShape(server) && !WrongOwner(server, named, submitted, c)
    requires stored == [] || Honest(RecordKey(server, named), stored, c)
    requires Accepts(server, stored, submitted, c, Some(next))
    ensures Honest(RecordKey(server, named), next, c)
    ensures stored != [] ==> Moves(server, stored, next, c)
  {
    hide BaseOwner, Linked, Reached, Advances, RecordKey;
    if stored == [] {
      FirstSpeaks(server, submitted, c, next);
      var o :| Speaks(server, o, next, c);
      assert IsGenesisId(server) || o == named;
    } else {
      hide Accepts;
      var o := HonestOwner(server, named, stored, c);
      PutAdvances(server, o, stored, submitted, c, next);
    }
  }

  // A put moved a record's chain only as the chain rule allows.
  ghost predicate Moves(server: string, was: Chain, now: Chain, c: LockCrypto)
    requires was != []
  {
    exists owner :: Speaks(server, owner, was, c) && Speaks(server, owner, now, c)
                    && Advances(server, owner, Tip(was), now, c)
  }

  // A record whose lock nobody can sign past keeps it through any put.
  lemma {:induction false} RecordHolds(server: string, was: Chain, now: Chain, c: LockCrypto)
    requires was != [] && Moves(server, was, now, c)
    requires forall owner | Speaks(server, owner, was, c) :: Locked(server, owner, Tip(was), c)
    ensures now != [] && Tip(now).n == Tip(was).n && Tip(now).door == Tip(was).door
    ensures Tip(now).change == Tip(was).change
  {
    hide Locked, BaseOwner, Linked, KeySigned, OwnerSigned, Advances;
    var owner :| Speaks(server, owner, was, c) && Speaks(server, owner, now, c)
                 && Advances(server, owner, Tip(was), now, c);
    var x, y := Tip(was), Tip(now);
    if y.n != x.n || y.door != x.door || y.change != x.change {
      var i := MovedBySignature(server, owner, x, now, c);
      LockedSigns(server, owner, x, now[i], c);
    }
  }

  lemma {:induction false} StaysPut(server: string, named: string, held: Chain, c: LockCrypto)
    requires IsServerIdShape(server)
    ensures Honest(RecordKey(server, named), held, c) ==> held != [] && Moves(server, held, held, c)
  {
    if Honest(RecordKey(server, named), held, c) {
      hide RecordKey, BaseOwner, Linked, Reached;
      var o := HonestOwner(server, named, held, c);
      assert Advances(server, o, Tip(held), held, c);
    }
  }

  // Using a record changes no weight.
  lemma {:induction false} TouchedTotal(t: F.Table<string>, u: F.Table<string>)
    requires t.Keys == u.Keys && forall k | k in t :: t[k].weight == u[k].weight
    ensures F.Total(t) == F.Total(u)
  {
    F.WeightSame(t, u, t.Keys);
  }

  class JoinLocks {
    const shelf: S.Shelf<Chain>
    const crypto: LockCrypto
    // What a link's own fields take beside its strings.
    const linkBytes: nat

    ghost predicate Valid()
      reads shelf, shelf.ledger
    {
      && shelf.Valid() && F.Total(shelf.ledger.entries) <= shelf.budget
      && forall k | k in shelf.records :: Honest(k, shelf.records[k], crypto)
    }

    constructor (budget: nat, c: LockCrypto, bytes: nat)
      ensures Valid() && shelf.records == map[] && fresh(shelf) && fresh(shelf.ledger)
    {
      shelf := new S.Shelf(budget);
      crypto, linkBytes := c, bytes;
      new;
      assert shelf.ledger.entries.Keys == {};
      S.EmptyTotal(shelf.ledger.entries);
    }

    function LinksBytes(links: Chain): nat {
      if links == [] then 0
      else
        var l := links[0];
        linkBytes + 64 + |l.door| + |l.change| + |l.sig| + Text(l.owner) + Text(l.nonce) + LinksBytes(links[1..])
    }

    static function Text(t: Option<string>): nat {
      if t.Some? then |t.value| else 0
    }

    function RecordBytes(key: string, links: Chain): nat {
      256 + |key| + LinksBytes(links)
    }

    ghost function HeldFor(key: string): Chain
      reads shelf
    {
      if key in shelf.records then shelf.records[key] else []
    }

    // The record moves as `Accepts` allows or not at all; every record keeps verifying.
    method Put(server: string, owner: string, submitted: Chain, share: nat) returns (taken: bool, current: Chain)
      requires Valid() && IsServerIdShape(server)
      modifies shelf`records, shelf.ledger
      ensures Valid()
      ensures current == HeldFor(RecordKey(server, owner))
      ensures taken ==> current != [] && submitted != [] && Tip(current).SameLock(Tip(submitted))
      ensures WrongOwner(server, owner, submitted, crypto) ==> !taken && unchanged(shelf) && unchanged(shelf.ledger)
      ensures !WrongOwner(server, owner, submitted, crypto) ==>
                var key := RecordKey(server, owner);
                exists next ::
                  && Accepts(server, old(HeldFor(key)), submitted, crypto, next)
                  && (next.None? ==> !taken && unchanged(shelf) && unchanged(shelf.ledger))
                  && (next.Some? ==> S.Kept(shelf.records, old(shelf.records)[key := next.value]))
                  && (next.Some? ==> (taken <==> current != [] && Tip(current).SameLock(Tip(submitted))))
      ensures var key := RecordKey(server, owner);
              key in old(shelf.records) && key in shelf.records && old(shelf.records)[key] != [] ==>
                Moves(server, old(shelf.records)[key], shelf.records[key], crypto)
    {
      hide Honest, Moves, Speaks, RecordKey, Accepts, F.FairShare.Valid, F.Total, S.EvictedTo, BaseOwner;
      var key := RecordKey(server, owner);
      var stored := if key in shelf.records then shelf.records[key] else [];
      current := stored;
      StaysPut(server, owner, stored, crypto);
      if WrongOwner(server, owner, submitted, crypto) { return false, current; }
      var next := RelayPut(server, stored, submitted, crypto);
      if next.None? { return false, current; }
      TakenIsHonest(server, owner, stored, submitted, crypto, next.value);
      if key in shelf.records && next.value == stored {
        shelf.ledger.Touch(key);
        TouchedTotal(old(shelf.ledger.entries), shelf.ledger.entries);
      } else {
        File(key, next.value, share);
      }
      if key !in shelf.records { return false, []; }
      current := shelf.records[key];
      taken := current != [] && Tip(current).SameLock(Tip(submitted));
    }

    method File(key: string, links: Chain, share: nat)
      requires Valid() && Honest(key, links, crypto)
      modifies shelf`records, shelf.ledger
      ensures Valid()
      ensures S.Kept(shelf.records, old(shelf.records)[key := links])
      ensures var entry := F.Entry(share, RecordBytes(key, links), old(shelf.ledger.tick) + 1);
              S.EvictedTo(old(shelf.ledger.entries)[key := entry], shelf.ledger.entries, shelf.budget)
    {
      hide Honest, F.FairShare.Valid, F.Total, S.EvictedTo;
      shelf.records := shelf.records[key := links];
      shelf.ledger.Put(key, share, RecordBytes(key, links));
      shelf.EnforceBudget();
    }
  }
}
