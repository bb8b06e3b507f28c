// The parts relay-uws/src/snapshot_codec.h writes and reads a snapshot with: how a value is
// put into bytes and got back, for each kind of field and for lists of them.
module Codecs {
  import opened Base

  type Byte = x: nat | x < 256
  type Bytes = seq<Byte>

  const MAX_STRING_BYTES: nat := 64 * 1024 * 1024
  const U32_END: nat := 0x1_0000_0000
  const U64_END: int := 0x1_0000_0000_0000_0000
  const I64_END: int := 0x8000_0000_0000_0000

  // What was got from the front of the bytes, and what is left of them; or a refusal.
  datatype Got<+T> = Refused | Got(value: T, rest: Bytes)

  // How values that fit are put into bytes, and got from the front of some.
  datatype Codec<!T> = Codec(put: T -> Bytes, get: Bytes -> Got<T>, fits: T -> bool)

  // What is put is got back, with whatever follows it left over.
  ghost predicate Lawful<T(!new)>(c: Codec<T>) {
    forall x, rest | c.fits(x) :: c.get(c.put(x) + rest) == Got(x, rest)
  }

  // Only what would have been put is got.
  ghost predicate Exact<T(!new)>(c: Codec<T>) {
    forall bs | c.get(bs).Got? :: c.fits(c.get(bs).value) && bs == c.put(c.get(bs).value) + c.get(bs).rest
  }

  // Everything that fits takes at least a byte.
  ghost predicate Solid<T(!new)>(c: Codec<T>) {
    forall x | c.fits(x) :: c.put(x) != []
  }

  ghost predicate Good<T(!new)>(c: Codec<T>) {
    Lawful(c) && Exact(c)
  }

  lemma {:induction false} Back<T(!new)>(c: Codec<T>, x: T, rest: Bytes)
    requires Good(c) && c.fits(x)
    ensures c.get(c.put(x) + rest) == Got(x, rest)
  {}

  lemma {:induction false} Was<T(!new)>(c: Codec<T>, bs: Bytes)
    requires Good(c) && c.get(bs).Got?
    ensures c.fits(c.get(bs).value) && bs == c.put(c.get(bs).value) + c.get(bs).rest
  {}

  // ---- Numbers, low byte first ----

  function Low(v: nat, n: nat): Bytes {
    if n == 0 then [] else [v % 256] + Low(v / 256, n - 1)
  }

  function Val(bs: Bytes): nat {
    if bs == [] then 0 else bs[0] + 256 * Val(bs[1..])
  }

  function End(n: nat): nat {
    if n == 0 then 1 else 256 * End(n - 1)
  }

  lemma {:induction false} LowVal(v: nat, n: nat)
    requires v < End(n)
    ensures |Low(v, n)| == n && Val(Low(v, n)) == v
  {
    if n > 0 {
      LowVal(v / 256, n - 1);
      assert Low(v, n)[1..] == Low(v / 256, n - 1);
    }
  }

  lemma {:induction false} ValLow(bs: Bytes)
    ensures Val(bs) < End(|bs|) && Low(Val(bs), |bs|) == bs
  {
    if bs != [] {
      ValLow(bs[1..]);
      assert Val(bs) / 256 == Val(bs[1..]) && Val(bs) % 256 == bs[0];
    }
  }

  function Number(n: nat): Codec<nat> {
    Codec((v: nat) => Low(v, n),
          (bs: Bytes) => if |bs| < n then Refused else Got(Val(bs[..n]), bs[n..]),
          (v: nat) => v < End(n))
  }

  lemma {:induction false} NumberGood(n: nat)
    ensures Good(Number(n)) && (n > 0 ==> Solid(Number(n)))
  {
    var c := Number(n);
    forall v: nat, rest: Bytes | c.fits(v) ensures c.get(c.put(v) + rest) == Got(v, rest) && |c.put(v)| == n {
      LowVal(v, n);
      assert (Low(v, n) + rest)[..n] == Low(v, n) && (Low(v, n) + rest)[n..] == rest;
    }
    forall bs | c.get(bs).Got? ensures c.fits(c.get(bs).value) && bs == c.put(c.get(bs).value) + c.get(bs).rest {
      ValLow(bs[..n]);
      assert bs == bs[..n] + bs[n..];
    }
    assert forall v: nat | c.fits(v) :: |c.put(v)| == n by {
      forall v: nat | c.fits(v) ensures |c.put(v)| == n { LowVal(v, n); }
    }
  }

  // ---- One thing after another ----

  function Pair<S, T>(a: Codec<S>, b: Codec<T>): Codec<(S, T)> {
    Codec((x: (S, T)) => a.put(x.0) + b.put(x.1),
          (bs: Bytes) =>
            match a.get(bs)
            case Refused => Refused
            case Got(x, rest) => (
              match b.get(rest)
              case Refused => Refused
              case Got(y, left) => Got((x, y), left)),
          (x: (S, T)) => a.fits(x.0) && b.fits(x.1))
  }

  lemma {:induction false} PairGood<S(!new), T(!new)>(a: Codec<S>, b: Codec<T>)
    requires Good(a) && Good(b)
    ensures Good(Pair(a, b)) && (Solid(a) ==> Solid(Pair(a, b)))
  {
    var c := Pair(a, b);
    forall x, rest | c.fits(x) ensures c.get(c.put(x) + rest) == Got(x, rest) {
      assert c.put(x) + rest == a.put(x.0) + (b.put(x.1) + rest);
      assert a.get(a.put(x.0) + (b.put(x.1) + rest)) == Got(x.0, b.put(x.1) + rest);
      assert b.get(b.put(x.1) + rest) == Got(x.1, rest);
    }
    forall bs | c.get(bs).Got? ensures c.fits(c.get(bs).value) && bs == c.put(c.get(bs).value) + c.get(bs).rest {
      var g := a.get(bs);
      var h := b.get(g.rest);
      assert bs == a.put(g.value) + (b.put(h.value) + h.rest);
    }
    if Solid(a) {
      forall x | c.fits(x) ensures c.put(x) != [] {
        assert a.put(x.0) != [];
        assert |c.put(x)| >= |a.put(x.0)| > 0;
      }
    }
  }

  lemma {:induction false} Good3<A(!new), B(!new), C(!new)>(a: Codec<A>, b: Codec<B>, c: Codec<C>)
    requires Good(a) && Good(b) && Good(c)
    ensures Good(Pair(a, Pair(b, c))) && (Solid(a) ==> Solid(Pair(a, Pair(b, c))))
  {
    hide Good, Solid, Pair;
    PairGood(b, c);
    PairGood(a, Pair(b, c));
  }

  lemma {:induction false} Good4<A(!new), B(!new), C(!new), D(!new)>(a: Codec<A>, b: Codec<B>, c: Codec<C>, d: Codec<D>)
    requires Good(a) && Good(b) && Good(c) && Good(d)
    ensures Good(Pair(a, Pair(b, Pair(c, d)))) && (Solid(a) ==> Solid(Pair(a, Pair(b, Pair(c, d)))))
  {
    hide Good, Solid, Pair;
    Good3(b, c, d);
    PairGood(a, Pair(b, Pair(c, d)));
  }

  lemma {:induction false} Good5<A(!new), B(!new), C(!new), D(!new), E(!new)>(a: Codec<A>, b: Codec<B>, c: Codec<C>,
                                                                              d: Codec<D>, e: Codec<E>)
    requires Good(a) && Good(b) && Good(c) && Good(d) && Good(e)
    ensures Good(Pair(a, Pair(b, Pair(c, Pair(d, e))))) && (Solid(a) ==> Solid(Pair(a, Pair(b, Pair(c, Pair(d, e))))))
  {
    hide Good, Solid, Pair;
    Good4(b, c, d, e);
    PairGood(a, Pair(b, Pair(c, Pair(d, e))));
  }

  // The same bytes read as something else: `of` and `back` undo each other on what fits.
  function As<S, T>(a: Codec<S>, of: T -> S, back: S -> T, fits: T -> bool, ok: S -> bool): Codec<T> {
    Codec((x: T) => a.put(of(x)),
          (bs: Bytes) =>
            match a.get(bs)
            case Refused => Refused
            case Got(x, rest) => if ok(x) then Got(back(x), rest) else Refused,
          (x: T) => fits(x) && a.fits(of(x)))
  }

  ghost predicate Undo<S(!new), T(!new)>(of: T -> S, back: S -> T, fits: T -> bool, ok: S -> bool) {
    && (forall x | fits(x) :: ok(of(x)) && back(of(x)) == x)
    && (forall y | ok(y) :: fits(back(y)) && of(back(y)) == y)
  }

  lemma {:induction false} AsGood<S(!new), T(!new)>(a: Codec<S>, of: T -> S, back: S -> T, fits: T -> bool,
                                                    ok: S -> bool)
    requires Good(a) && Undo(of, back, fits, ok)
    ensures Good(As(a, of, back, fits, ok)) && (Solid(a) ==> Solid(As(a, of, back, fits, ok)))
  {
    var c := As(a, of, back, fits, ok);
    forall x, rest | c.fits(x) ensures c.get(c.put(x) + rest) == Got(x, rest) {
      assert a.get(a.put(of(x)) + rest) == Got(of(x), rest);
      assert back(of(x)) == x;
    }
    forall bs | c.get(bs).Got? ensures c.fits(c.get(bs).value) && bs == c.put(c.get(bs).value) + c.get(bs).rest {
      var g := a.get(bs);
      assert of(back(g.value)) == g.value;
    }
    if Solid(a) {
      forall x | c.fits(x) ensures c.put(x) != [] { assert a.put(of(x)) != []; }
    }
  }

  // What comes second depends on what came first.
  function Then<S, T>(a: Codec<S>, f: S -> Codec<T>): Codec<(S, T)> {
    Codec((x: (S, T)) => a.put(x.0) + f(x.0).put(x.1),
          (bs: Bytes) =>
            match a.get(bs)
            case Refused => Refused
            case Got(x, rest) => (
              match f(x).get(rest)
              case Refused => Refused
              case Got(y, left) => Got((x, y), left)),
          (x: (S, T)) => a.fits(x.0) && f(x.0).fits(x.1))
  }

  lemma {:induction false} ThenGood<S(!new), T(!new)>(a: Codec<S>, f: S -> Codec<T>)
    requires Good(a) && forall x | a.fits(x) :: Good(f(x))
    ensures Good(Then(a, f)) && (Solid(a) ==> Solid(Then(a, f)))
  {
    var c := Then(a, f);
    forall x, rest | c.fits(x) ensures c.get(c.put(x) + rest) == Got(x, rest) {
      var b := f(x.0);
      assert Good(b);
      assert c.put(x) + rest == a.put(x.0) + (b.put(x.1) + rest);
      assert a.get(a.put(x.0) + (b.put(x.1) + rest)) == Got(x.0, b.put(x.1) + rest);
      assert b.get(b.put(x.1) + rest) == Got(x.1, rest);
    }
    forall bs | c.get(bs).Got? ensures c.fits(c.get(bs).value) && bs == c.put(c.get(bs).value) + c.get(bs).rest {
      var g := a.get(bs);
      var b := f(g.value);
      assert Good(b);
      var h := b.get(g.rest);
      assert bs == a.put(g.value) + (b.put(h.value) + h.rest);
    }
    if Solid(a) {
      forall x | c.fits(x) ensures c.put(x) != [] {
        assert a.put(x.0) != [];
        assert |c.put(x)| >= |a.put(x.0)| > 0;
      }
    }
  }

  // ---- Strings, tags, and what only some versions have ----

  function Str(): Codec<Bytes> {
    Codec((s: Bytes) => Low(|s|, 4) + s,
          (bs: Bytes) =>
            if |bs| < 4 then Refused
            else
              var n := Val(bs[..4]);
              if n > MAX_STRING_BYTES || n > |bs| - 4 then Refused else Got(bs[4..4 + n], bs[4 + n..]),
          (s: Bytes) => |s| <= 67_108_864)
  }

  lemma {:induction false} StrGood()
    ensures Good(Str()) && Solid(Str())
  {
    var c := Str();
    assert End(4) == U32_END;
    forall s: Bytes, rest: Bytes | c.fits(s) ensures c.get(c.put(s) + rest) == Got(s, rest) && c.put(s) != [] {
      LowVal(|s|, 4);
      var bs := c.put(s) + rest;
      assert bs[..4] == Low(|s|, 4) && bs[4..4 + |s|] == s && bs[4 + |s|..] == rest;
    }
    assert forall s: Bytes | c.fits(s) :: c.put(s) != [] by {
      forall s: Bytes | c.fits(s) ensures c.put(s) != [] { LowVal(|s|, 4); }
    }
    forall bs | c.get(bs).Got? ensures c.fits(c.get(bs).value) && bs == c.put(c.get(bs).value) + c.get(bs).rest {
      ValLow(bs[..4]);
      var n := Val(bs[..4]);
      assert bs == bs[..4] + bs[4..4 + n] + bs[4 + n..];
    }
  }

  function Maybe<T(==)>(present: bool, c: Codec<T>, absent: T): Codec<T> {
    if present then c
    else Codec((x: T) => [], (bs: Bytes) => Got(absent, bs), (x: T) => x == absent)
  }

  lemma {:induction false} MaybeGood<T(!new)>(present: bool, c: Codec<T>, absent: T)
    requires Good(c)
    ensures Good(Maybe(present, c, absent))
  {
    if !present {
      var m := Maybe(present, c, absent);
      forall x, rest | m.fits(x) ensures m.get(m.put(x) + rest) == Got(x, rest) { assert [] + rest == rest; }
      forall bs | m.get(bs).Got? ensures m.fits(m.get(bs).value) && bs == m.put(m.get(bs).value) + m.get(bs).rest {
        assert [] + bs == bs;
      }
    }
  }

  // ---- Lists ----

  function PutAll<T>(c: Codec<T>, xs: seq<T>): Bytes {
    if xs == [] then [] else c.put(xs[0]) + PutAll(c, xs[1..])
  }

  function GetAll<T>(c: Codec<T>, n: nat, bs: Bytes): Got<seq<T>> {
    if n == 0 then Got([], bs)
    else
      match c.get(bs)
      case Refused => Refused
      case Got(x, rest) => (
        match GetAll(c, n - 1, rest)
        case Refused => Refused
        case Got(xs, left) => Got([x] + xs, left))
  }

  // Exactly `n` of them, no count before them.
  function Column<T>(c: Codec<T>, n: nat): Codec<seq<T>> {
    Codec((xs: seq<T>) => PutAll(c, xs),
          (bs: Bytes) => GetAll(c, n, bs),
          (xs: seq<T>) => |xs| == n && forall i | 0 <= i < |xs| :: c.fits(xs[i]))
  }

  lemma {:induction false} AllBack<T(!new)>(c: Codec<T>, xs: seq<T>, rest: Bytes)
    requires Lawful(c) && forall i | 0 <= i < |xs| :: c.fits(xs[i])
    ensures GetAll(c, |xs|, PutAll(c, xs) + rest) == Got(xs, rest)
  {
    if xs == [] {
      assert [] + rest == rest;
    } else {
      AllBack(c, xs[1..], rest);
      var tail := PutAll(c, xs[1..]) + rest;
      assert PutAll(c, xs) + rest == c.put(xs[0]) + tail;
      assert c.get(c.put(xs[0]) + tail) == Got(xs[0], tail);
      assert [xs[0]] + xs[1..] == xs;
    }
  }

  lemma {:induction false} AllExact<T(!new)>(c: Codec<T>, n: nat, bs: Bytes)
    requires Exact(c) && GetAll(c, n, bs).Got?
    ensures var g := GetAll(c, n, bs);
            |g.value| == n && (forall i | 0 <= i < n :: c.fits(g.value[i])) && bs == PutAll(c, g.value) + g.rest
  {
    if n > 0 {
      var h := c.get(bs);
      AllExact(c, n - 1, h.rest);
      var g := GetAll(c, n - 1, h.rest);
      assert GetAll(c, n, bs).value == [h.value] + g.value;
      assert ([h.value] + g.value)[1..] == g.value;
      assert bs == c.put(h.value) + (PutAll(c, g.value) + g.rest);
    } else {
      assert bs == [] + bs;
    }
  }

  lemma {:induction false} ColumnGood<T(!new)>(c: Codec<T>, n: nat)
    requires Good(c)
    ensures Good(Column(c, n))
  {
    var k := Column(c, n);
    forall xs, rest | k.fits(xs) ensures k.get(k.put(xs) + rest) == Got(xs, rest) { AllBack(c, xs, rest); }
    forall bs | k.get(bs).Got? ensures k.fits(k.get(bs).value) && bs == k.put(k.get(bs).value) + k.get(bs).rest {
      AllExact(c, n, bs);
    }
  }

  // A count, then so many. A count past the bytes left is refused, as each takes at least
  // one.
  function List<T>(c: Codec<T>): Codec<seq<T>> {
    Codec((xs: seq<T>) => Low(|xs|, 4) + PutAll(c, xs),
          (bs: Bytes) =>
            if |bs| < 4 then Refused
            else
              var n := Val(bs[..4]);
              if n > |bs| - 4 then Refused else GetAll(c, n, bs[4..]),
          (xs: seq<T>) => |xs| < U32_END && forall i | 0 <= i < |xs| :: c.fits(xs[i]))
  }

  lemma {:induction false} AllSize<T(!new)>(c: Codec<T>, xs: seq<T>)
    requires Solid(c) && forall i | 0 <= i < |xs| :: c.fits(xs[i])
    ensures |PutAll(c, xs)| >= |xs|
  {
    if xs != [] {
      AllSize(c, xs[1..]);
      assert c.put(xs[0]) != [];
    }
  }

  lemma {:induction false} EndFour()
    ensures End(4) == U32_END
  {}

  lemma {:induction false} ListBack<T(!new)>(c: Codec<T>, xs: seq<T>, rest: Bytes)
    requires Lawful(c) && Solid(c) && List(c).fits(xs)
    ensures List(c).get(List(c).put(xs) + rest) == Got(xs, rest) && List(c).put(xs) != []
  {
    hide Lawful, Solid, Low, Val, PutAll, GetAll, End;
    EndFour();
    LowVal(|xs|, 4);
    AllBack(c, xs, rest);
    AllSize(c, xs);
    var head, tail := Low(|xs|, 4), PutAll(c, xs) + rest;
    var bs := List(c).put(xs) + rest;
    assert bs == head + tail;
    assert bs[..4] == head && bs[4..] == tail;
  }

  lemma {:induction false} ListExact<T(!new)>(c: Codec<T>, bs: Bytes)
    requires Exact(c) && List(c).get(bs).Got?
    ensures var g := List(c).get(bs); List(c).fits(g.value) && bs == List(c).put(g.value) + g.rest
  {
    assert End(4) == U32_END;
    ValLow(bs[..4]);
    AllExact(c, Val(bs[..4]), bs[4..]);
    hide Exact, Low, Val, PutAll, GetAll;
    assert bs == bs[..4] + bs[4..];
  }

  lemma {:induction false} ListGood<T(!new)>(c: Codec<T>)
    requires Good(c) && Solid(c)
    ensures Good(List(c)) && Solid(List(c))
  {
    var k := List(c);
    hide List;
    forall xs, rest | k.fits(xs) ensures k.get(k.put(xs) + rest) == Got(xs, rest) && k.put(xs) != [] {
      ListBack(c, xs, rest);
    }
    forall xs | k.fits(xs) ensures k.put(xs) != [] { ListBack(c, xs, []); }
    forall bs | k.get(bs).Got? ensures k.fits(k.get(bs).value) && bs == k.put(k.get(bs).value) + k.get(bs).rest {
      ListExact(c, bs);
    }
  }

  // ---- The fields ----

  function U8(): Codec<nat> { Number(1) }
  function U32(): Codec<nat> { Number(4) }
  function U64(): Codec<nat> { Number(8) }

  lemma {:induction false} NumbersGood()
    ensures Good(U8()) && Solid(U8()) && Good(U32()) && Solid(U32()) && Good(U64()) && Solid(U64())
  {
    NumberGood(1);
    NumberGood(4);
    NumberGood(8);
  }

  // Two's complement.
  function Unsigned(v: int): nat {
    if 0 <= v then v else if v < -U64_END then 0 else v + U64_END
  }

  function Signed(u: nat): int {
    if u < I64_END then u else u - U64_END
  }

  predicate InI64(v: int) { -I64_END <= v < I64_END }
  predicate InU64(u: nat) { u < U64_END }

  function I64(): Codec<int> {
    As(U64(), Unsigned, Signed, InI64, InU64)
  }

  function Bit(b: bool): nat { if b then 1 else 0 }
  predicate IsOne(v: nat) { v == 1 }
  predicate IsBit(v: nat) { v <= 1 }
  predicate Any<T>(x: T) { true }

  function Flag(): Codec<bool> {
    As(U8(), Bit, IsOne, Any, IsBit)
  }

  lemma {:induction false} SignedGood()
    ensures Good(I64()) && Solid(I64()) && Good(Flag()) && Solid(Flag())
  {
    hide Good, Solid, Number;
    NumbersGood();
    AsGood(U64(), Unsigned, Signed, InI64, InU64);
    AsGood(U8(), Bit, IsOne, Any<bool>, IsBit);
  }

  // ---- A flag that says whether the rest is there ----

  function IfThere<T(==)>(c: Codec<T>, absent: T): bool -> Codec<T> {
    (has: bool) => Maybe(has, c, absent)
  }
  function ToPair<T>(absent: T): Option<T> -> (bool, T) {
    (x: Option<T>) => (x.Some?, if x.Some? then x.value else absent)
  }
  function FromPair<T>(p: (bool, T)): Option<T> {
    if p.0 then Some(p.1) else None
  }
  function PairOk<T(==)>(absent: T): ((bool, T)) -> bool {
    (p: (bool, T)) => p.0 || p.1 == absent
  }

  function Opt<T(==)>(c: Codec<T>, absent: T): Codec<Option<T>> {
    As(Then(Flag(), IfThere(c, absent)), ToPair(absent), FromPair, Any, PairOk(absent))
  }

  lemma {:induction false} OptGood<T(!new)>(c: Codec<T>, absent: T)
    requires Good(c)
    ensures Good(Opt(c, absent)) && Solid(Opt(c, absent))
  {
    hide Good, Solid, Flag, Then, As, Maybe;
    SignedGood();
    MaybeGood(true, c, absent);
    MaybeGood(false, c, absent);
    ThenGood(Flag(), IfThere(c, absent));
    AsGood(Then(Flag(), IfThere(c, absent)), ToPair(absent), FromPair<T>, Any<Option<T>>, PairOk(absent));
  }

  // ---- Columns whose lengths are known from elsewhere ----

  // The i-th as many as `ns[i]` says.
  function PutEach<T>(f: nat -> Codec<T>, ns: seq<nat>, xs: seq<T>): Bytes
    requires |ns| == |xs|
  {
    if xs == [] then [] else f(ns[0]).put(xs[0]) + PutEach(f, ns[1..], xs[1..])
  }

  function GetEach<T>(f: nat -> Codec<T>, ns: seq<nat>, bs: Bytes): (g: Got<seq<T>>)
    ensures g.Got? ==> |g.value| == |ns|
  {
    if ns == [] then Got([], bs)
    else
      match f(ns[0]).get(bs)
      case Refused => Refused
      case Got(x, rest) => (
        match GetEach(f, ns[1..], rest)
        case Refused => Refused
        case Got(xs, left) => Got([x] + xs, left))
  }

  function Each<T>(f: nat -> Codec<T>, ns: seq<nat>): Codec<seq<T>> {
    Codec((xs: seq<T>) => if |xs| == |ns| then PutEach(f, ns, xs) else [],
          (bs: Bytes) => GetEach(f, ns, bs),
          (xs: seq<T>) => |xs| == |ns| && forall i | 0 <= i < |xs| :: f(ns[i]).fits(xs[i]))
  }

  lemma {:induction false} EachBack<T(!new)>(f: nat -> Codec<T>, ns: seq<nat>, xs: seq<T>, rest: Bytes)
    requires (forall i | 0 <= i < |ns| :: Lawful(f(ns[i]))) && Each(f, ns).fits(xs)
    ensures GetEach(f, ns, PutEach(f, ns, xs) + rest) == Got(xs, rest)
  {
    if xs == [] {
      assert [] + rest == rest;
    } else {
      var c := f(ns[0]);
      var tail := PutEach(f, ns[1..], xs[1..]) + rest;
      assert PutEach(f, ns, xs) + rest == c.put(xs[0]) + tail;
      assert Lawful(c) && c.fits(xs[0]);
      assert c.get(c.put(xs[0]) + tail) == Got(xs[0], tail);
      hide Lawful;
      assert forall i | 0 <= i < |xs[1..]| :: f(ns[1..][i]).fits(xs[1..][i]);
      EachBack(f, ns[1..], xs[1..], rest);
      assert [xs[0]] + xs[1..] == xs;
    }
  }

  lemma {:induction false} EachExact<T(!new)>(f: nat -> Codec<T>, ns: seq<nat>, bs: Bytes)
    requires (forall i | 0 <= i < |ns| :: Exact(f(ns[i]))) && GetEach(f, ns, bs).Got?
    ensures var g := GetEach(f, ns, bs); Each(f, ns).fits(g.value) && bs == PutEach(f, ns, g.value) + g.rest
  {
    if ns == [] {
      assert bs == [] + bs;
    } else {
      var c := f(ns[0]);
      assert Exact(c);
      var h := c.get(bs);
      assert forall i | 0 <= i < |ns[1..]| :: Exact(f(ns[1..][i]));
      EachExact(f, ns[1..], h.rest);
      var g := GetEach(f, ns[1..], h.rest);
      var all := [h.value] + g.value;
      assert GetEach(f, ns, bs).value == all && all[1..] == g.value;
      forall i | 0 <= i < |all| ensures f(ns[i]).fits(all[i]) {
        if i > 0 { assert ns[i] == ns[1..][i - 1] && all[i] == g.value[i - 1]; }
      }
      assert bs == c.put(h.value) + (PutEach(f, ns[1..], g.value) + g.rest);
    }
  }

  lemma {:induction false} EachGood<T(!new)>(f: nat -> Codec<T>, ns: seq<nat>)
    requires forall i | 0 <= i < |ns| :: Good(f(ns[i]))
    ensures Good(Each(f, ns))
  {
    var k := Each(f, ns);
    forall xs, rest | k.fits(xs) ensures k.get(k.put(xs) + rest) == Got(xs, rest) { EachBack(f, ns, xs, rest); }
    forall bs | k.get(bs).Got? ensures k.fits(k.get(bs).value) && bs == k.put(k.get(bs).value) + k.get(bs).rest {
      EachExact(f, ns, bs);
    }
  }

  // A count that must be `n`, then what comes with it, which takes at least `n` bytes.
  function Counted<T>(n: nat, c: Codec<T>): Codec<T> {
    Codec((x: T) => Low(n, 4) + c.put(x),
          (bs: Bytes) =>
            if |bs| < 4 || Val(bs[..4]) > |bs| - 4 || Val(bs[..4]) != n then Refused else c.get(bs[4..]),
          (x: T) => c.fits(x))
  }

  ghost predicate Roomy<T(!new)>(n: nat, c: Codec<T>) {
    forall x | c.fits(x) :: |c.put(x)| >= n
  }

  lemma {:induction false} CountedGood<T(!new)>(n: nat, c: Codec<T>)
    requires Good(c) && Roomy(n, c) && n < U32_END
    ensures Good(Counted(n, c)) && Roomy(4, Counted(n, c))
  {
    hide Low, Val, End;
    var k := Counted(n, c);
    EndFour();
    LowVal(n, 4);
    forall x, rest | k.fits(x) ensures k.get(k.put(x) + rest) == Got(x, rest) {
      var head, tail := Low(n, 4), c.put(x) + rest;
      assert k.put(x) + rest == head + tail;
      assert (head + tail)[..4] == head && (head + tail)[4..] == tail;
    }
    forall bs | k.get(bs).Got? ensures k.fits(k.get(bs).value) && bs == k.put(k.get(bs).value) + k.get(bs).rest {
      ValLow(bs[..4]);
      var g := c.get(bs[4..]);
      assert bs == bs[..4] + (c.put(g.value) + g.rest);
    }
  }

  // Columns take as much room as they have entries of at least a byte.
  lemma {:induction false} ColumnRoomy<T(!new)>(c: Codec<T>, n: nat)
    requires Solid(c)
    ensures Roomy(n, Column(c, n))
  {
    forall xs | Column(c, n).fits(xs) ensures |Column(c, n).put(xs)| >= n { AllSize(c, xs); }
  }

  lemma {:induction false} EachSize<T(!new)>(f: nat -> Codec<T>, ns: seq<nat>, xs: seq<T>)
    requires (forall i | 0 <= i < |ns| :: Roomy(1, f(ns[i]))) && Each(f, ns).fits(xs)
    ensures |PutEach(f, ns, xs)| >= |ns|
  {
    if xs != [] {
      assert forall i | 0 <= i < |xs[1..]| :: f(ns[1..][i]).fits(xs[1..][i]);
      EachSize(f, ns[1..], xs[1..]);
      assert Roomy(1, f(ns[0])) && f(ns[0]).fits(xs[0]);
    }
  }

  lemma {:induction false} EachRoomy<T(!new)>(f: nat -> Codec<T>, ns: seq<nat>)
    requires forall i | 0 <= i < |ns| :: Roomy(1, f(ns[i]))
    ensures Roomy(|ns|, Each(f, ns))
  {
    forall xs | Each(f, ns).fits(xs) ensures |Each(f, ns).put(xs)| >= |ns| { EachSize(f, ns, xs); }
  }
}
