// relay-uws/src/crypto.cpp: base58 (the Bitcoin alphabet), which peer ids are written in,
// converted in place digit by digit.
module Base58 {
  import opened Base

  type Byte = x: nat | x < 256

  // ---- Numbers and their digits ----

  function Pow(b: nat, n: nat): nat {
    if n == 0 then 1 else b * Pow(b, n - 1)
  }

  // The number the digits write, most significant first.
  function Val(ds: seq<nat>, b: nat): nat {
    if ds == [] then 0 else ds[0] * Pow(b, |ds| - 1) + Val(ds[1..], b)
  }

  ghost predicate Below(ds: seq<nat>, b: nat) {
    forall i | 0 <= i < |ds| :: ds[i] < b
  }

  // A number's digits, none of them a leading zero.
  function Digits(v: nat, b: nat): seq<nat>
    requires b > 1
  {
    if v == 0 then [] else
      DivSmaller(v, b);
      Digits(v / b, b) + [v % b]
  }

  lemma {:induction false} DivSmaller(v: nat, b: nat)
    requires b > 1 && v > 0
    ensures v / b < v && v == (v / b) * b + v % b && v % b < b
  {
    var q := v / b;
    assert v == q * b + v % b;
    ProductMonotone(q, 2, b);
  }

  lemma {:induction false} PowAdd(b: nat, m: nat, n: nat)
    ensures Pow(b, m + n) == Pow(b, m) * Pow(b, n)
  {
    if m > 0 {
      PowAdd(b, m - 1, n);
      assert Pow(b, m + n) == b * Pow(b, m - 1 + n);
    }
  }

  lemma {:induction false} PowPositive(b: nat, n: nat)
    requires b > 0
    ensures Pow(b, n) > 0
  {
    if n > 0 { PowPositive(b, n - 1); }
  }

  lemma {:induction false} ValSnoc(ds: seq<nat>, d: nat, b: nat)
    ensures Val(ds + [d], b) == Val(ds, b) * b + d
  {
    if ds == [] {
      assert [d][1..] == [];
      assert Val([d], b) == d * Pow(b, 0) + Val([], b);
    } else {
      var all := ds + [d];
      assert all[1..] == ds[1..] + [d];
      ValSnoc(ds[1..], d, b);
      calc {
        Val(all, b);
        ds[0] * Pow(b, |ds|) + (Val(ds[1..], b) * b + d);
        { assert Pow(b, |ds|) == b * Pow(b, |ds| - 1); }
        ds[0] * (b * Pow(b, |ds| - 1)) + Val(ds[1..], b) * b + d;
        (ds[0] * Pow(b, |ds| - 1) + Val(ds[1..], b)) * b + d;
      }
    }
  }

  lemma {:induction false} ValBelow(ds: seq<nat>, b: nat)
    requires b > 0 && Below(ds, b)
    ensures Val(ds, b) < Pow(b, |ds|)
  {
    if ds != [] {
      ValBelow(ds[1..], b);
      var p := Pow(b, |ds| - 1);
      assert ds[0] * p + p <= b * p by {
        assert ds[0] + 1 <= b;
        ProductMonotone(p, ds[0] + 1, b);
      }
    }
  }

  lemma {:induction false} DigitsVal(v: nat, b: nat)
    requires b > 1
    ensures Val(Digits(v, b), b) == v && Below(Digits(v, b), b)
    ensures Digits(v, b) == [] <==> v == 0
    ensures Digits(v, b) != [] ==> Digits(v, b)[0] > 0
  {
    if v > 0 {
      DivSmaller(v, b);
      DigitsVal(v / b, b);
      ValSnoc(Digits(v / b, b), v % b, b);
      assert v / b == 0 ==> v % b == v;
    }
  }

  // Digits without a leading zero are the digits of their number.
  lemma {:induction false} DigitsUnique(ds: seq<nat>, b: nat)
    requires b > 1 && Below(ds, b) && (ds != [] ==> ds[0] > 0)
    ensures Digits(Val(ds, b), b) == ds
  {
    if ds != [] {
      var n := |ds| - 1;
      var front, d := ds[..n], ds[n];
      assert ds == front + [d];
      ValSnoc(front, d, b);
      var v := Val(ds, b);
      DivMod(Val(front, b), d, b);
      if front != [] { DigitsUnique(front, b); }
      assert v / b == Val(front, b) && v % b == d;
      FirstPositive(ds, b);
    }
  }

  lemma {:induction false} DivMod(q: nat, r: nat, b: nat)
    requires r < b
    ensures (q * b + r) / b == q && (q * b + r) % b == r
  {
    var v := q * b + r;
    assert v == (v / b) * b + v % b;
    assert (q - v / b) * b == v % b - r;
    NoMultiple(q - v / b, b, v % b - r);
  }

  lemma {:induction false} NoMultiple(x: int, b: nat, y: int)
    requires x * b == y && 0 < y + b && y < b
    ensures x == 0
  {}

  lemma {:induction false} FirstPositive(ds: seq<nat>, b: nat)
    requires b > 1 && ds != [] && ds[0] > 0
    ensures Val(ds, b) >= Pow(b, |ds| - 1) > 0
  {
    PowPositive(b, |ds| - 1);
    hide Pow;
    ProductMonotone(Pow(b, |ds| - 1), 1, ds[0]);
  }

  // ---- The buffers are large enough ----

  lemma {:induction false} PowMul(b: nat, m: nat, n: nat)
    ensures Pow(Pow(b, m), n) == Pow(b, m * n)
  {
    if n == 0 {
      assert m * n == 0;
    } else {
      PowMul(b, m, n - 1);
      PowAdd(b, m, m * (n - 1));
      assert m * n == m + m * (n - 1);
    }
  }

  lemma {:induction false} PowBase(a: nat, b: nat, n: nat)
    ensures a <= b ==> Pow(a, n) <= Pow(b, n)
    ensures a < b && n > 0 ==> Pow(a, n) < Pow(b, n)
  {
    if n > 0 {
      PowBase(a, b, n - 1);
      if a < b { PowPositive(b, n - 1); }
      Products(a, b, Pow(a, n - 1), Pow(b, n - 1));
    }
  }

  lemma {:induction false} Products(a: nat, b: nat, x: nat, y: nat)
    ensures a <= b && x <= y ==> a * x <= b * y
    ensures a < b && x <= y && y > 0 ==> a * x < b * y
  {
    if a <= b && x <= y {
      ProductMonotone(a, x, y);
      assert b * y == a * y + (b - a) * y;
    }
  }

  lemma {:induction false} PowExponent(b: nat, m: nat, n: nat)
    requires b > 0 && m <= n
    ensures Pow(b, m) <= Pow(b, n)
  {
    PowAdd(b, m, n - m);
    PowPositive(b, n - m);
    ProductMonotone(Pow(b, m), 1, Pow(b, n - m));
  }

  // n digits in base a fit in m digits in base b, if p of them fit in q and q/p <= m/n.
  lemma {:induction false} Fits(a: nat, b: nat, p: nat, q: nat, n: nat, m: nat)
    requires Pow(a, p) <= Pow(b, q) && q * n <= p * m && p > 0 && b > 0
    ensures Pow(a, n) <= Pow(b, m)
  {
    hide Pow;
    PowMul(a, n, p);
    PowMul(a, p, n);
    assert n * p == p * n;
    PowBase(Pow(a, p), Pow(b, q), n);
    PowMul(b, q, n);
    PowExponent(b, q * n, p * m);
    PowMul(b, m, p);
    assert m * p == p * m;
    PowBase(Pow(b, m), Pow(a, n), p);
  }

  // 138 digits of base 58 for every 100 bytes, and one more.
  lemma {:induction false} EncodeFits(n: nat)
    ensures Pow(256, n) <= Pow(58, n * 138 / 100 + 1)
  {
    assert Pow(256, 8) <= Pow(58, 11) by {
      Squares(256, 2, 65536);
      Squares(256, 4, 4294967296);
      assert Pow(58, 3) == 195112;
      Squares(58, 4, 11316496);
      PowAdd(58, 8, 3);
    }
    Fits(256, 58, 8, 11, n, n * 138 / 100 + 1);
  }

  // 733 bytes for every 1000 digits of base 58, and one more.
  lemma {:induction false} DecodeFits(n: nat)
    ensures Pow(58, n) <= Pow(256, n * 733 / 1000 + 1)
  {
    SeventyOne();
    Fits(58, 256, 71, 52, n, n * 733 / 1000 + 1);
  }

  lemma {:induction false} Squares(b: nat, n: nat, v: nat)
    requires Pow(b, n) == v
    ensures Pow(b, n + n) == v * v
  {
    PowAdd(b, n, n);
  }

  lemma {:induction false} SeventyOne()
    ensures Pow(58, 71) <= Pow(256, 52)
  {
    assert Pow(58, 3) == 195112;
    Squares(58, 4, 11316496);
    Squares(58, 8, 128063081718016);
    Squares(58, 16, 16400152899115243850138976256);
    Squares(58, 32, 268965015114358137726910587140455987105619365599731777536);
    PowAdd(58, 4, 3);
    PowAdd(58, 64, 7);
    Squares(256, 2, 0x1_0000);
    Squares(256, 4, 0x1_0000_0000);
    Squares(256, 8, 0x1_0000_0000_0000_0000);
    Squares(256, 16, 0x1_0000_0000_0000_0000_0000_0000_0000_0000);
    PowAdd(256, 16, 4);
    PowAdd(256, 32, 20);
  }

  // ---- The alphabet ----

  // The letters stand in runs: 1-9, A-H, J-N, P-Z, a-k, m-z (no 0, O, I or l).
  function Letter(d: nat): char
    requires d < 58
  {
    if d < 9 then Nth('1', d)
    else if d < 17 then Nth('A', d - 9)
    else if d < 22 then Nth('J', d - 17)
    else if d < 33 then Nth('P', d - 22)
    else if d < 44 then Nth('a', d - 33)
    else Nth('m', d - 44)
  }

  function Nth(first: char, n: nat): char
    requires first as int + n < 128
  {
    (first as int + n) as char
  }

  function Value(c: char): Option<nat> {
    if '1' <= c <= '9' then Some(c as int - '1' as int)
    else if 'A' <= c <= 'H' then Some(9 + (c as int - 'A' as int))
    else if 'J' <= c <= 'N' then Some(17 + (c as int - 'J' as int))
    else if 'P' <= c <= 'Z' then Some(22 + (c as int - 'P' as int))
    else if 'a' <= c <= 'k' then Some(33 + (c as int - 'a' as int))
    else if 'm' <= c <= 'z' then Some(44 + (c as int - 'm' as int))
    else None
  }

  const ALPHABET := "123456789" + "ABCDEFGH" + "JKLMN" + "PQRSTUVWXYZ" + "abcdefghijk" + "mnopqrstuvwxyz"

  // `run` is the letters from its first on, in order.
  ghost predicate Consecutive(run: string) {
    forall i | 0 <= i < |run| :: run[i] as int == run[0] as int + i
  }

  lemma {:induction false} Runs()
    ensures Consecutive("123456789") && Consecutive("ABCDEFGH") && Consecutive("JKLMN") && Consecutive("PQRSTUVWXYZ")
    ensures Consecutive("abcdefghijk") && Consecutive("mnopqrstuvwxyz")
  {}

  lemma {:induction false} LettersRun(d: nat)
    requires d < 58
    ensures |ALPHABET| == 58 && Letter(d) == ALPHABET[d]
  {
    Runs();
  }

  // A digit's letter is the one at its place in the alphabet, and a letter's value that place.
  lemma {:induction false} AlphabetIs()
    ensures |ALPHABET| == 58
    ensures forall d: nat | d < 58 :: Letter(d) == ALPHABET[d] && Value(ALPHABET[d]) == Some(d)
    ensures forall c: char :: Value(c).None? <==> c !in ALPHABET
  {
    forall d: nat | d < 58 ensures Letter(d) == ALPHABET[d] { LettersRun(d); }
    forall c: char ensures Value(c).None? <==> c !in ALPHABET {
      if Value(c).Some? {
        ValueLetter(c);
        assert ALPHABET[Value(c).value] == c;
      } else if c in ALPHABET {
        var d: nat :| d < 58 && ALPHABET[d] == c;
        LetterValue(d);
      }
    }
    forall d: nat | d < 58 ensures Value(ALPHABET[d]) == Some(d) { LetterValue(d); }
  }

  lemma {:induction false} LetterValue(d: nat)
    requires d < 58
    ensures Value(Letter(d)) == Some(d)
  {}

  lemma {:induction false} ValueLetter(c: char)
    requires Value(c).Some?
    ensures Value(c).value < 58 && Letter(Value(c).value) == c
  {}

  predicate InAlphabet(s: string) {
    forall i | 0 <= i < |s| :: Value(s[i]).Some?
  }

  function Letters(ds: seq<nat>): (s: string)
    requires Below(ds, 58)
  {
    seq(|ds|, i requires 0 <= i < |ds| => Letter(ds[i]))
  }

  function Values(s: string): (ds: seq<nat>)
    requires InAlphabet(s)
    ensures Below(ds, 58)
  {
    assert forall i | 0 <= i < |s| :: Value(s[i]).value < 58;
    seq(|s|, i requires 0 <= i < |s| => Value(s[i]).value)
  }

  lemma {:induction false} LettersBack(ds: seq<nat>)
    requires Below(ds, 58)
    ensures InAlphabet(Letters(ds)) && Values(Letters(ds)) == ds
  {
    forall i | 0 <= i < |ds| ensures Value(Letters(ds)[i]) == Some(ds[i]) { LetterValue(ds[i]); }
  }

  lemma {:induction false} ValuesBack(s: string)
    requires InAlphabet(s)
    ensures Letters(Values(s)) == s
  {
    forall i | 0 <= i < |s| ensures Letters(Values(s))[i] == s[i] { ValueLetter(s[i]); }
  }

  // ---- Leading zeros ----

  // How many leading elements are `z`.
  function Leading<T(==)>(xs: seq<T>, z: T): (n: nat)
    ensures n <= |xs| && (forall i | 0 <= i < n :: xs[i] == z) && (n < |xs| ==> xs[n] != z)
  {
    if xs == [] || xs[0] != z then 0 else 1 + Leading(xs[1..], z)
  }

  lemma {:induction false} LeadingIs<T>(xs: seq<T>, z: T, n: nat)
    requires n <= |xs| && (forall i | 0 <= i < n :: xs[i] == z) && (n < |xs| ==> xs[n] != z)
    ensures Leading(xs, z) == n
  {}

  function Strip(ds: seq<nat>): seq<nat> {
    ds[Leading<nat>(ds, 0)..]
  }

  lemma {:induction false} StripVal(ds: seq<nat>, b: nat)
    ensures Val(Strip(ds), b) == Val(ds, b)
  {
    if ds != [] && ds[0] == 0 {
      StripVal(ds[1..], b);
      assert Strip(ds) == Strip(ds[1..]);
    } else {
      assert Strip(ds) == ds;
    }
  }

  lemma {:induction false} StripDigits(ds: seq<nat>, b: nat)
    requires b > 1 && Below(ds, b)
    ensures Digits(Val(ds, b), b) == Strip(ds)
  {
    StripVal(ds, b);
    DigitsUnique(Strip(ds), b);
  }

  function Repeat<T>(x: T, n: nat): seq<T> {
    seq(n, _ => x)
  }

  // ---- What the encoding is ----

  function Encoded(data: seq<Byte>): (s: string) {
    DigitsVal(Val(data, 256), 58);
    Repeat('1', Leading<nat>(data, 0)) + Letters(Digits(Val(data, 256), 58))
  }

  // The bytes a string stands for, unless it has a character outside the alphabet.
  function Decoded(s: string): (r: Option<seq<Byte>>) {
    if InAlphabet(s) then
      DigitsVal(Val(Values(s), 58), 256);
      Some(Repeat<nat>(0, Leading(s, '1')) + Digits(Val(Values(s), 58), 256))
    else None
  }

  // Zeros in front change the length and nothing else.
  lemma {:induction false} ZerosInFront(z: nat, ds: seq<nat>, b: nat)
    requires ds != [] ==> ds[0] > 0
    ensures Leading<nat>(Repeat<nat>(0, z) + ds, 0) == z && Strip(Repeat<nat>(0, z) + ds) == ds
    ensures Val(Repeat<nat>(0, z) + ds, b) == Val(ds, b)
  {
    var all := Repeat<nat>(0, z) + ds;
    LeadingIs(all, 0, z);
    StripVal(all, b);
    assert all[z..] == ds;
  }

  lemma {:induction false} LetterOne(d: nat)
    requires d < 58
    ensures Letter(d) == '1' <==> d == 0
  {
    LetterValue(d);
  }

  // Ones and letters stand for zeros and digits.
  lemma {:induction false} OnesAreZeros(z: nat, ds: seq<nat>)
    requires Below(ds, 58) && (ds != [] ==> ds[0] > 0)
    ensures var s := Repeat('1', z) + Letters(ds);
            Leading(s, '1') == z && InAlphabet(s) && Values(s) == Repeat<nat>(0, z) + ds
  {
    var s := Repeat('1', z) + Letters(ds);
    LettersBack(ds);
    LetterOne(0);
    if ds != [] { LetterOne(ds[0]); }
    LeadingIs(s, '1', z);
    LetterValue(0);
    hide Letter, Value;
    assert forall i | 0 <= i < |s| :: Value(s[i]) == Some((Repeat<nat>(0, z) + ds)[i]);
  }

  lemma {:induction false} ZerosAreOnes(s: string)
    requires InAlphabet(s)
    ensures var z, ds := Leading(s, '1'), Values(s);
            Leading<nat>(ds, 0) == z && s == Repeat('1', z) + Letters(Strip(ds))
  {
    hide Letter, Value;
    var z, ds := Leading(s, '1'), Values(s);
    ZeroIsOne(s);
    ValuesBack(s);
    hide InAlphabet, Values;
    LeadingIs(ds, 0, z);
    assert Letters(ds[z..]) == Letters(ds)[z..];
    assert s == Repeat('1', z) + s[z..];
  }

  lemma {:induction false} ZeroIsOne(s: string)
    requires InAlphabet(s)
    ensures |Values(s)| == |s| && forall i | 0 <= i < |s| :: Values(s)[i] == 0 <==> s[i] == '1'
  {
    hide Letter, Value;
    forall i | 0 <= i < |s| ensures Values(s)[i] == 0 <==> s[i] == '1' {
      ValueLetter(s[i]);
      LetterOne(Values(s)[i]);
    }
  }

  // Decoding undoes encoding, leading zeros included.
  lemma {:induction false} DecodeUndoesEncode(data: seq<Byte>)
    ensures Decoded(Encoded(data)) == Some(data)
  {
    hide Val, Digits, Letters, Values, InAlphabet;
    var v, z := Val(data, 256), Leading<nat>(data, 0);
    DigitsVal(v, 58);
    OnesAreZeros(z, Digits(v, 58));
    ZerosInFront(z, Digits(v, 58), 58);
    StripDigits(data, 256);
    assert data == Repeat<nat>(0, z) + data[z..];
  }

  // Encoding undoes decoding: only one string stands for each byte string.
  lemma {:induction false} EncodeUndoesDecode(s: string)
    requires Decoded(s).Some?
    ensures Encoded(Decoded(s).value) == s
  {
    hide Val, Digits, Letters, Values, InAlphabet;
    var v := Val(Values(s), 58);
    ZerosAreOnes(s);
    StripDigits(Values(s), 58);
    DigitsVal(v, 256);
    ZerosInFront(Leading(s, '1'), Digits(v, 256), 256);
  }

  // ---- The loops ----

  // `now` and the carry past it are `was` times `m` plus `d`.
  ghost predicate Carried(now: seq<nat>, carry: nat, was: seq<nat>, m: nat, d: nat, b: nat) {
    Val(now, b) + carry * Pow(b, |now|) == Val(was, b) * m + d
  }

  // One digit's step: what stays in place, and what is carried on.
  function Stays(carry: nat, m: nat, w: nat, b: nat): nat
    requires b > 0
  {
    (carry + m * w) % b
  }

  function Carries(carry: nat, m: nat, w: nat, b: nat): nat
    requires b > 0
  {
    (carry + m * w) / b
  }

  lemma {:induction false} CarryStep(rest: seq<nat>, was: seq<nat>, w: nat, carry: nat, m: nat, d: nat, b: nat)
    requires b > 1 && |rest| == |was| && Carried(rest, carry, was, m, d, b)
    ensures Carried([Stays(carry, m, w, b)] + rest, Carries(carry, m, w, b), [w] + was, m, d, b)
  {
    hide Val, Pow;
    var t, p := carry + m * w, Pow(b, |rest|);
    var q, r := Carries(carry, m, w, b), Stays(carry, m, w, b);
    assert t == q * b + r;
    ValCons(r, rest, b);
    ValCons(w, was, b);
    CarryArith(Val(rest, b), Val(was, b), carry, p, w, m, d, b, q, r);
  }

  lemma {:induction false} ValCons(x: nat, ds: seq<nat>, b: nat)
    ensures Val([x] + ds, b) == x * Pow(b, |ds|) + Val(ds, b) && Pow(b, |ds| + 1) == b * Pow(b, |ds|)
  {
    assert ([x] + ds)[1..] == ds;
  }

  lemma {:induction false} CarryArith(v: nat, u: nat, carry: nat, p: nat, w: nat, m: nat, d: nat, b: nat, q: nat,
                                      r: nat)
    requires v + carry * p == u * m + d && carry + m * w == q * b + r
    ensures r * p + v + q * (b * p) == (w * p + u) * m + d
  {
    assert (q * b + r) * p == q * (b * p) + r * p;
    assert (carry + m * w) * p == carry * p + (w * p) * m;
    assert (w * p + u) * m == (w * p) * m + u * m;
  }

  lemma {:induction false} CarryBelow(carry: nat, m: nat, w: nat, b: nat)
    requires b > 1 && carry < m && w < b
    ensures Carries(carry, m, w, b) < m && Stays(carry, m, w, b) < b
  {
    var t := carry + m * w;
    ProductMonotone(m, w + 1, b);
    var q := t / b;
    assert q * b <= t < m * b;
    if q >= m { ProductMonotone(b, m, q); }
  }

  // The number in `a` times `m` plus `d`, in place; what does not fit is handed back.
  method MulAdd(a: array<nat>, b: nat, m: nat, d: nat) returns (carry: nat)
    requires b > 1 && d < m && Below(a[..], b)
    modifies a
    ensures Below(a[..], b) && carry < m
    ensures Carried(a[..], carry, old(a[..]), m, d, b)
  {
    hide Carried, Stays, Carries, Val, Pow;
    ghost var was := a[..];
    carry := d;
    var j := a.Length;
    CarriedStart(m, d, b);
    assert a[j..] == [] && was[j..] == [];
    while j > 0
      invariant 0 <= j <= a.Length && carry < m
      invariant a[..j] == was[..j] && Below(a[..], b)
      invariant Carried(a[j..], carry, was[j..], m, d, b)
    {
      ghost var rest := a[j..];
      j := j - 1;
      assert a[j] == was[j];
      CarryStep(rest, was[j + 1..], was[j], carry, m, d, b);
      CarryBelow(carry, m, was[j], b);
      a[j], carry := Stays(carry, m, a[j], b), Carries(carry, m, a[j], b);
      assert a[j..] == [a[j]] + rest && was[j..] == [was[j]] + was[j + 1..];
    }
    assert a[0..] == a[..] && was[0..] == was;
  }

  lemma {:induction false} CarriedStart(m: nat, d: nat, b: nat)
    ensures Carried([], d, [], m, d, b)
  {}

  lemma {:induction false} ValNone(b: nat)
    ensures Val([], b) == 0 && Pow(b, 0) == 1
  {}

  lemma {:induction false} ZeroVal(ds: seq<nat>, b: nat)
    requires forall i | 0 <= i < |ds| :: ds[i] == 0
    ensures Val(ds, b) == 0
  {
    if ds != [] { ZeroVal(ds[1..], b); }
  }

  lemma {:induction false} NoCarry(a: nat, carry: nat, p: nat, v: nat)
    requires a + carry * p == v && v < p
    ensures carry == 0
  {
    if carry > 0 { ProductMonotone(p, 1, carry); }
  }

  // With one digit more, a number of up to `n` digits still fits in `size` of base `b`.
  lemma {:induction false} SnocFits(ds: seq<nat>, d: nat, m: nat, n: nat, b: nat, size: nat)
    requires Below(ds, m) && d < m && |ds| < n && Pow(m, n) <= Pow(b, size)
    ensures Val(ds + [d], m) == Val(ds, m) * m + d
    ensures Val(ds + [d], m) < Pow(b, size)
  {
    ValSnoc(ds, d, m);
    ValBelow(ds + [d], m);
    PowExponent(m, |ds| + 1, n);
  }

  // One digit more of the number in base `m`, into the buffer that holds it in base `b`. The
  // carry is zero, so it may be dropped.
  method PushDigit(buffer: array<nat>, b: nat, m: nat, d: nat, ghost ds: seq<nat>, ghost n: nat)
    requires b > 1 && d < m && Below(buffer[..], b) && Below(ds, m) && |ds| < n && Pow(m, n) <= Pow(b, buffer.Length)
    requires Val(buffer[..], b) == Val(ds, m)
    modifies buffer
    ensures Below(buffer[..], b) && Val(buffer[..], b) == Val(ds + [d], m)
  {
    hide Val, Pow;
    var carry := MulAdd(buffer, b, m, d);
    SnocFits(ds, d, m, n, b, buffer.Length);
    NoCarry(Val(buffer[..], b), carry, Pow(b, buffer.Length), Val(ds + [d], m));
  }

  method CountLeading<T(==)>(xs: seq<T>, z: T) returns (n: nat)
    ensures n == Leading(xs, z)
  {
    n := 0;
    while n < |xs| && xs[n] == z
      invariant n <= |xs| && forall i | 0 <= i < n :: xs[i] == z
    {
      n := n + 1;
    }
    LeadingIs(xs, z, n);
  }

  method LoadBytes(ds: seq<nat>, buffer: array<nat>)
    requires Below(ds, 256) && Pow(256, |ds|) <= Pow(58, buffer.Length)
    requires forall i | 0 <= i < buffer.Length :: buffer[i] == 0
    modifies buffer
    ensures Below(buffer[..], 58) && Val(buffer[..], 58) == Val(ds, 256)
  {
    ZeroVal(buffer[..], 58);
    ValNone(256);
    hide Pow, Val;
    for i := 0 to |ds|
      invariant Below(buffer[..], 58) && Val(buffer[..], 58) == Val(ds[..i], 256)
    {
      assert ds[..i + 1] == ds[..i] + [ds[i]];
      PushDigit(buffer, 58, 256, ds[i], ds[..i], |ds|);
    }
    assert ds[..|ds|] == ds;
  }

  method LoadLetters(s: string, buffer: array<nat>) returns (ok: bool)
    requires Pow(58, |s|) <= Pow(256, buffer.Length)
    requires forall i | 0 <= i < buffer.Length :: buffer[i] == 0
    modifies buffer
    ensures ok <==> InAlphabet(s)
    ensures ok ==> Below(buffer[..], 256) && Val(buffer[..], 256) == Val(Values(s), 58)
  {
    ZeroVal(buffer[..], 256);
    ValNone(58);
    hide Pow, Val, Value;
    for i := 0 to |s|
      invariant InAlphabet(s[..i]) && Below(buffer[..], 256) && Val(buffer[..], 256) == Val(Values(s[..i]), 58)
    {
      var v := Value(s[i]);
      if v.None? { return false; }
      ValueLetter(s[i]);
      assert s[..i + 1] == s[..i] + [s[i]];
      OneLetterMore(s[..i], s[i]);
      PushDigit(buffer, 256, 58, v.value, Values(s[..i]), |s|);
    }
    assert s[..|s|] == s;
    return true;
  }

  method Encode(data: seq<Byte>) returns (s: string)
    ensures s == Encoded(data)
  {
    var zeros := CountLeading<nat>(data, 0);
    var rest: seq<nat> := data[zeros..];
    var b58 := new nat[|rest| * 138 / 100 + 1](_ => 0);
    EncodeFits(|rest|);
    hide Pow, Val, Digits;
    LoadBytes(rest, b58);
    StripVal(data, 256);
    StripDigits(b58[..], 58);
    var it := CountLeading(b58[..], 0);
    s := Repeat('1', zeros) + Letters(b58[it..]);
  }

  method Decode(s: string) returns (r: Option<seq<Byte>>)
    ensures r == Decoded(s)
  {
    var zeros := CountLeading(s, '1');
    var rest := s[zeros..];
    var b256 := new nat[|rest| * 733 / 1000 + 1](_ => 0);
    DecodeFits(|rest|);
    hide Pow, Val, Digits, Value;
    var ok := LoadLetters(rest, b256);
    assert !ok ==> !InAlphabet(s) by {
      assert forall i | 0 <= i < |rest| :: rest[i] == s[zeros + i];
    }
    if !ok { return None; }
    OnesStripped(s);
    StripDigits(b256[..], 256);
    var it := CountLeading(b256[..], 0);
    r := Some(Repeat<nat>(0, zeros) + b256[it..]);
  }

  lemma {:induction false} OneLetterMore(s: string, c: char)
    requires InAlphabet(s) && Value(c).Some?
    ensures InAlphabet(s + [c]) && Values(s + [c]) == Values(s) + [Value(c).value]
  {
    hide Value;
  }

  lemma {:induction false} OnesStripped(s: string)
    requires InAlphabet(s[Leading(s, '1')..])
    ensures InAlphabet(s) && Val(Values(s), 58) == Val(Values(s[Leading(s, '1')..]), 58)
  {
    hide Val, Value, Letter;
    var z := Leading(s, '1');
    OneIsZero();
    assert forall i | z <= i < |s| :: s[i] == s[z..][i - z];
    assert InAlphabet(s);
    ZerosAreOnes(s);
    StripVal(Values(s), 58);
    assert Strip(Values(s)) == Values(s[z..]);
  }

  lemma {:induction false} OneIsZero()
    ensures Value('1') == Some(0)
  {}

  // ---- Peer ids ----

  const KEY_HEADER: seq<Byte> := [0x08, 0x01, 0x12, 0x20]
  const ID_PREFIX: seq<Byte> := [0x00, 0x24, 0x08, 0x01, 0x12, 0x20]

  // The peer id of a protobuf-encoded Ed25519 key, "" when it is not one.
  function DerivePeerId(proto: seq<Byte>): string {
    if |proto| != 36 || proto[..4] != KEY_HEADER then "" else Encoded([0x00, 0x24] + proto)
  }

  // The raw key a peer id names.
  function PeerIdKey(id: string): Option<seq<Byte>> {
    if |id| > 64 then None
    else
      var d := Decoded(id);
      if d.None? || |d.value| != 38 || d.value[..6] != ID_PREFIX then None else Some(d.value[6..])
  }

  lemma {:induction false} DigitsShort(v: nat, b: nat, m: nat)
    requires b > 1 && v < Pow(b, m)
    ensures |Digits(v, b)| <= m
  {
    hide Digits, Val, Pow;
    DigitsVal(v, b);
    var ds := Digits(v, b);
    if |ds| > m {
      FirstPositive(ds, b);
      PowExponent(b, m, |ds| - 1);
      assert false;
    }
  }

  lemma {:induction false} EncodedShort(data: seq<Byte>)
    ensures var z := Leading<nat>(data, 0);
            |Encoded(data)| <= z + (|data| - z) * 138 / 100 + 1
  {
    var z := Leading<nat>(data, 0);
    var rest: seq<nat> := data[z..];
    StripVal(data, 256);
    ValBelow(rest, 256);
    EncodeFits(|rest|);
    hide Pow, Val, Digits;
    DigitsShort(Val(data, 256), 58, |rest| * 138 / 100 + 1);
  }

  // Every key has a peer id that names it.
  lemma {:induction false} PeerIdNamesKey(key: seq<Byte>)
    requires |key| == 32
    ensures PeerIdKey(DerivePeerId([0x08, 0x01, 0x12, 0x20] + key)) == Some(key)
    ensures DerivePeerId([0x08, 0x01, 0x12, 0x20] + key) == Encoded([0x00, 0x24, 0x08, 0x01, 0x12, 0x20] + key)
  {
    var data := [0x00, 0x24] + (KEY_HEADER + key);
    assert data == ID_PREFIX + key;
    assert KEY_HEADER + key == [0x08, 0x01, 0x12, 0x20] + key;
    LeadingIs<nat>(data, 0, 1);
    EncodedShort(data);
    DecodeUndoesEncode(data);
  }

  // And every id that names a key is that key's own.
  lemma {:induction false} KeyHasOnePeerId(id: string)
    requires PeerIdKey(id).Some?
    ensures DerivePeerId([0x08, 0x01, 0x12, 0x20] + PeerIdKey(id).value) == id
  {
    hide Decoded, Encoded;
    var d := Decoded(id).value;
    EncodeUndoesDecode(id);
    assert [0x00, 0x24] + (KEY_HEADER + d[6..]) == d;
  }
}
