// Vocabulary the other modules share.
module Base {

  datatype Option<+T> = None | Some(value: T)

  // The lexicographic order of a pair of numbers, as std::set orders it.
  predicate PairLe(a: (nat, nat), b: (nat, nat)) {
    a.0 < b.0 || (a.0 == b.0 && a.1 <= b.1)
  }

  lemma {:induction false} GreatestPair(s: set<(nat, nat)>) returns (top: (nat, nat))
    requires s != {}
    ensures top in s && forall p | p in s :: PairLe(p, top)
  {
    var q :| q in s;
    if s == {q} {
      top := q;
    } else {
      var rest := GreatestPair(s - {q});
      top := if PairLe(q, rest) then rest else q;
      forall p | p in s ensures PairLe(p, top) {
        if p != q { assert p in s - {q}; }
      }
    }
  }

  lemma {:induction false} SubsetSize<T>(a: set<T>, b: set<T>)
    requires a <= b
    ensures |a| <= |b|
  {
    assert b == a + (b - a);
  }

  lemma {:induction false} ProductMonotone(a: nat, b: nat, c: nat)
    requires b <= c
    ensures a * b <= a * c
  {}

  lemma {:induction false} ProductOneMore(n: nat, a: nat)
    ensures n * a + a == (n + 1) * a
  {}

  // ---- Texts joined by a mark ----

  predicate Free(s: string, mark: char) {
    forall i | 0 <= i < |s| :: s[i] != mark
  }

  // The first mark ends what comes before it.
  lemma {:induction false} SplitSame(a: string, x: string, b: string, y: string, mark: char)
    requires Free(a, mark) && Free(b, mark) && a + [mark] + x == b + [mark] + y
    ensures a == b && x == y
  {
    var s, t := a + [mark] + x, b + [mark] + y;
    assert s[|a|] == mark && t[|b|] == mark;
    assert forall i | 0 <= i < |b| :: t[i] == b[i];
    assert forall i | 0 <= i < |a| :: s[i] == a[i];
    assert s[..|a|] == a && t[..|b|] == b && s[|a| + 1..] == x && t[|b| + 1..] == y;
  }

  function Decimal(n: nat): string {
    if n < 10 then [Digit(n)] else Decimal(n / 10) + [Digit(n % 10)]
  }

  function Digit(d: nat): char
    requires d < 10
  {
    ('0' as int + d) as char
  }

  lemma {:induction false} DecimalFree(n: nat, mark: char)
    requires mark < '0' || mark > '9'
    ensures Free(Decimal(n), mark) && |Decimal(n)| > 0
  {
    if n >= 10 { DecimalFree(n / 10, mark); }
  }

  lemma {:induction false} DecimalSame(m: nat, n: nat)
    requires Decimal(m) == Decimal(n)
    ensures m == n
  {
    DecimalFree(m / 10, '-');
    DecimalFree(n / 10, '-');
    var s, t := Decimal(m), Decimal(n);
    assert s[|s| - 1] == t[|t| - 1] && s[..|s| - 1] == t[..|t| - 1];
    if m >= 10 && n >= 10 {
      assert s[..|s| - 1] == Decimal(m / 10) && t[..|t| - 1] == Decimal(n / 10);
      DecimalSame(m / 10, n / 10);
    }
  }
}
