// The orders the roster's statements sort by (relay-uws/src/roster.h): std::tie over their
// fields, strings and lists of strings compared lexicographically; and what sorting,
// dropping repeats and cutting a list to a ceiling leave of it.
module Orders {
  import opened Base

  // One field of a statement.
  datatype Atom = Num(n: int) | Str(s: string) | Strs(ss: seq<string>)

  type Key = seq<Atom>

  predicate Lex<T(==)>(a: seq<T>, b: seq<T>, less: (T, T) -> bool) {
    b != [] && (a == [] || less(a[0], b[0]) || (a[0] == b[0] && Lex(a[1..], b[1..], less)))
  }

  predicate CharLess(a: char, b: char) { a < b }

  predicate StrLess(a: string, b: string) { Lex(a, b, CharLess) }

  predicate StrsLess(a: seq<string>, b: seq<string>) { Lex(a, b, StrLess) }

  predicate AtomLess(a: Atom, b: Atom) {
    match (a, b)
    case (Num(x), Num(y)) => x < y
    case (Str(x), Str(y)) => StrLess(x, y)
    case (Strs(x), Strs(y)) => StrsLess(x, y)
    case (Num(_), _) => true
    case (Str(_), Strs(_)) => true
    case _ => false
  }

  predicate KeyLess(a: Key, b: Key) { Lex(a, b, AtomLess) }

  // ---- They are strict total orders ----

  ghost predicate StrictTotal<T(!new)>(less: (T, T) -> bool) {
    && (forall x :: !less(x, x))
    && (forall x, y :: x == y || less(x, y) || less(y, x))
    && (forall x, y, z :: less(x, y) && less(y, z) ==> less(x, z))
  }

  lemma {:induction false} LexIrreflexive<T(!new)>(a: seq<T>, less: (T, T) -> bool)
    requires StrictTotal(less)
    ensures !Lex(a, a, less)
  {
    if a != [] { LexIrreflexive(a[1..], less); }
  }

  lemma {:induction false} LexConnected<T(!new)>(a: seq<T>, b: seq<T>, less: (T, T) -> bool)
    requires StrictTotal(less)
    ensures a == b || Lex(a, b, less) || Lex(b, a, less)
  {
    if a != [] && b != [] && a[0] == b[0] {
      LexConnected(a[1..], b[1..], less);
      assert a == [a[0]] + a[1..] && b == [b[0]] + b[1..];
    }
  }

  lemma {:induction false} LexTransitive<T(!new)>(a: seq<T>, b: seq<T>, c: seq<T>, less: (T, T) -> bool)
    requires StrictTotal(less) && Lex(a, b, less) && Lex(b, c, less)
    ensures Lex(a, c, less)
  {
    if a != [] && a[0] == b[0] && b[0] == c[0] {
      assert !less(a[0], a[0]);
      LexTransitive(a[1..], b[1..], c[1..], less);
    }
  }

  lemma {:induction false} StrTotal()
    ensures StrictTotal(StrLess)
  {
    forall a ensures !StrLess(a, a) { LexIrreflexive(a, CharLess); }
    forall a, b ensures a == b || StrLess(a, b) || StrLess(b, a) { LexConnected(a, b, CharLess); }
    forall a, b, c | StrLess(a, b) && StrLess(b, c) ensures StrLess(a, c) { LexTransitive(a, b, c, CharLess); }
  }

  lemma {:induction false} StrsTotal()
    ensures StrictTotal(StrsLess)
  {
    StrTotal();
    forall a ensures !StrsLess(a, a) { LexIrreflexive(a, StrLess); }
    forall a, b ensures a == b || StrsLess(a, b) || StrsLess(b, a) { LexConnected(a, b, StrLess); }
    forall a, b, c | StrsLess(a, b) && StrsLess(b, c) ensures StrsLess(a, c) { LexTransitive(a, b, c, StrLess); }
  }

  lemma {:induction false} AtomTotal()
    ensures StrictTotal(AtomLess)
  {
    StrTotal();
    StrsTotal();
    hide StrLess, StrsLess;
  }

  lemma {:induction false} KeyTotal()
    ensures StrictTotal(KeyLess)
  {
    AtomTotal();
    forall a ensures !KeyLess(a, a) { LexIrreflexive(a, AtomLess); }
    forall a, b ensures a == b || KeyLess(a, b) || KeyLess(b, a) { LexConnected(a, b, AtomLess); }
    forall a, b, c | KeyLess(a, b) && KeyLess(b, c) ensures KeyLess(a, c) { LexTransitive(a, b, c, AtomLess); }
  }

  // ---- Sorted lists without repeats ----

  ghost predicate Injective<T(!new)>(key: T -> Key) {
    forall x, y :: key(x) == key(y) ==> x == y
  }

  ghost function Elems<T>(xs: seq<T>): set<T> {
    set x | x in xs
  }

  // Strictly ascending.
  ghost predicate Sorted<T>(xs: seq<T>, key: T -> Key) {
    forall i, j | 0 <= i < j < |xs| :: KeyLess(key(xs[i]), key(xs[j]))
  }

  function Insert<T(==)>(x: T, xs: seq<T>, key: T -> Key): seq<T> {
    if xs == [] || KeyLess(key(x), key(xs[0])) then [x] + xs
    else if x == xs[0] then xs
    else [xs[0]] + Insert(x, xs[1..], key)
  }

  // std::sort, then std::unique.
  function SortUnique<T(==)>(xs: seq<T>, key: T -> Key): seq<T> {
    if xs == [] then [] else Insert(xs[0], SortUnique(xs[1..], key), key)
  }

  lemma {:induction false} InsertElems<T(!new)>(x: T, xs: seq<T>, key: T -> Key)
    ensures Elems(Insert(x, xs, key)) == Elems(xs) + {x}
  {
    if !(xs == [] || KeyLess(key(x), key(xs[0]))) && x != xs[0] {
      InsertElems(x, xs[1..], key);
      assert xs == [xs[0]] + xs[1..];
      assert Elems(xs) == {xs[0]} + Elems(xs[1..]);
      assert Elems(Insert(x, xs, key)) == {xs[0]} + Elems(Insert(x, xs[1..], key));
    }
  }

  lemma {:induction false} InsertSorted<T(!new)>(x: T, xs: seq<T>, key: T -> Key)
    requires Sorted(xs, key) && Injective(key)
    ensures Sorted(Insert(x, xs, key), key)
  {
    KeyTotal();
    hide KeyLess;
    if xs == [] || x == xs[0] {
    } else if KeyLess(key(x), key(xs[0])) {
      assert forall j | 0 < j < |xs| :: KeyLess(key(xs[0]), key(xs[j]));
    } else {
      InsertSorted(x, xs[1..], key);
      InsertElems(x, xs[1..], key);
      assert KeyLess(key(xs[0]), key(x));
      var rest := Insert(x, xs[1..], key);
      forall j | 0 <= j < |rest| ensures KeyLess(key(xs[0]), key(rest[j])) {
        assert rest[j] in Elems(rest);
        assert rest[j] == x || rest[j] in xs[1..];
      }
    }
  }

  lemma {:induction false} SortUniqueFacts<T(!new)>(xs: seq<T>, key: T -> Key)
    requires Injective(key)
    ensures Elems(SortUnique(xs, key)) == Elems(xs) && Sorted(SortUnique(xs, key), key)
  {
    if xs != [] {
      SortUniqueFacts(xs[1..], key);
      InsertElems(xs[0], SortUnique(xs[1..], key), key);
      InsertSorted(xs[0], SortUnique(xs[1..], key), key);
      assert Elems(xs) == Elems(xs[1..]) + {xs[0]} by { assert xs == [xs[0]] + xs[1..]; }
    }
  }

  // A sorted list is decided by what is in it.
  lemma {:induction false} SortedSame<T(!new)>(a: seq<T>, b: seq<T>, key: T -> Key)
    requires Sorted(a, key) && Sorted(b, key) && Elems(a) == Elems(b)
    ensures a == b
  {
    if a == [] {
      assert forall i | 0 <= i < |b| :: b[i] in Elems(b);
    } else {
      KeyTotal();
      hide KeyLess;
      assert a[0] in Elems(b);
      assert b != [];
      assert b[0] in Elems(a);
      assert a[0] == b[0];
      assert Elems(a[1..]) == Elems(b[1..]) by {
        TailElems(a, key);
        TailElems(b, key);
      }
      SortedSame(a[1..], b[1..], key);
      assert a == [a[0]] + a[1..] && b == [b[0]] + b[1..];
    }
  }

  lemma {:induction false} TailElems<T(!new)>(a: seq<T>, key: T -> Key)
    requires Sorted(a, key) && a != []
    ensures Elems(a[1..]) == Elems(a) - {a[0]}
  {
    KeyTotal();
    hide KeyLess;
    assert a == [a[0]] + a[1..];
    forall i | 0 < i < |a| ensures a[i] != a[0] {
      assert KeyLess(key(a[0]), key(a[i]));
    }
  }

  lemma {:induction false} SortedSize<T(!new)>(a: seq<T>, key: T -> Key)
    requires Sorted(a, key)
    ensures |Elems(a)| == |a|
  {
    if a == [] {
      assert Elems(a) == {};
    } else {
      TailElems(a, key);
      SortedSize(a[1..], key);
      assert a[0] in Elems(a);
    }
  }

  // Cut to a ceiling.
  function Cap<T>(xs: seq<T>, cap: nat): seq<T> {
    if |xs| > cap then xs[..cap] else xs
  }

  // The elements that pass a test, in order (std::remove_if, then erase).
  function Filter<T>(xs: seq<T>, keep: T -> bool): seq<T> {
    if xs == [] then [] else (if keep(xs[0]) then [xs[0]] else []) + Filter(xs[1..], keep)
  }

  lemma {:induction false} FilterElems<T(!new)>(xs: seq<T>, keep: T -> bool, x: T)
    ensures x in Filter(xs, keep) <==> x in xs && keep(x)
  {
    if xs != [] {
      FilterElems(xs[1..], keep, x);
      assert xs == [xs[0]] + xs[1..];
    }
  }

  lemma {:induction false} FilterSorted<T(!new)>(xs: seq<T>, keep: T -> bool, key: T -> Key)
    requires Sorted(xs, key)
    ensures Sorted(Filter(xs, keep), key)
  {
    if xs != [] {
      FilterSorted(xs[1..], keep, key);
      var rest := Filter(xs[1..], keep);
      forall j | 0 <= j < |rest| ensures KeyLess(key(xs[0]), key(rest[j])) {
        FilterElems(xs[1..], keep, rest[j]);
        var i :| 0 <= i < |xs[1..]| && xs[1..][i] == rest[j];
        assert xs[i + 1] == rest[j];
      }
    }
  }

  // ---- What a ceiling leaves ----

  // The least ones stay, if they are no more than fit.
  lemma {:induction false} LeastStay<T(!new)>(xs: seq<T>, key: T -> Key, low: set<T>, x: T, cap: nat)
    requires Sorted(xs, key) && x in xs && x in low && |low| <= cap
    requires forall y, z | y in low && z in xs && z !in low :: KeyLess(key(y), key(z))
    ensures x in Cap(xs, cap)
  {
    KeyTotal();
    hide KeyLess;
    var i :| 0 <= i < |xs| && xs[i] == x;
    var upTo := xs[..i + 1];
    forall y | y in upTo ensures y in low {
      var j :| 0 <= j < |upTo| && upTo[j] == y;
      assert j < i ==> KeyLess(key(xs[j]), key(xs[i]));
    }
    SortedSize(upTo, key);
    assert Elems(upTo) <= low;
    SubsetSize(Elems(upTo), low);
    assert |xs| > cap ==> Cap(xs, cap)[i] == x;
  }

  ghost function Lesser<T>(xs: seq<T>, key: T -> Key, x: T): set<T> {
    set y | y in xs && KeyLess(key(y), key(x))
  }

  lemma {:induction false} NotLesser<T>(xs: seq<T>, key: T -> Key, x: T)
    ensures x !in Lesser(xs, key, x)
  {
    KeyTotal();
    hide KeyLess;
  }

  // Exactly the elements with fewer than `cap` before them are left.
  lemma {:induction false} CapExact<T(!new)>(xs: seq<T>, key: T -> Key, x: T, cap: nat)
    requires Sorted(xs, key) && x in xs
    ensures x in Cap(xs, cap) <==> |Lesser(xs, key, x)| < cap
  {
    KeyTotal();
    hide KeyLess;
    var i :| 0 <= i < |xs| && xs[i] == x;
    assert Lesser(xs, key, x) == Elems(xs[..i]) by {
      forall y | y in xs && KeyLess(key(y), key(x)) ensures y in xs[..i] {
        var j :| 0 <= j < |xs| && xs[j] == y;
        assert j < i;
        assert xs[..i][j] == y;
      }
    }
    SortedSize(xs[..i], key);
    if x in Cap(xs, cap) && |xs| > cap {
      var j :| 0 <= j < cap && xs[j] == x;
      assert i == j;
    }
    assert i < cap < |xs| ==> Cap(xs, cap)[i] == x;
  }

  // What follows decides nothing between keys that differ in as long a start.
  lemma {:induction false} PrefixLess(p: Key, q: Key, a: Key, b: Key)
    requires |p| == |q| && p != q
    ensures KeyLess(p + a, q + b) <==> KeyLess(p, q)
  {
    assert (p + a)[0] == p[0] && (q + b)[0] == q[0];
    assert (p + a)[1..] == p[1..] + a && (q + b)[1..] == q[1..] + b;
    AtomTotal();
    hide AtomLess;
    if p[0] == q[0] {
      assert p == [p[0]] + p[1..] && q == [q[0]] + q[1..];
      PrefixLess(p[1..], q[1..], a, b);
    }
  }
}
