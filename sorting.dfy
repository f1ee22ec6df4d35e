/**
 * The sort keys the system compares (numbers, and strings under JavaScript's
 * `<`) and a stable insertion sort over them, which stands for
 * `Array.prototype.sort` with a comparator that puts `a` after `b` exactly
 * when `a`'s key is strictly past `b`'s in the chosen direction.
 */
module Sorting {
  import opened Strings

  datatype Key = Num(n: int) | Str(s: string)

  /** Strict order on keys; numbers and strings are never mixed within one field. */
  predicate KeyLess(a: Key, b: Key)
  {
    match (a, b)
    case (Num(x), Num(y)) => x < y
    case (Str(x), Str(y)) => StrLess(x, y)
    case (Num(_), Str(_)) => true
    case (Str(_), Num(_)) => false
  }

  lemma KeyLessIrreflexive(a: Key)
    ensures !KeyLess(a, a)
  {
    if a.Str? { StrLessIrreflexive(a.s); }
  }

  lemma KeyLessTransitive(a: Key, b: Key, c: Key)
    requires KeyLess(a, b) && KeyLess(b, c)
    ensures KeyLess(a, c)
  {
    if a.Str? && b.Str? && c.Str? { StrLessTransitive(a.s, b.s, c.s); }
  }

  lemma KeyLessTotal(a: Key, b: Key)
    requires a != b
    ensures KeyLess(a, b) || KeyLess(b, a)
  {
    if a.Str? && b.Str? { StrLessTotal(a.s, b.s); }
  }

  /** `a` may stand before `b`: ascending `a <= b`, descending `a >= b`. */
  predicate InOrder(a: Key, b: Key, descending: bool)
  {
    if descending then !KeyLess(a, b) else !KeyLess(b, a)
  }

  lemma InOrderTotal(a: Key, b: Key, descending: bool)
    ensures InOrder(a, b, descending) || InOrder(b, a, descending)
  {
    if a == b {
      KeyLessIrreflexive(a);
    } else {
      KeyLessTotal(a, b);
      if KeyLess(a, b) && KeyLess(b, a) {
        KeyLessTransitive(a, b, a);
        KeyLessIrreflexive(a);
      }
    }
  }

  lemma InOrderTransitive(a: Key, b: Key, c: Key, descending: bool)
    requires InOrder(a, b, descending) && InOrder(b, c, descending)
    ensures InOrder(a, c, descending)
  {
    if !descending && KeyLess(c, a) {
      if b != a { KeyLessTotal(a, b); }
      if b != c { KeyLessTotal(b, c); }
      if b == a || b == c {
      } else {
        KeyLessTransitive(c, a, b);
      }
    } else if descending && KeyLess(a, c) {
      if b != a { KeyLessTotal(a, b); }
      if b != c { KeyLessTotal(b, c); }
      if b == a || b == c {
      } else {
        KeyLessTransitive(b, a, c);
      }
    }
  }

  ghost predicate Sorted<T>(s: seq<T>, key: T -> Key, descending: bool)
  {
    forall i, j :: 0 <= i < j < |s| ==> InOrder(key(s[i]), key(s[j]), descending)
  }

  /** Places `x` before the first element it may precede: earlier input stays first on ties. */
  function Insert<T>(x: T, s: seq<T>, key: T -> Key, descending: bool): (r: seq<T>)
    ensures |r| == |s| + 1
    ensures multiset(r) == multiset(s) + multiset{x}
  {
    if s == [] then [x]
    else if InOrder(key(x), key(s[0]), descending) then [x] + s
    else
      assert s == [s[0]] + s[1..];
      [s[0]] + Insert(x, s[1..], key, descending)
  }

  /** The sorted copy: `arr.slice().sort(cmp)`. */
  function SortBy<T>(s: seq<T>, key: T -> Key, descending: bool): (r: seq<T>)
    ensures |r| == |s|
    ensures multiset(r) == multiset(s)
  {
    if s == [] then []
    else
      assert s == [s[0]] + s[1..];
      Insert(s[0], SortBy(s[1..], key, descending), key, descending)
  }

  lemma {:induction false} InsertSorted<T>(x: T, s: seq<T>, key: T -> Key, descending: bool)
    requires Sorted(s, key, descending)
    ensures Sorted(Insert(x, s, key, descending), key, descending)
    decreases |s|
  {
    var r := Insert(x, s, key, descending);
    if s == [] {
    } else if InOrder(key(x), key(s[0]), descending) {
      forall i, j | 0 <= i < j < |r| ensures InOrder(key(r[i]), key(r[j]), descending) {
        if i == 0 && j > 1 {
          InOrderTransitive(key(x), key(s[0]), key(s[j - 1]), descending);
        }
      }
    } else {
      InOrderTotal(key(x), key(s[0]), descending);
      var t := Insert(x, s[1..], key, descending);
      InsertSorted(x, s[1..], key, descending);
      assert multiset(t) == multiset(s[1..]) + multiset{x};
      forall i, j | 0 <= i < j < |r| ensures InOrder(key(r[i]), key(r[j]), descending) {
        if i == 0 {
          var y := r[j];
          assert y in multiset(t);
          assert y == x || y in multiset(s[1..]);
          if y != x {
            var k :| 0 <= k < |s[1..]| && s[1..][k] == y;
            assert s[k + 1] == y;
          }
        }
      }
    }
  }

  lemma {:induction false} SortBySorted<T>(s: seq<T>, key: T -> Key, descending: bool)
    ensures Sorted(SortBy(s, key, descending), key, descending)
    decreases |s|
  {
    if s != [] {
      SortBySorted(s[1..], key, descending);
      InsertSorted(s[0], SortBy(s[1..], key, descending), key, descending);
    }
  }

  /** With pairwise distinct keys the order is strict. */
  lemma SortedDistinctStrict<T>(s: seq<T>, key: T -> Key, descending: bool)
    requires Sorted(s, key, descending)
    requires forall i, j :: 0 <= i < j < |s| ==> key(s[i]) != key(s[j])
    ensures forall i, j :: 0 <= i < j < |s| ==>
      if descending then KeyLess(key(s[j]), key(s[i])) else KeyLess(key(s[i]), key(s[j]))
  {
    forall i, j | 0 <= i < j < |s|
      ensures if descending then KeyLess(key(s[j]), key(s[i])) else KeyLess(key(s[i]), key(s[j]))
    {
      KeyLessTotal(key(s[i]), key(s[j]));
    }
  }
}
