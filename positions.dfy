/**
 * The order in which the deck code visits a stack's positions. A stack directory holds one
 * symlink per position, named by the position's decimal number; `get_levels` and `delete`
 * list that directory and sort the NAMES as strings, while `add_level` computes the next
 * position numerically. This module defines the string order and proves how it relates to
 * numeric order.
 */
module Positions {
  import opened Text

  /** Python's `<` on strings: lexicographic by character code, a proper prefix first. */
  predicate StrLt(a: string, b: string)
    decreases |a|
  {
    |b| > 0 && (|a| == 0 || a[0] < b[0] || (a[0] == b[0] && StrLt(a[1..], b[1..])))
  }

  lemma {:induction false} StrLtIrreflexive(a: string)
    ensures !StrLt(a, a)
    decreases |a|
  {
    if |a| > 0 {
      StrLtIrreflexive(a[1..]);
    }
  }

  lemma {:induction false} StrLtTransitive(a: string, b: string, c: string)
    requires StrLt(a, b) && StrLt(b, c)
    ensures StrLt(a, c)
    decreases |a|
  {
    if |a| > 0 && a[0] == b[0] && b[0] == c[0] {
      StrLtTransitive(a[1..], b[1..], c[1..]);
    }
  }

  lemma {:induction false} StrLtTotal(a: string, b: string)
    requires a != b
    ensures StrLt(a, b) || StrLt(b, a)
    decreases |a|
  {
    if |a| > 0 && |b| > 0 && a[0] == b[0] {
      assert a == [a[0]] + a[1..] && b == [b[0]] + b[1..];
      StrLtTotal(a[1..], b[1..]);
    }
  }

  /** Position `a` is listed before position `b` by a string sort of their names. */
  predicate NameLt(a: nat, b: nat) {
    StrLt(Decimal(a), Decimal(b))
  }

  lemma NameLtIrreflexive(a: nat)
    ensures !NameLt(a, a)
  {
    StrLtIrreflexive(Decimal(a));
  }

  lemma NameLtTransitive(a: nat, b: nat, c: nat)
    requires NameLt(a, b) && NameLt(b, c)
    ensures NameLt(a, c)
  {
    StrLtTransitive(Decimal(a), Decimal(b), Decimal(c));
  }

  lemma NameLtTotal(a: nat, b: nat)
    requires a != b
    ensures NameLt(a, b) || NameLt(b, a)
  {
    if Decimal(a) == Decimal(b) {
      DecimalInjective(a, b);
    }
    StrLtTotal(Decimal(a), Decimal(b));
  }

  lemma NameLtAsymmetric()
    ensures forall a: nat, b: nat :: NameLt(a, b) ==> !NameLt(b, a)
  {
    forall a: nat, b: nat | NameLt(a, b) ensures !NameLt(b, a) {
      if NameLt(b, a) {
        NameLtTransitive(a, b, a);
        NameLtIrreflexive(a);
      }
    }
  }

  /** `m` is the member of `s` whose name sorts first. */
  predicate IsMinByName(m: nat, s: set<nat>) {
    m in s && forall k | k in s && k != m :: NameLt(m, k)
  }

  lemma MinWithOneMore(m: nat, x: nat, s: set<nat>)
    requires x in s && IsMinByName(m, s - {x})
    ensures IsMinByName(m, s) || IsMinByName(x, s)
  {
    if NameLt(m, x) {
      forall k | k in s && k != m ensures NameLt(m, k) {
        if k != x {
          assert k in s - {x};
        }
      }
    } else {
      NameLtTotal(m, x);
      forall k | k in s && k != x ensures NameLt(x, k) {
        if k != m {
          assert k in s - {x};
          NameLtTransitive(x, m, k);
        }
      }
    }
  }

  lemma {:induction false} MinByNameExists(s: set<nat>)
    requires s != {}
    ensures exists m :: IsMinByName(m, s)
    decreases s
  {
    var x :| x in s;
    if s == {x} {
      assert IsMinByName(x, s);
    } else {
      MinByNameExists(s - {x});
      var m :| IsMinByName(m, s - {x});
      MinWithOneMore(m, x, s);
    }
  }

  /** The position whose name a string sort lists first. */
  function MinByName(s: set<nat>): (m: nat)
    requires s != {}
    ensures IsMinByName(m, s)
  {
    MinByNameExists(s);
    NameLtAsymmetric();
    var m :| IsMinByName(m, s);
    m
  }

  /** `sorted(map(str, keys))`, read back as positions. */
  function ByName(keys: set<nat>): (r: seq<nat>)
    ensures |r| == |keys|
    ensures forall i | 0 <= i < |r| :: r[i] in keys
    ensures forall k | k in keys :: k in r
    ensures forall i, j {:trigger NameLt(r[i], r[j])} | 0 <= i < j < |r| :: NameLt(r[i], r[j])
    decreases keys
  {
    if keys == {} then []
    else
      var m := MinByName(keys);
      [m] + ByName(keys - {m})
  }

  predicate SortedByName(a: seq<nat>) {
    forall i, j | 0 <= i < j < |a| :: NameLt(a[i], a[j])
  }

  lemma SortedHeadIsMin(a: seq<nat>)
    requires SortedByName(a) && a != []
    ensures forall x | x in a && x != a[0] :: NameLt(a[0], x)
  {
    forall x | x in a && x != a[0] ensures NameLt(a[0], x) {
      var i :| 0 <= i < |a| && a[i] == x;
    }
  }

  lemma SortedTail(a: seq<nat>)
    requires SortedByName(a) && a != []
    ensures SortedByName(a[1..])
    ensures forall x | x in a[1..] :: x != a[0] && x in a
    ensures forall x | x in a && x != a[0] :: x in a[1..]
  {
    forall x | x in a[1..] ensures x != a[0] && x in a {
      var i :| 1 <= i < |a| && a[i] == x;
      NameLtIrreflexive(a[0]);
    }
    forall x | x in a && x != a[0] ensures x in a[1..] {
      var i :| 0 <= i < |a| && a[i] == x;
      assert a[1..][i - 1] == x;
    }
  }

  lemma ElementsIn(b: seq<nat>)
    ensures |b| > 0 ==> b[0] in b
  {
  }

  lemma NoElementsEmpty(b: seq<nat>)
    requires forall x :: x !in b
    ensures b == []
  {
    ElementsIn(b);
  }

  /** Two name-sorted sequences with the same elements are the same sequence. */
  lemma {:induction false} SortedByNameUnique(a: seq<nat>, b: seq<nat>)
    requires SortedByName(a) && SortedByName(b)
    requires forall x :: x in a <==> x in b
    ensures a == b
    decreases |a|
  {
    if a != [] {
      assert a[0] in b;
      assert b[0] in a;
      SortedHeadIsMin(a);
      SortedHeadIsMin(b);
      assert a[0] == b[0] by {
        NameLtAsymmetric();
      }
      SortedTail(a);
      SortedTail(b);
      SortedByNameUnique(a[1..], b[1..]);
      assert a == [a[0]] + a[1..] && b == [b[0]] + b[1..];
    } else {
      NoElementsEmpty(b);
    }
  }

  /** The positions 0, 1, ..., n-1 in numeric order. */
  function Upto(n: nat): (r: seq<nat>)
    ensures |r| == n && forall i | 0 <= i < n :: r[i] == i
    ensures forall x | x in r :: x < n
  {
    if n == 0 then [] else Upto(n - 1) + [n - 1]
  }

  /** The positions 0, 1, ..., n-1 as a set. */
  function Dense(n: nat): (r: set<nat>)
    ensures forall k: nat :: k in r <==> k < n
  {
    if n == 0 then {} else Dense(n - 1) + {n - 1}
  }

  lemma {:induction false} DenseCard(n: nat)
    ensures |Dense(n)| == n
  {
    if n > 0 {
      var d := Dense(n - 1);
      DenseCard(n - 1);
      assert n - 1 !in d;
      assert |d + {n - 1}| == |d| + 1;
    }
  }

  lemma SingleDigitNameOrder(i: nat, j: nat)
    requires i < j < 10
    ensures NameLt(i, j)
  {
    assert Decimal(i) == [DigitChar(i)] && Decimal(j) == [DigitChar(j)];
  }

  lemma UptoSortedByName(n: nat)
    requires n <= 10
    ensures SortedByName(Upto(n))
  {
    var u := Upto(n);
    forall i, j | 0 <= i < j < |u| ensures NameLt(u[i], u[j]) {
      SingleDigitNameOrder(i, j);
    }
  }

  /** While a stack has at most ten positions, the string sort agrees with numeric order. */
  lemma ByNameIsNumericUpToTen(n: nat)
    requires n <= 10
    ensures ByName(Dense(n)) == Upto(n)
  {
    var u := Upto(n);
    var r := ByName(Dense(n));
    forall x ensures x in r <==> x in u {
      if x in r {
        assert x < n;
        assert u[x] == x;
      }
      if x in u {
        assert x in Dense(n);
      }
    }
    UptoSortedByName(n);
    SortedByNameUnique(r, u);
  }

  /** From eleven positions on, it does not: "10" sorts before "2". */
  lemma ByNameIsNotNumericFromEleven(n: nat)
    requires n >= 11
    ensures ByName(Dense(n)) != Upto(n)
  {
    var u := Upto(n);
    assert Decimal(2) == "2";
    assert Decimal(10) == "10";
    assert !NameLt(u[2], u[10]);
  }

  /** Between eleven and ninety positions the string sort does not list the highest position
      last: position 9 sorts after every two-digit name below 90. */
  lemma ByNameTopIsNotLast(n: nat)
    requires 11 <= n <= 90
    ensures |ByName(Dense(n))| == n && ByName(Dense(n))[n - 1] != n - 1
  {
    DenseCard(n);
    var r := ByName(Dense(n));
    var top := n - 1;
    var d := Decimal(top);
    assert d == Decimal(top / 10) + [DigitChar(top % 10)];
    assert Decimal(top / 10) == [DigitChar(top / 10)];
    assert Decimal(9) == "9";
    assert NameLt(top, 9);
    assert 9 in Dense(n);
    var i :| 0 <= i < |r| && r[i] == 9;
    if i < n - 1 {
      assert NameLt(9, r[n - 1]);
      NameLtAsymmetric();
      assert !NameLt(r[n - 1], 9);
    } else {
      assert |r| == n;
      assert i == n - 1;
    }
  }

  /** No position is listed twice. */
  lemma ByNameDistinct(keys: set<nat>)
    ensures forall i, j | 0 <= i < j < |ByName(keys)| :: ByName(keys)[i] != ByName(keys)[j]
  {
    var r := ByName(keys);
    forall i, j | 0 <= i < j < |r| ensures r[i] != r[j] {
      NameLtIrreflexive(r[i]);
    }
  }

  /** Position 0 is the first name listed whenever it is present. */
  lemma ZeroListedFirst(keys: set<nat>)
    requires 0 in keys
    ensures ByName(keys)[0] == 0
  {
    assert Decimal(0) == "0";
  }
}
