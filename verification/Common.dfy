/** Shared value types. */
module Common {

  datatype Option<+T> = None | Some(value: T)

  type byte = x: int | 0 <= x < 256

  /** A single-precision float (binary32 of IEEE 754). A finite one other than -0.0 is `units` times 2^-149. */
  datatype F32 = Finite(units: int) | NegativeZero | Infinite(positive: bool) | NotANumber

  predicate IsFinite(x: F32) {
    x.Finite? || x.NegativeZero?
  }

  /** The order of floats, in which a NaN compares with nothing and the two zeros are equal. */
  predicate AtMost(x: F32, y: F32) {
    match (x, y)
    case (NotANumber, _) => false
    case (_, NotANumber) => false
    case (Infinite(positive), _) => !positive || y == x
    case (_, Infinite(positive)) => positive
    case _ => Units(x) <= Units(y)
  }

  function Units(x: F32): int {
    if x.Finite? then x.units else 0
  }
}

/** Sums of a natural-valued function over a finite set. */
module SetSum {

  ghost function Sum<K(!new)>(s: set<K>, f: K -> nat): nat {
    if s == {} then 0 else var x :| x in s; f(x) + Sum(s - {x}, f)
  }

  lemma {:induction false} SumTakeOut<K(!new)>(s: set<K>, f: K -> nat, x: K)
    requires x in s
    ensures Sum(s, f) == f(x) + Sum(s - {x}, f)
    decreases |s|
  {
    var y :| y in s && Sum(s, f) == f(y) + Sum(s - {y}, f);
    if y != x {
      SumTakeOut(s - {y}, f, x);
      SumTakeOut(s - {x}, f, y);
      assert s - {y} - {x} == s - {x} - {y};
    }
  }

  lemma {:induction false} SumCongruent<K(!new)>(s: set<K>, f: K -> nat, g: K -> nat)
    requires forall x :: x in s ==> f(x) == g(x)
    ensures Sum(s, f) == Sum(s, g)
    decreases |s|
  {
    if s != {} {
      var x :| x in s;
      SumTakeOut(s, f, x);
      SumTakeOut(s, g, x);
      SumCongruent(s - {x}, f, g);
    }
  }

  lemma MulNext(a: nat, n: nat)
    ensures a * (n + 1) == a * n + a
  {
  }

  lemma {:induction false} SumAtLeast<K(!new)>(s: set<K>, f: K -> nat, low: nat)
    requires forall x :: x in s ==> f(x) >= low
    ensures Sum(s, f) >= low * |s|
    decreases |s|
  {
    if s != {} {
      var x :| x in s;
      SumTakeOut(s, f, x);
      SumAtLeast(s - {x}, f, low);
      MulNext(low, |s - {x}|);
    }
  }

  /** The sum of a map's values. */
  ghost function Total<K(!new)>(m: map<K, nat>): nat {
    Sum(m.Keys, k => if k in m then m[k] else 0)
  }

  lemma TotalPut<K(!new)>(m: map<K, nat>, k: K, v: nat)
    ensures Total(m[k := v]) == Total(m) - (if k in m then m[k] else 0) + v
  {
    var f: K -> nat := x => if x in m then m[x] else 0;
    var m' := m[k := v];
    var g: K -> nat := x => if x in m' then m'[x] else 0;
    SumTakeOut(m'.Keys, g, k);
    SumCongruent(m.Keys - {k}, f, g);
    assert m'.Keys - {k} == m.Keys - {k};
    if k in m {
      SumTakeOut(m.Keys, f, k);
    } else {
      assert m.Keys - {k} == m.Keys;
    }
  }

  lemma TotalDrop<K(!new)>(m: map<K, nat>, k: K)
    ensures Total(m - {k}) == Total(m) - (if k in m then m[k] else 0)
  {
    var f: K -> nat := x => if x in m then m[x] else 0;
    var m' := m - {k};
    var g: K -> nat := x => if x in m' then m'[x] else 0;
    SumCongruent(m.Keys - {k}, f, g);
    assert m'.Keys == m.Keys - {k};
    if k in m {
      SumTakeOut(m.Keys, f, k);
    } else {
      assert m.Keys - {k} == m.Keys;
    }
  }
}
