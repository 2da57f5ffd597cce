/**
 * The orderings JavaScript's `<` gives the values the dashboard sorts:
 * numbers by magnitude, strings lexicographically by character with a
 * proper prefix first. Dafny's own `<` on sequences means "proper prefix",
 * so the string order is written out here.
 */
module Order {

  /** A sort key: the value a comparator reads off an element. */
  datatype Key = Num(n: real) | Str(s: string)

  /** JavaScript's `a < b` on two strings. */
  predicate LexLess(a: string, b: string)
    decreases |a|
  {
    if |a| == 0 then |b| > 0
    else if |b| == 0 then false
    else a[0] < b[0] || (a[0] == b[0] && LexLess(a[1..], b[1..]))
  }

  lemma {:induction false} LexLessIrreflexive(a: string)
    ensures !LexLess(a, a)
    decreases |a|
  {
    if |a| > 0 {
      LexLessIrreflexive(a[1..]);
    }
  }

  lemma {:induction false} LexLessTransitive(a: string, b: string, c: string)
    requires LexLess(a, b) && LexLess(b, c)
    ensures LexLess(a, c)
    decreases |a|
  {
    if |a| > 0 && a[0] == b[0] && b[0] == c[0] {
      LexLessTransitive(a[1..], b[1..], c[1..]);
    }
  }

  /** Two strings neither of which is below the other are equal. */
  lemma {:induction false} LexLessTotal(a: string, b: string)
    ensures a == b || LexLess(a, b) || LexLess(b, a)
    decreases |a|
  {
    if |a| > 0 && |b| > 0 && a[0] == b[0] {
      LexLessTotal(a[1..], b[1..]);
      if a[1..] == b[1..] {
        assert a == [a[0]] + a[1..] && b == [b[0]] + b[1..];
      }
    }
  }

  /**
   * The strict order on keys. A sort field gives every element a key of the
   * same kind, so numbers and strings are never compared with each other;
   * putting numbers first only makes the order total.
   */
  predicate KeyLess(x: Key, y: Key) {
    match (x, y)
    case (Num(a), Num(b)) => a < b
    case (Str(a), Str(b)) => LexLess(a, b)
    case (Num(_), Str(_)) => true
    case (Str(_), Num(_)) => false
  }

  lemma KeyLessIrreflexive(x: Key)
    ensures !KeyLess(x, x)
  {
    if x.Str? {
      LexLessIrreflexive(x.s);
    }
  }

  lemma KeyLessTransitive(x: Key, y: Key, z: Key)
    requires KeyLess(x, y) && KeyLess(y, z)
    ensures KeyLess(x, z)
  {
    if x.Str? && y.Str? && z.Str? {
      LexLessTransitive(x.s, y.s, z.s);
    }
  }

  lemma KeyLessAsymmetric(x: Key, y: Key)
    ensures KeyLess(x, y) ==> !KeyLess(y, x)
  {
    if KeyLess(x, y) && KeyLess(y, x) {
      KeyLessTransitive(x, y, x);
      KeyLessIrreflexive(x);
    }
  }

  lemma KeyLessTotal(x: Key, y: Key)
    ensures x == y || KeyLess(x, y) || KeyLess(y, x)
  {
    if x.Str? && y.Str? {
      LexLessTotal(x.s, y.s);
    }
  }

  /** `!(y < x)` on keys is `x <= y`, and it chains. */
  lemma NotLessTransitive(x: Key, y: Key, z: Key)
    requires !KeyLess(y, x) && !KeyLess(z, y)
    ensures !KeyLess(z, x)
  {
    KeyLessTotal(x, y);
    KeyLessTotal(y, z);
    if KeyLess(x, y) && KeyLess(y, z) {
      KeyLessTransitive(x, y, z);
      KeyLessIrreflexive(x);
      if KeyLess(z, x) {
        KeyLessTransitive(x, z, x);
      }
    } else if KeyLess(x, y) {
      if KeyLess(z, x) {
        KeyLessTransitive(z, x, y);
      }
    } else if KeyLess(y, z) {
      if KeyLess(z, x) {
        KeyLessTransitive(y, z, x);
      }
    } else {
      KeyLessIrreflexive(x);
    }
  }
}
