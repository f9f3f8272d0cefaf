/**
 * Python's `<` on `str`: code point by code point, a proper prefix being
 * smaller. Version labels are sorted with it.
 */
module LexOrder {

  predicate LexLess(a: string, b: string)
  {
    if a == [] then b != []
    else b != [] && (a[0] < b[0] || (a[0] == b[0] && LexLess(a[1..], b[1..])))
  }

  /** `a >= b` in Python. */
  predicate LexAtLeast(a: string, b: string)
  {
    !LexLess(a, b)
  }

  lemma {:induction false} LexIrreflexive(a: string)
    ensures !LexLess(a, a)
  {
    if a != [] {
      LexIrreflexive(a[1..]);
    }
  }

  lemma {:induction false} LexAsymmetric(a: string, b: string)
    ensures LexLess(a, b) ==> !LexLess(b, a)
  {
    if a != [] && b != [] && a[0] == b[0] {
      LexAsymmetric(a[1..], b[1..]);
    }
  }

  lemma {:induction false} LexTransitive(a: string, b: string, c: string)
    requires LexLess(a, b) && LexLess(b, c)
    ensures LexLess(a, c)
  {
    if a != [] && a[0] == b[0] && b[0] == c[0] {
      LexTransitive(a[1..], b[1..], c[1..]);
    }
  }

  /** Two labels are equal, or one is below the other. */
  lemma {:induction false} LexTrichotomy(a: string, b: string)
    ensures a == b || LexLess(a, b) || LexLess(b, a)
  {
    if a != [] && b != [] && a[0] == b[0] {
      LexTrichotomy(a[1..], b[1..]);
      if a[1..] == b[1..] {
        assert a == [a[0]] + a[1..] && b == [b[0]] + b[1..];
      }
    }
  }

  /** `>=` is transitive, as the sort relies on. */
  lemma LexAtLeastTransitive(a: string, b: string, c: string)
    requires LexAtLeast(a, b) && LexAtLeast(b, c)
    ensures LexAtLeast(a, c)
  {
    LexTrichotomy(a, b);
    LexTrichotomy(b, c);
    if LexLess(a, c) {
      if a == b {
      } else if b == c {
      } else {
        LexTransitive(c, b, a);
        LexAsymmetric(a, c);
      }
    }
  }
}
