/** The order SQLite uses when it compares two TEXT values: character by
    character, a proper prefix first. Every `<`, `<=`, `>` and `>=` on a date
    or a time column of the scheduler is this order. */
module Text {

  /** `a < b` on TEXT. */
  predicate Before(a: string, b: string)
    decreases |a|
  {
    if |a| == 0 then |b| > 0
    else if |b| == 0 then false
    else a[0] < b[0] || (a[0] == b[0] && Before(a[1..], b[1..]))
  }

  /** `a <= b` on TEXT. */
  predicate AtMost(a: string, b: string) { !Before(b, a) }

  lemma {:induction false} BeforeIrreflexive(a: string)
    ensures !Before(a, a)
    decreases |a|
  {
    if |a| > 0 {
      BeforeIrreflexive(a[1..]);
    }
  }

  lemma {:induction false} BeforeTransitive(a: string, b: string, c: string)
    requires Before(a, b) && Before(b, c)
    ensures Before(a, c)
    decreases |a|
  {
    if |a| > 0 && a[0] == b[0] && b[0] == c[0] {
      BeforeTransitive(a[1..], b[1..], c[1..]);
    }
  }

  /** TEXT comparison is total: of two different strings one comes first. */
  lemma {:induction false} BeforeTotal(a: string, b: string)
    ensures a == b || Before(a, b) || Before(b, a)
    decreases |a|
  {
    if |a| > 0 && |b| > 0 && a[0] == b[0] {
      BeforeTotal(a[1..], b[1..]);
      if a[1..] == b[1..] {
        assert a == [a[0]] + a[1..] && b == [b[0]] + b[1..];
      }
    }
  }

  lemma BeforeAsymmetric(a: string, b: string)
    requires Before(a, b)
    ensures !Before(b, a)
  {
    if Before(b, a) {
      BeforeTransitive(a, b, a);
      BeforeIrreflexive(a);
    }
  }

  /** `a <= b` is `a < b` or `a == b`. */
  lemma AtMostIsBeforeOrEqual(a: string, b: string)
    ensures AtMost(a, b) <==> (Before(a, b) || a == b)
  {
    BeforeTotal(a, b);
    BeforeIrreflexive(a);
    if Before(a, b) {
      BeforeAsymmetric(a, b);
    }
  }

  /** Comparing two strings with prefixes of the same length compares the
      prefixes first and the rest only when the prefixes agree. */
  lemma {:induction false} BeforeConcat(x: string, y: string, x': string, y': string)
    requires |x| == |x'|
    ensures Before(x + y, x' + y') <==> Before(x, x') || (x == x' && Before(y, y'))
    decreases |x|
  {
    if |x| > 0 {
      assert (x + y)[0] == x[0] && (x' + y')[0] == x'[0];
      assert (x + y)[1..] == x[1..] + y && (x' + y')[1..] == x'[1..] + y';
      BeforeConcat(x[1..], y, x'[1..], y');
      if x[0] == x'[0] && x[1..] == x'[1..] {
        assert x == [x[0]] + x[1..] && x' == [x'[0]] + x'[1..];
      }
    } else {
      assert x + y == y && x' + y' == y';
    }
  }
}
