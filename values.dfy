/**
 * The values a table cell can hold, and JavaScript's relational `<` on them as the
 * sort comparator uses it: numbers compare numerically, strings lexicographically,
 * and `undefined` (a row without the property) is never less than anything,
 * nor is anything less than it.
 */
module Values {
  import opened Wrappers

  /** A JavaScript number (integers only in this model) or a string. */
  datatype Value = Num(n: int) | Str(s: string)

  /** Which of the three shapes a looked-up property has. */
  datatype Kind = Missing | Numeric | Text

  function KindOf(v: Option<Value>): Kind
  {
    match v
    case None => Missing
    case Some(Num(_)) => Numeric
    case Some(Str(_)) => Text
  }

  /** Lexicographic order on strings: the first differing character decides, and a proper prefix comes first. */
  predicate StrLess(a: string, b: string)
  {
    if |a| == 0 then |b| > 0
    else if |b| == 0 then false
    else if a[0] != b[0] then a[0] < b[0]
    else StrLess(a[1..], b[1..])
  }

  lemma {:induction false} StrLessIrreflexive(a: string)
    ensures !StrLess(a, a)
  {
    if |a| > 0 {
      StrLessIrreflexive(a[1..]);
    }
  }

  lemma {:induction false} StrLessTransitive(a: string, b: string, c: string)
    requires StrLess(a, b) && StrLess(b, c)
    ensures StrLess(a, c)
  {
    if |a| > 0 && |b| > 0 && |c| > 0 && a[0] == b[0] && b[0] == c[0] {
      StrLessTransitive(a[1..], b[1..], c[1..]);
    }
  }

  lemma {:induction false} StrLessTotal(a: string, b: string)
    ensures a == b || StrLess(a, b) || StrLess(b, a)
  {
    if |a| > 0 && |b| > 0 && a[0] == b[0] {
      StrLessTotal(a[1..], b[1..]);
      if a[1..] == b[1..] {
        assert a == [a[0]] + a[1..] && b == [b[0]] + b[1..];
      }
    }
  }

  /** JavaScript's `x < y` on two looked-up properties, restricted to the shapes modelled here. */
  predicate Less(x: Option<Value>, y: Option<Value>)
  {
    match (x, y)
    case (Some(Num(m)), Some(Num(n))) => m < n
    case (Some(Str(s)), Some(Str(t))) => StrLess(s, t)
    case _ => false
  }

  /** `<` is a strict order on every pair of values, whatever their kinds. */
  lemma LessIrreflexive(x: Option<Value>)
    ensures !Less(x, x)
  {
    if x.Some? && x.value.Str? {
      StrLessIrreflexive(x.value.s);
    }
  }

  lemma LessTransitive(x: Option<Value>, y: Option<Value>, z: Option<Value>)
    requires Less(x, y) && Less(y, z)
    ensures Less(x, z)
  {
    if x.Some? && x.value.Str? {
      StrLessTransitive(x.value.s, y.value.s, z.value.s);
    }
  }

  lemma LessAsymmetric(x: Option<Value>, y: Option<Value>)
    ensures !(Less(x, y) && Less(y, x))
  {
    if Less(x, y) && Less(y, x) {
      LessTransitive(x, y, x);
      LessIrreflexive(x);
    }
  }

  /** Two different values of the same kind are always ordered one way or the other. */
  lemma LessTotalOnKind(x: Option<Value>, y: Option<Value>)
    requires KindOf(x) == KindOf(y)
    ensures x == y || Less(x, y) || Less(y, x)
  {
    if x.Some? && x.value.Str? {
      StrLessTotal(x.value.s, y.value.s);
    }
  }
}
