/** The ordering of worker names used as the last tie-break by the greedy
    zone allocator: Python compares `str` values code point by code point,
    and a proper prefix sorts first. */
module Names {

  predicate NameLess(a: string, b: string)
    decreases |a|
  {
    if |a| == 0 then |b| > 0
    else if |b| == 0 then false
    else if a[0] != b[0] then a[0] < b[0]
    else NameLess(a[1..], b[1..])
  }

  lemma {:induction false} NameLessIrreflexive(a: string)
    ensures !NameLess(a, a)
    decreases |a|
  {
    if |a| > 0 {
      NameLessIrreflexive(a[1..]);
    }
  }

  lemma {:induction false} NameLessTransitive(a: string, b: string, c: string)
    requires NameLess(a, b) && NameLess(b, c)
    ensures NameLess(a, c)
    decreases |a|
  {
    if |a| > 0 && a[0] == b[0] && b[0] == c[0] {
      NameLessTransitive(a[1..], b[1..], c[1..]);
    }
  }

  /** Two different names are always ordered one way or the other. */
  lemma {:induction false} NameLessTotal(a: string, b: string)
    requires a != b
    ensures NameLess(a, b) || NameLess(b, a)
    decreases |a|
  {
    if |a| > 0 && |b| > 0 && a[0] == b[0] {
      assert a == [a[0]] + a[1..] && b == [b[0]] + b[1..];
      NameLessTotal(a[1..], b[1..]);
    }
  }
}
