/** The textual form of the planners' output: lists of names joined with
    ", ", and the reading back of such a string. */
module Text {

  const Comma: char := ','

  /** The names joined with ", " between consecutive ones. */
  function Join(parts: seq<string>): (r: string)
    ensures parts == [] ==> r == ""
    ensures |parts| == 1 ==> r == parts[0]
  {
    if parts == [] then ""
    else if |parts| == 1 then parts[0]
    else parts[0] + ", " + Join(parts[1..])
  }

  /** The position of the first ", " in `s`, or `|s|` when there is none. */
  function SepAt(s: string): (i: nat)
    ensures i == |s| || (i + 2 <= |s| && s[i] == Comma && s[i + 1] == ' ')
    ensures forall j | 0 <= j < i && j + 1 < |s| :: !(s[j] == Comma && s[j + 1] == ' ')
    decreases |s|
  {
    if |s| < 2 then |s|
    else if s[0] == Comma && s[1] == ' ' then 0
    else 1 + SepAt(s[1..])
  }

  /** The pieces of `s` between the occurrences of ", ", read left to right. */
  function Split(s: string): (r: seq<string>)
    ensures r != []
    decreases |s|
  {
    var i := SepAt(s);
    if i == |s| then [s] else [s[..i]] + Split(s[i + 2..])
  }

  /** A name without a comma. */
  predicate Plain(name: string)
  {
    Comma !in name
  }

  /** A separator right after a name without a comma is the first one. */
  lemma {:induction false} SepAfterPlain(a: string, b: string)
    requires Plain(a)
    ensures SepAt(a + ", " + b) == |a|
    decreases |a|
  {
    var s := a + ", " + b;
    if |a| > 0 {
      assert s[1..] == a[1..] + ", " + b;
      SepAfterPlain(a[1..], b);
    }
  }

  lemma {:induction false} SepAbsent(a: string)
    requires Plain(a)
    ensures SepAt(a) == |a|
    decreases |a|
  {
    if |a| >= 2 {
      assert a[0] in a;
      SepAbsent(a[1..]);
    }
  }

  /** Reading a plain name and a separator off the front. */
  lemma SplitStep(a: string, rest: string)
    requires Plain(a)
    ensures Split(a + ", " + rest) == [a] + Split(rest)
  {
    var s := a + ", " + rest;
    SepAfterPlain(a, rest);
    assert s[..|a|] == a;
    assert s[|a| + 2..] == rest;
  }

  /** Names without commas can be read back from their joined form, so the
      joined output loses neither a name nor the order. */
  lemma {:induction false} SplitJoin(parts: seq<string>)
    requires parts != []
    requires forall p | p in parts :: Plain(p)
    ensures Split(Join(parts)) == parts
    decreases |parts|
  {
    if |parts| == 1 {
      SepAbsent(parts[0]);
    } else {
      SplitStep(parts[0], Join(parts[1..]));
      SplitJoin(parts[1..]);
    }
  }
}
