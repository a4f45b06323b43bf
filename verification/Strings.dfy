/** Substring search as Go's `strings.Index` and `strings.HasPrefix` define it. */
module Strings {

  /** `sub` occurs in `s` at position `i`. */
  predicate At(s: string, sub: string, i: int) {
    0 <= i && i + |sub| <= |s| && s[i..i + |sub|] == sub
  }

  /** The first position at or after `i` where `sub` occurs, or -1. */
  function IndexFrom(s: string, sub: string, i: nat): (r: int)
    ensures r == -1 || (i <= r && At(s, sub, r))
    ensures forall j :: i <= j && (r == -1 || j < r) ==> !At(s, sub, j)
    decreases |s| - i
  {
    if At(s, sub, i) then i
    else if i >= |s| then -1
    else IndexFrom(s, sub, i + 1)
  }

  function Index(s: string, sub: string): (r: int)
    ensures r == -1 || At(s, sub, r)
    ensures forall j :: 0 <= j && (r == -1 || j < r) ==> !At(s, sub, j)
  {
    IndexFrom(s, sub, 0)
  }

  lemma {:induction false} ShiftedAt(front: string, s: string, sub: string, i: nat)
    requires At(s, sub, i)
    ensures At(front + s, sub, |front| + i)
  {
    assert (front + s)[|front| + i..|front| + i + |sub|] == s[i..i + |sub|];
  }

  /** An occurrence with none before it is the one `Index` finds. */
  lemma {:induction false} FirstOccurrence(s: string, sub: string, i: nat)
    requires At(s, sub, i) && forall j :: 0 <= j < i ==> !At(s, sub, j)
    ensures Index(s, sub) == i
  {
  }

  /** Whether `sub` first occurs right after `value` does not depend on what follows that occurrence. */
  lemma {:induction false} FirstOccurrenceIsLocal(value: string, sub: string, tail: string)
    requires sub <= tail
    ensures Index(value + tail, sub) == |value| <==> Index(value + sub, sub) == |value|
  {
    assert At(value + tail, sub, |value|) && At(value + sub, sub, |value|);
    forall j | 0 <= j < |value|
      ensures At(value + tail, sub, j) <==> At(value + sub, sub, j)
    {
      assert tail[..|sub|] == sub;
      assert (value + tail)[..|value| + |sub|] == value + sub;
      assert (value + tail)[j..j + |sub|] == (value + sub)[j..j + |sub|];
    }
    if Index(value + tail, sub) == |value| {
      FirstOccurrence(value + sub, sub, |value|);
    }
    if Index(value + sub, sub) == |value| {
      FirstOccurrence(value + tail, sub, |value|);
    }
  }
}
