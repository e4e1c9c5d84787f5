/** Texts at a position of a larger text. */
module Texts {
  ghost predicate TextAt(t: string, at: nat, text: string) {
    at + |text| <= |t| && forall j | 0 <= j < |text| :: text[j] == t[at + j]
  }

  lemma TextSplit(t: string, at: nat, a: string, b: string)
    requires TextAt(t, at, a + b)
    ensures TextAt(t, at, a) && TextAt(t, at + |a|, b)
  {
    forall j | 0 <= j < |a|
      ensures a[j] == t[at + j]
    {
      assert (a + b)[j] == a[j];
    }
    forall j | 0 <= j < |b|
      ensures b[j] == t[at + |a| + j]
    {
      assert (a + b)[|a| + j] == b[j];
    }
  }

  lemma TextIsSlice(t: string, at: nat, text: string)
    requires TextAt(t, at, text)
    ensures t[at..at + |text|] == text
  {
  }
}
