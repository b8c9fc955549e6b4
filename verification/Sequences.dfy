/** Regrouping and comparing concatenations. */
module Sequences {

  lemma {:induction false} Grouped<T>(a: seq<T>, b: seq<T>, c: seq<T>)
    ensures (a + b) + c == a + (b + c)
  {
  }

  lemma {:induction false} SameHead<T>(a: seq<T>, b: seq<T>, c: seq<T>)
    ensures a + b <= a + c <==> b <= c
  {
    assert b == (a + b)[|a|..] && c == (a + c)[|a|..];
    if a + b <= a + c {
      assert (a + b)[|a|..] == (a + c)[|a|..|a + b|];
    }
  }
}
