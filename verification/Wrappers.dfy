/** The value that may be missing, and the search that returns one. */
module Wrappers {
  datatype Option<+T> = None | Some(value: T)

  /** First position of x. */
  function Find<T(==)>(s: seq<T>, x: T): (r: Option<nat>)
    ensures r.None? <==> x !in s
    ensures r.Some? ==> r.value < |s| && s[r.value] == x && x !in s[..r.value]
  {
    if s == [] then None
    else if s[0] == x then Some(0)
    else
      var t := Find(s[1..], x);
      assert t.Some? ==> s[..t.value + 1] == [s[0]] + s[1..][..t.value];
      if t.None? then None else Some(t.value + 1)
  }

  lemma {:induction false} FindIs<T>(s: seq<T>, x: T, i: nat)
    requires i < |s| && s[i] == x && x !in s[..i]
    ensures Find(s, x) == Some(i)
  {
    if i > 0 {
      assert s[..i][0] == s[0] && s[..i] == [s[0]] + s[1..][..i - 1];
      FindIs(s[1..], x, i - 1);
    }
  }
}
