/** Taking one element out of a sequence, as a delivery does with the messages in flight. */
module Sequences {
  function Without<T>(s: seq<T>, i: nat): (r: seq<T>)
    requires i < |s|
    ensures |r| == |s| - 1
  {
    s[..i] + s[i + 1..]
  }

  lemma {:induction false} WithoutKeeps<T>(s: seq<T>, i: nat)
    requires i < |s|
    ensures forall m :: m in s ==> m == s[i] || m in Without(s, i)
    ensures forall m :: m in Without(s, i) ==> m in s
  {
    assert s == s[..i] + [s[i]] + s[i + 1..];
  }
}
