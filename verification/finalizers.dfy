/** String lists as `ContainsString` and `RemoveString` treat them. */
module Finalizers {
  /** The list without `x`; everything else keeps its order and multiplicity. */
  function Without(s: seq<string>, x: string): seq<string> {
    if s == [] then []
    else (if s[0] == x then [] else [s[0]]) + Without(s[1..], x)
  }

  method ContainsString(slice: seq<string>, s: string) returns (found: bool)
    ensures found <==> s in slice
  {
    for i := 0 to |slice|
      invariant s !in slice[..i]
    {
      if slice[i] == s { return true; }
    }
    return false;
  }

  method RemoveString(slice: seq<string>, s: string) returns (result: seq<string>)
    ensures result == Without(slice, s)
    ensures s !in result
  {
    result := [];
    for i := 0 to |slice|
      invariant result == Without(slice[..i], s)
    {
      WithoutAppend(slice[..i], slice[i], s);
      assert slice[..i + 1] == slice[..i] + [slice[i]];
      if slice[i] == s { continue; }
      result := result + [slice[i]];
    }
    assert slice[..|slice|] == slice;
    WithoutGone(slice, s);
  }

  lemma {:induction false} WithoutAppend(s: seq<string>, y: string, x: string)
    ensures Without(s + [y], x) == Without(s, x) + (if y == x then [] else [y])
  {
    if s != [] {
      assert (s + [y])[1..] == s[1..] + [y];
      WithoutAppend(s[1..], y, x);
    }
  }

  lemma {:induction false} WithoutGone(s: seq<string>, x: string)
    ensures forall y :: y in Without(s, x) <==> y in s && y != x
  {
    if s != [] {
      WithoutGone(s[1..], x);
      assert s == [s[0]] + s[1..];
    }
  }

  lemma {:induction false} WithoutTwice(s: seq<string>, x: string)
    ensures Without(Without(s, x), x) == Without(s, x)
  {
    if s != [] {
      WithoutTwice(s[1..], x);
      assert Without(s, x) == if s[0] == x then Without(s[1..], x) else [s[0]] + Without(s[1..], x);
    }
  }

  /** Removing one string leaves the count of every other string alone. */
  lemma {:induction false} WithoutCounts(s: seq<string>, x: string)
    ensures multiset(Without(s, x)) == multiset(s)[x := 0]
  {
    if s != [] {
      WithoutCounts(s[1..], x);
      assert s == [s[0]] + s[1..];
    }
  }
}
