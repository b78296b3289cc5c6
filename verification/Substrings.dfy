/** Parts of sequences and texts. */
module Substrings {

  /** m is part of s: Python's `m in s` for texts. */
  predicate Contains<T(==)>(s: seq<T>, m: seq<T>) {
    m <= s || (s != [] && Contains(s[1..], m))
  }

  /** t stands at index i of s. */
  predicate Stands<T(==)>(s: seq<T>, i: nat, t: seq<T>) {
    i + |t| <= |s| && s[i..i + |t|] == t
  }

  lemma StandsRest<T>(s: seq<T>, i: nat, m: seq<T>)
    requires s != []
    ensures Stands(s, i + 1, m) <==> Stands(s[1..], i, m)
  {
    if i + 1 + |m| <= |s| {
      assert s[i + 1..i + 1 + |m|] == s[1..][i..i + |m|];
    }
  }

  /** Being a part is standing somewhere. */
  lemma {:induction false} ContainsIs<T>(s: seq<T>, m: seq<T>)
    ensures Contains(s, m) <==> exists i: nat :: Stands(s, i, m)
  {
    if m <= s {
      assert Stands(s, 0, m);
    } else if s != [] {
      ContainsIs(s[1..], m);
      if i: nat :| Stands(s[1..], i, m) {
        StandsRest(s, i, m);
      }
      if i: nat :| Stands(s, i, m) {
        StandsRest(s, i - 1, m);
      }
    }
  }

  lemma StandsSplit<T>(s: seq<T>, i: nat, t: seq<T>, u: seq<T>)
    requires Stands(s, i, t + u)
    ensures Stands(s, i, t) && Stands(s, i + |t|, u)
  {
    assert s[i..i + |t|] == s[i..i + |t + u|][..|t|];
    assert s[i + |t|..i + |t + u|] == s[i..i + |t + u|][|t|..];
  }

  lemma StandsAt<T>(s: seq<T>, i: nat, t: seq<T>, k: nat)
    requires Stands(s, i, t) && k < |t|
    ensures s[i + k] == t[k]
  {
    assert s[i + k] == s[i..i + |t|][k];
  }

  lemma StandsThroughout<T>(s: seq<T>, i: nat, t: seq<T>)
    requires Stands(s, i, t)
    ensures forall k :: i <= k < i + |t| ==> s[k] == t[k - i]
  {
    forall k | i <= k < i + |t|
      ensures s[k] == t[k - i]
    {
      StandsAt(s, i, t, k - i);
    }
  }
}
