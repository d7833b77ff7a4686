/** Concatenation of sequences, and facts about it that the verifier needs to be told. */
module Sequences {
  function Flatten<T>(parts: seq<seq<T>>): seq<T> {
    if parts == [] then [] else parts[0] + Flatten(parts[1..])
  }

  lemma {:induction false} FlattenConcat<T>(a: seq<seq<T>>, b: seq<seq<T>>)
    ensures Flatten(a + b) == Flatten(a) + Flatten(b)
  {
    if a == [] {
      assert a + b == b;
    } else {
      assert (a + b)[1..] == a[1..] + b;
      FlattenConcat(a[1..], b);
      Regroup(a[0], Flatten(a[1..]), Flatten(b));
    }
  }

  lemma Regroup<T>(a: seq<T>, b: seq<T>, c: seq<T>)
    ensures a + b + c == a + (b + c)
  {
  }

  lemma AppendToNothing<T>(a: seq<T>)
    ensures [] + a == a && a + [] == a
  {
  }

  lemma FlattenOne<T>(a: seq<T>)
    ensures Flatten([a]) == a
  {
    assert Flatten([a][1..]) == [];
  }

  lemma SplitAt<T>(a: seq<T>, n: nat)
    requires n <= |a|
    ensures a[..n] + a[n..] == a
    ensures n == |a| ==> a[..n] == a && a[n..] == []
  {
  }

  lemma FirstAndMore<T>(a: seq<T>, n: nat)
    requires n < |a|
    ensures a[..n + 1] == [a[0]] + a[1..][..n]
  {
  }

  lemma FirstAndRest<T>(a: seq<T>)
    requires a != []
    ensures a == [a[0]] + a[1..]
  {
  }

  lemma SplitConcat<T>(a: seq<T>, b: seq<T>)
    ensures (a + b)[..|a|] == a && (a + b)[|a|..] == b
  {
  }
}
