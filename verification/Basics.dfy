/** Vocabulary every part shares. */
module Basics {

  type Byte = b: nat | b < 256

  datatype Option<+T> = None | Some(value: T)

  lemma SubsetCount<T>(a: set<T>, b: set<T>)
    requires a <= b
    ensures |a| <= |b|
  {
    assert b == a + (b - a);
  }

  lemma Regroup<T>(a: seq<T>, b: seq<T>, c: seq<T>)
    ensures a + (b + c) == (a + b) + c
  {
  }

  /** Parts one after another. */
  ghost function Concat<T>(parts: seq<seq<T>>): seq<T> {
    if parts == [] then [] else parts[0] + Concat(parts[1..])
  }

  /** Every index moved up by one. */
  ghost function Later(js: seq<nat>): (r: seq<nat>)
    ensures |r| == |js| && forall i :: 0 <= i < |js| ==> r[i] == js[i] + 1
    ensures forall k :: k in r <==> k > 0 && k - 1 in js
  {
    if js == [] then [] else
      assert js == [js[0]] + js[1..];
      [js[0] + 1] + Later(js[1..])
  }
}
