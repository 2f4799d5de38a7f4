/** Sequences without repetition, places in sequences and sizes of sets. */
module Sequences {

  ghost predicate Distinct<T>(s: seq<T>) {
    forall i, j :: 0 <= i < j < |s| ==> s[i] != s[j]
  }

  ghost function Position<T>(s: seq<T>, x: T): (i: nat)
    requires x in s
    ensures i < |s| && s[i] == x
  {
    var i :| 0 <= i < |s| && s[i] == x;
    i
  }

  ghost function Without<T>(s: seq<T>, i: int): seq<T>
    requires 0 <= i < |s|
  {
    s[..i] + s[i + 1..]
  }

  lemma WithoutElements<T>(s: seq<T>, i: int)
    requires 0 <= i < |s| && Distinct(s)
    ensures Distinct(Without(s, i)) && |Without(s, i)| == |s| - 1
    ensures forall x :: x in Without(s, i) <==> x in s && x != s[i]
  {
    var t := Without(s, i);
    forall x | x in s && x != s[i] ensures x in t {
      var j :| 0 <= j < |s| && s[j] == x;
      assert t[if j < i then j else j - 1] == x;
    }
  }

  lemma SubsetSize<T>(s: set<T>, t: set<T>)
    requires forall x :: x in s ==> x in t
    ensures |s| <= |t| && (|s| == |t| <==> forall x :: x in t ==> x in s)
  {
    assert t == s + (t - s);
    if forall x :: x in t ==> x in s { assert s == t; }
  }
}
