/** Sums of integer weights over finite sets. */
module SetSums {

  ghost predicate Covers(s: set<int>, w: map<int, int>) {
    forall x :: x in s ==> x in w
  }

  lemma HasElement(s: set<int>)
    requires s != {}
    ensures exists x :: x in s
  {
    if forall x :: x !in s {
      assert false;
    }
  }

  ghost function Sum(s: set<int>, w: map<int, int>): int
    requires Covers(s, w)
  {
    if s == {} then 0 else
      HasElement(s);
      var x :| x in s;
      w[x] + Sum(s - {x}, w)
  }

  /** The sum does not depend on the order in which elements are taken. */
  lemma {:induction false} SumRemove(s: set<int>, w: map<int, int>, x: int)
    requires Covers(s, w) && x in s
    ensures Sum(s, w) == w[x] + Sum(s - {x}, w)
    decreases s
  {
    HasElement(s);
    var y :| y in s && Sum(s, w) == w[y] + Sum(s - {y}, w);
    if y != x {
      SumRemove(s - {y}, w, x);
      SumRemove(s - {x}, w, y);
      assert s - {y} - {x} == s - {x} - {y};
    }
  }

  lemma SumAdd(s: set<int>, w: map<int, int>, x: int)
    requires Covers(s, w) && x in w && x !in s
    ensures Sum(s + {x}, w) == w[x] + Sum(s, w)
  {
    SumRemove(s + {x}, w, x);
    assert s + {x} - {x} == s;
  }

  /** Weights outside the set do not matter. */
  lemma {:induction false} SumFrame(s: set<int>, w: map<int, int>, v: map<int, int>)
    requires Covers(s, w) && Covers(s, v) && forall x :: x in s ==> v[x] == w[x]
    ensures Sum(s, v) == Sum(s, w)
    decreases s
  {
    if s != {} {
      HasElement(s);
      var x :| x in s;
      SumRemove(s, w, x);
      SumRemove(s, v, x);
      SumFrame(s - {x}, w, v);
    }
  }

  /** If every weight is at least `b`, the sum is at least `b` times the size. */
  lemma {:induction false} SumAtLeast(s: set<int>, w: map<int, int>, b: int)
    requires Covers(s, w) && forall x :: x in s ==> b <= w[x]
    ensures b * |s| <= Sum(s, w)
    decreases s
  {
    if s != {} {
      HasElement(s);
      var x :| x in s;
      SumRemove(s, w, x);
      SumAtLeast(s - {x}, w, b);
      assert |s - {x}| == |s| - 1;
      assert b * |s| == b * |s - {x}| + b;
    }
  }
}
