/** What several of the modules need: optional values, sequences without repeats,
    the elements of a sequence. */
module Collections {

  datatype Option<T> = None | Some(value: T)

  ghost predicate Distinct<T>(xs: seq<T>) {
    forall i, j :: 0 <= i < j < |xs| ==> xs[i] != xs[j]
  }

  ghost function Elements<T>(xs: seq<T>): set<T> {
    set x | x in xs
  }

  lemma TailFrom<T>(xs: seq<T>, i: nat)
    requires i < |xs|
    ensures xs[i..] != [] && xs[i..][0] == xs[i] && xs[i..][1..] == xs[i + 1..]
  {
  }

  lemma Regroup<T>(xs: seq<T>, ys: seq<T>, zs: seq<T>)
    ensures xs + (ys + zs) == (xs + ys) + zs
  {
  }

  lemma SubsetSize<T>(a: set<T>, b: set<T>)
    requires a <= b
    ensures |a| <= |b|
  {
    assert a + (b - a) == b;
  }

  /** A sequence has at most as many elements as places, and as many exactly when
      it repeats none. */
  lemma {:induction false} ElementCount<T>(xs: seq<T>)
    ensures |Elements(xs)| <= |xs|
    ensures Distinct(xs) <==> |Elements(xs)| == |xs|
  {
    if xs != [] {
      ElementCount(xs[1..]);
      assert Elements(xs) == Elements(xs[1..]) + {xs[0]};
      if xs[0] in xs[1..] {
        assert Elements(xs) == Elements(xs[1..]);
        var j :| 0 <= j < |xs[1..]| && xs[1..][j] == xs[0];
        assert xs[0] == xs[j + 1];
      }
    }
  }
}
