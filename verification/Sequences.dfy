/** Facts about sequences: without repetitions, and inside one another. */
module Sequences {

  lemma {:induction false} DistinctFitsIn<T>(xs: seq<T>, ys: seq<T>)
    requires forall i, j :: 0 <= i < j < |xs| ==> xs[i] != xs[j]
    requires forall i :: 0 <= i < |xs| ==> xs[i] in ys
    ensures |xs| <= |ys|
  {
    if xs == [] {
    } else {
      var k :| 0 <= k < |ys| && ys[k] == xs[0];
      var rest := ys[..k] + ys[k + 1..];
      forall i | 0 <= i < |xs[1..]| ensures xs[1..][i] in rest {
        var j :| 0 <= j < |ys| && ys[j] == xs[i + 1];
        assert if j < k then rest[j] == ys[j] else rest[j - 1] == ys[j];
      }
      DistinctFitsIn(xs[1..], rest);
    }
  }

  lemma DistinctLeavesRoom<T>(xs: seq<T>, ys: seq<T>, extra: T)
    requires forall i, j :: 0 <= i < j < |xs| ==> xs[i] != xs[j]
    requires forall i :: 0 <= i < |xs| ==> xs[i] in ys
    requires extra in ys && extra !in xs
    ensures |xs| < |ys|
  {
    DistinctFitsIn(xs + [extra], ys);
  }

  // `part` stands in `whole` from `i` on.
  ghost predicate At<T>(whole: seq<T>, i: nat, part: seq<T>) {
    i + |part| <= |whole| && forall k :: 0 <= k < |part| ==> whole[i + k] == part[k]
  }

  lemma AtFirst<T>(whole: seq<T>, i: nat, part: seq<T>)
    requires At(whole, i, part) && part != []
    ensures i < |whole| && whole[i] == part[0]
  {
    assert whole[i + 0] == part[0];
  }

  lemma AtSlice<T>(whole: seq<T>, i: nat, part: seq<T>)
    ensures At(whole, i, part) <==> i + |part| <= |whole| && whole[i..i + |part|] == part
  {
    if i + |part| <= |whole| && whole[i..i + |part|] == part {
      forall k | 0 <= k < |part| ensures whole[i + k] == part[k] {
        assert whole[i..i + |part|][k] == part[k];
      }
    }
  }

  lemma AtSplit<T>(whole: seq<T>, i: nat, a: seq<T>, b: seq<T>)
    requires At(whole, i, a + b)
    ensures At(whole, i, a) && At(whole, i + |a|, b)
    ensures a != [] ==> whole[i] == a[0]
  {
    forall k | 0 <= k < |a| ensures whole[i + k] == a[k] {
      assert (a + b)[k] == a[k];
    }
    forall k | 0 <= k < |b| ensures whole[i + |a| + k] == b[k] {
      assert (a + b)[|a| + k] == b[k];
    }
    assert a != [] ==> whole[i + 0] == a[0];
  }

  // A first element, then two more parts.
  lemma AtParts<T>(whole: seq<T>, i: nat, all: seq<T>, first: T, a: seq<T>, b: seq<T>)
    requires At(whole, i, all) && all == [first] + a + b
    ensures i < |whole| && whole[i] == first
    ensures At(whole, i + 1, a) && At(whole, i + 1 + |a|, b)
    ensures |all| == 1 + |a| + |b|
  {
    AtSplit(whole, i, [first] + a, b);
    AtSplit(whole, i, [first], a);
  }

  lemma AtJoin<T>(whole: seq<T>, i: nat, a: seq<T>, b: seq<T>)
    requires At(whole, i, a) && At(whole, i + |a|, b)
    ensures At(whole, i, a + b)
  {
    forall k | 0 <= k < |a + b| ensures whole[i + k] == (a + b)[k] {
      assert k >= |a| ==> whole[i + |a| + (k - |a|)] == b[k - |a|];
    }
  }
}
