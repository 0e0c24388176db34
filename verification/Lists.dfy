/** Lists without repetition, and those told apart by a key. */
module Lists {

  ghost predicate Distinct<T(!new)>(s: seq<T>) {
    forall i, j :: 0 <= i < j < |s| ==> s[i] != s[j]
  }

  /** An element that stands before too. */
  predicate RepeatsAt<T(==)>(s: seq<T>, i: nat)
    requires i < |s|
  {
    s[i] in s[..i]
  }

  predicate Repeats<T(==)>(s: seq<T>) {
    exists i :: 0 <= i < |s| && RepeatsAt(s, i)
  }

  lemma NoRepeats<T(!new)>(s: seq<T>)
    ensures Repeats(s) <==> !Distinct(s)
  {
    if !Repeats(s) {
      forall a, b | 0 <= a < b < |s| ensures s[a] != s[b] {
        assert !RepeatsAt(s, b);
        assert s[..b][a] == s[a];
      }
    } else {
      var i :| 0 <= i < |s| && RepeatsAt(s, i);
      var k :| 0 <= k < i && s[k] == s[i];
    }
  }

  /** No two elements have the same key. */
  ghost predicate DistinctBy<T, K(!new)>(key: T -> K, s: seq<T>) {
    forall i, j :: 0 <= i < j < |s| ==> key(s[i]) != key(s[j])
  }

  /** `[...new Set(xs)]`: the distinct elements of a list, each where it first appears. */
  function Uniq<T(==)>(xs: seq<T>): seq<T> {
    if xs == [] then []
    else
      var rest := Uniq(xs[..|xs| - 1]);
      if xs[|xs| - 1] in rest then rest else rest + [xs[|xs| - 1]]
  }

  lemma {:induction false} UniqMembers<T>(xs: seq<T>)
    ensures forall x :: x in Uniq(xs) <==> x in xs
    ensures forall i, j :: 0 <= i < j < |Uniq(xs)| ==> Uniq(xs)[i] != Uniq(xs)[j]
  {
    if xs != [] {
      UniqMembers(xs[..|xs| - 1]);
      assert xs == xs[..|xs| - 1] + [xs[|xs| - 1]];
    }
  }

  /** Removing duplicates of a part first changes nothing. */
  lemma {:induction false} UniqAbsorbs<T>(xs: seq<T>, ys: seq<T>)
    ensures Uniq(Uniq(xs) + ys) == Uniq(xs + ys)
    decreases |ys|
  {
    if ys == [] {
      assert xs + ys == xs && Uniq(xs) + ys == Uniq(xs);
      UniqIdempotent(xs);
    } else {
      var front, last := ys[..|ys| - 1], ys[|ys| - 1];
      UniqAbsorbs(xs, front);
      assert (xs + ys)[..|xs + ys| - 1] == xs + front;
      assert (Uniq(xs) + ys)[..|Uniq(xs) + ys| - 1] == Uniq(xs) + front;
    }
  }

  lemma {:induction false} UniqIdempotent<T>(xs: seq<T>)
    ensures Uniq(Uniq(xs)) == Uniq(xs)
  {
    if xs != [] {
      UniqIdempotent(xs[..|xs| - 1]);
      UniqMembers(xs[..|xs| - 1]);
      var rest := Uniq(xs[..|xs| - 1]);
      var last := xs[|xs| - 1];
      if last !in rest {
        assert (rest + [last])[..|rest|] == rest;
      }
    }
  }

  /** Removing duplicates of the tail first changes nothing either. */
  lemma {:induction false} UniqAbsorbsTail<T>(xs: seq<T>, ys: seq<T>)
    ensures Uniq(xs + Uniq(ys)) == Uniq(xs + ys)
    decreases |ys|
  {
    if ys != [] {
      var front, last := ys[..|ys| - 1], ys[|ys| - 1];
      UniqAbsorbsTail(xs, front);
      UniqMembers(front);
      UniqMembers(xs + front);
      assert (xs + ys)[..|xs + ys| - 1] == xs + front;
      if last in Uniq(front) {
        assert last in xs + front;
      } else {
        var u := xs + Uniq(ys);
        assert u[..|u| - 1] == xs + Uniq(front);
      }
    }
  }

  lemma {:induction false} UniqConstant<T>(xs: seq<T>, x: T)
    requires xs != [] && forall i :: 0 <= i < |xs| ==> xs[i] == x
    ensures Uniq(xs) == [x]
  {
    if |xs| == 1 {
      assert Uniq(xs[..0]) == [];
    } else {
      UniqConstant(xs[..|xs| - 1], x);
    }
  }
}
