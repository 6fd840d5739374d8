/**
  Maximal runs: a sequence cut into consecutive non-empty pieces of constant
  key, adjacent pieces differing in key. The chart generators read their
  query rows this way, one chart column per run of equal revision.
 */
module Runs {

  /** The pieces laid end to end. */
  function Flatten<T>(runs: seq<seq<T>>): seq<T>
  {
    if runs == [] then [] else Flatten(runs[..|runs| - 1]) + runs[|runs| - 1]
  }

  lemma {:induction false} FlattenFront<T>(runs: seq<seq<T>>)
    requires runs != []
    ensures Flatten(runs) == runs[0] + Flatten(runs[1..])
    decreases |runs|
  {
    var m := |runs|;
    if m > 1 {
      FlattenFront(runs[..m - 1]);
      assert runs[..m - 1][1..] == runs[1..][..m - 2];
      assert runs[..m - 1][0] == runs[0];
      assert runs[1..][m - 2] == runs[m - 1];
    } else {
      assert runs[1..] == [];
      assert runs[..0] == [];
    }
  }

  /** Every piece is non-empty and all its elements share the key of its first. */
  ghost predicate Uniform<T, K>(key: T -> K, runs: seq<seq<T>>)
  {
    forall k :: 0 <= k < |runs| ==>
      runs[k] != [] && forall i :: 0 <= i < |runs[k]| ==> key(runs[k][i]) == key(runs[k][0])
  }

  /** Neighbouring pieces have different keys, so no piece could be longer. */
  ghost predicate Separated<T, K>(key: T -> K, runs: seq<seq<T>>)
    requires Uniform(key, runs)
  {
    forall k :: 0 < k < |runs| ==> key(runs[k][0]) != key(runs[k - 1][0])
  }

  ghost predicate IsRunSplit<T, K>(xs: seq<T>, key: T -> K, runs: seq<seq<T>>)
  {
    Flatten(runs) == xs && Uniform(key, runs) && Separated(key, runs)
  }

  /**
    The maximal runs of `xs` under `key`, built the way a loop over `xs`
    builds them: the next element opens a new run when its key differs from
    that of the element before it, and extends the last run otherwise.
   */
  function Split<T, K(==)>(xs: seq<T>, key: T -> K): (runs: seq<seq<T>>)
    ensures |runs| <= |xs|
    ensures forall k :: 0 <= k < |runs| ==> runs[k] != []
    ensures xs != [] ==> runs != [] && key(runs[|runs| - 1][0]) == key(xs[|xs| - 1])
    ensures xs != [] ==> var last := runs[|runs| - 1]; last[|last| - 1] == xs[|xs| - 1]
  {
    if xs == [] then []
    else
      var init := Split(xs[..|xs| - 1], key);
      var x := xs[|xs| - 1];
      if init == [] || key(x) != key(init[|init| - 1][0]) then init + [[x]]
      else init[..|init| - 1] + [init[|init| - 1] + [x]]
  }

  /** `Split` cuts `xs` into its maximal runs. */
  lemma {:induction false} SplitIsRunSplit<T, K>(xs: seq<T>, key: T -> K)
    ensures IsRunSplit(xs, key, Split(xs, key))
    decreases |xs|
  {
    if xs != [] {
      var front := xs[..|xs| - 1];
      var init := Split(front, key);
      var x := xs[|xs| - 1];
      SplitIsRunSplit(front, key);
      assert xs == front + [x];
      if init == [] || key(x) != key(init[|init| - 1][0]) {
        OpenRun(front, x, key, init);
      } else {
        ExtendRun(front, x, key, init);
      }
    }
  }

  /** An element whose key differs from the last run's starts a run of its own. */
  lemma OpenRun<T, K>(xs: seq<T>, x: T, key: T -> K, runs: seq<seq<T>>)
    requires IsRunSplit(xs, key, runs)
    requires runs == [] || key(x) != key(runs[|runs| - 1][0])
    ensures IsRunSplit(xs + [x], key, runs + [[x]])
  {
    var r := runs + [[x]];
    assert r[..|r| - 1] == runs;
    assert forall k :: 0 <= k < |runs| ==> r[k] == runs[k];
  }

  /** An element with the last run's key lengthens that run. */
  lemma ExtendRun<T, K>(xs: seq<T>, x: T, key: T -> K, runs: seq<seq<T>>)
    requires IsRunSplit(xs, key, runs)
    requires runs != [] && key(x) == key(runs[|runs| - 1][0])
    ensures var m := |runs|; IsRunSplit(xs + [x], key, runs[..m - 1] + [runs[m - 1] + [x]])
  {
    var m := |runs|;
    var last := runs[m - 1] + [x];
    var r := runs[..m - 1] + [last];
    assert r[..m - 1] == runs[..m - 1];
    assert runs == runs[..m - 1] + [runs[m - 1]];
    assert Flatten(runs) == Flatten(runs[..m - 1]) + runs[m - 1];
    assert forall k :: 0 <= k < m - 1 ==> r[k] == runs[k];
    assert forall i :: 0 <= i < |runs[m - 1]| ==> last[i] == runs[m - 1][i];
    assert r[m - 1] == last && last[0] == runs[m - 1][0];
  }

  /** An element whose key differs from its predecessor's opens a new run. */
  lemma SplitOpen<T, K>(xs: seq<T>, x: T, key: T -> K)
    requires xs == [] || key(x) != key(xs[|xs| - 1])
    ensures Split(xs + [x], key) == Split(xs, key) + [[x]]
  {
    assert (xs + [x])[..|xs|] == xs;
  }

  /** An element with its predecessor's key joins the last run. */
  lemma SplitExtend<T, K>(xs: seq<T>, x: T, key: T -> K) returns (front: seq<seq<T>>, last: seq<T>)
    requires xs != [] && key(x) == key(xs[|xs| - 1])
    ensures Split(xs, key) == front + [last]
    ensures Split(xs + [x], key) == front + [last + [x]]
    ensures last != [] && last[|last| - 1] == xs[|xs| - 1]
  {
    var runs := Split(xs, key);
    front, last := runs[..|runs| - 1], runs[|runs| - 1];
    assert runs == front + [last];
    assert (xs + [x])[..|xs|] == xs;
  }

  /** A non-empty sequence whose elements all share one key is a single run. */
  lemma {:induction false} SplitOfConstant<T, K>(xs: seq<T>, key: T -> K)
    requires xs != [] && forall i :: 0 <= i < |xs| ==> key(xs[i]) == key(xs[0])
    ensures Split(xs, key) == [xs]
    decreases |xs|
  {
    var init := xs[..|xs| - 1];
    var x := xs[|xs| - 1];
    assert xs == init + [x];
    if init == [] {
      SplitOpen(init, x, key);
    } else {
      assert forall i :: 0 <= i < |init| ==> init[i] == xs[i];
      SplitOfConstant(init, key);
      var front, last := SplitExtend(init, x, key);
      assert front + [last] == [init];
      assert |front| == 0;
      assert last == init;
    }
  }

  /** A split into maximal runs is unique: it is determined by `xs` and `key`. */
  lemma {:induction false} RunSplitUnique<T, K>(xs: seq<T>, key: T -> K, a: seq<seq<T>>, b: seq<seq<T>>)
    requires IsRunSplit(xs, key, a) && IsRunSplit(xs, key, b)
    ensures a == b
    decreases |xs|
  {
    if a == [] || b == [] {
      if a != [] {
        FlattenFront(a);
      }
      if b != [] {
        FlattenFront(b);
      }
    } else {
      FlattenFront(a);
      FlattenFront(b);
      var n := |a[0]|;
      assert n == |b[0]| by {
        if n < |b[0]| {
          FirstRunMaximal(xs, key, a);
        } else if |b[0]| < n {
          FirstRunMaximal(xs, key, b);
        }
      }
      assert a[0] == xs[..n] == b[0];
      TailIsRunSplit(xs, key, a);
      TailIsRunSplit(xs, key, b);
      RunSplitUnique(xs[n..], key, a[1..], b[1..]);
      assert a == [a[0]] + a[1..];
      assert b == [b[0]] + b[1..];
    }
  }

  /** The element just after the first run, if any, has a different key from the first element. */
  lemma FirstRunMaximal<T, K>(xs: seq<T>, key: T -> K, runs: seq<seq<T>>)
    requires IsRunSplit(xs, key, runs) && runs != []
    ensures |runs[0]| <= |xs|
    ensures |runs[0]| < |xs| ==> key(xs[|runs[0]|]) != key(xs[0])
  {
    FlattenFront(runs);
    if |runs[0]| < |xs| {
      assert |runs| > 1;
      FlattenFront(runs[1..]);
      assert xs[|runs[0]|] == runs[1][0];
      assert xs[0] == runs[0][0];
    }
  }

  lemma TailIsRunSplit<T, K>(xs: seq<T>, key: T -> K, runs: seq<seq<T>>)
    requires IsRunSplit(xs, key, runs) && runs != []
    ensures |runs[0]| <= |xs|
    ensures IsRunSplit(xs[|runs[0]|..], key, runs[1..])
  {
    FlattenFront(runs);
    var rest := runs[1..];
    assert forall k :: 0 <= k < |rest| ==> rest[k] == runs[k + 1];
  }

  /** Every element lies in some run, and within a run it keeps its key. */
  lemma {:induction false} MemberOfSomeRun<T>(runs: seq<seq<T>>, i: int) returns (k: int, j: int)
    requires 0 <= i < |Flatten(runs)|
    ensures 0 <= k < |runs| && 0 <= j < |runs[k]|
    ensures Flatten(runs)[i] == runs[k][j]
    decreases |runs|
  {
    var m := |runs| - 1;
    var front := Flatten(runs[..m]);
    if i < |front| {
      k, j := MemberOfSomeRun(runs[..m], i);
      assert runs[..m][k] == runs[k];
    } else {
      k, j := m, i - |front|;
    }
  }
}
