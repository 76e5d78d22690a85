/** Generic sequence operations the loops of the source are built from. */
module Seqs {
  import opened Wrappers

  /** `[f(x) for x in xs]`. */
  function Map<A, B>(xs: seq<A>, f: A -> B): (ys: seq<B>)
    ensures |ys| == |xs|
    ensures forall i :: 0 <= i < |xs| ==> ys[i] == f(xs[i])
  {
    seq(|xs|, i requires 0 <= i < |xs| => f(xs[i]))
  }

  /** A loop that appends `f(x)` for every `x` where it is present, in order. */
  function Collect<A, B>(xs: seq<A>, f: A -> Option<B>): (ys: seq<B>)
    ensures |ys| <= |xs|
    ensures forall k :: 0 <= k < |ys| ==> exists i :: 0 <= i < |xs| && f(xs[i]) == Some(ys[k])
  {
    if |xs| == 0 then []
    else
      var earlier := Collect(xs[..|xs| - 1], f);
      match f(xs[|xs| - 1])
      case None => earlier
      case Some(y) => earlier + [y]
  }

  /** Collecting over a concatenation collects over each part, in order. */
  lemma {:induction false} CollectAppend<A, B>(xs: seq<A>, zs: seq<A>, f: A -> Option<B>)
    ensures Collect(xs + zs, f) == Collect(xs, f) + Collect(zs, f)
    decreases |zs|
  {
    if |zs| == 0 {
      assert xs + zs == xs;
    } else {
      var all := xs + zs;
      var front := zs[..|zs| - 1];
      assert all[..|all| - 1] == xs + front;
      assert all[|all| - 1] == zs[|zs| - 1];
      CollectAppend(xs, front, f);
    }
  }

  /** One element contributes its value or nothing. */
  lemma CollectSingle<A, B>(x: A, f: A -> Option<B>)
    ensures Collect([x], f) == if f(x).Some? then [f(x).value] else []
  {
    assert [x][..0] == [];
  }

  /** Every element whose value is present contributes it. */
  lemma {:induction false} CollectComplete<A, B>(xs: seq<A>, f: A -> Option<B>, i: int)
    requires 0 <= i < |xs| && f(xs[i]).Some?
    ensures f(xs[i]).value in Collect(xs, f)
    decreases |xs|
  {
    if i < |xs| - 1 {
      assert xs[..|xs| - 1][i] == xs[i];
      CollectComplete(xs[..|xs| - 1], f, i);
    }
  }

  /** A loop that extends its accumulator by `f(x)` for every `x`, in order. */
  function Flatten<A, B>(xs: seq<A>, f: A -> seq<B>): (ys: seq<B>)
  {
    if |xs| == 0 then [] else Flatten(xs[..|xs| - 1], f) + f(xs[|xs| - 1])
  }

  /** Flattening a concatenation flattens each part, in order. */
  lemma {:induction false} FlattenAppend<A, B>(xs: seq<A>, zs: seq<A>, f: A -> seq<B>)
    ensures Flatten(xs + zs, f) == Flatten(xs, f) + Flatten(zs, f)
    decreases |zs|
  {
    if |zs| == 0 {
      assert xs + zs == xs;
    } else {
      var all := xs + zs;
      var front := zs[..|zs| - 1];
      assert all[..|all| - 1] == xs + front;
      assert all[|all| - 1] == zs[|zs| - 1];
      FlattenAppend(xs, front, f);
    }
  }

  /** Every element of a flattening comes from the part of some element. */
  lemma {:induction false} FlattenMember<A, B>(xs: seq<A>, f: A -> seq<B>, y: B)
    requires y in Flatten(xs, f)
    ensures exists i :: 0 <= i < |xs| && y in f(xs[i])
    decreases |xs|
  {
    var front := xs[..|xs| - 1];
    if y in Flatten(front, f) {
      FlattenMember(front, f, y);
      var i :| 0 <= i < |front| && y in f(front[i]);
      assert front[i] == xs[i];
    } else {
      assert y in f(xs[|xs| - 1]);
    }
  }

  /** Flattening a non-empty sequence starts with its head's part. */
  lemma {:induction false} FlattenCons<A, B>(xs: seq<A>, f: A -> seq<B>)
    requires |xs| > 0
    ensures Flatten(xs, f) == f(xs[0]) + Flatten(xs[1..], f)
  {
    assert xs == [xs[0]] + xs[1..];
    FlattenAppend([xs[0]], xs[1..], f);
    assert [xs[0]][..0] == [];
  }

  /** Some element of `xs` satisfies `p`. */
  predicate Exists<A>(xs: seq<A>, p: A -> bool) {
    exists i :: 0 <= i < |xs| && p(xs[i])
  }

  /** Some element satisfies `p` exactly when an earlier one or the last one does. */
  lemma ExistsSnoc<A>(xs: seq<A>, p: A -> bool)
    requires |xs| > 0
    ensures Exists(xs, p) <==> Exists(xs[..|xs| - 1], p) || p(xs[|xs| - 1])
  {
    var front := xs[..|xs| - 1];
    if Exists(xs, p) {
      var i :| 0 <= i < |xs| && p(xs[i]);
      if i < |front| {
        assert front[i] == xs[i];
      }
    }
    if Exists(front, p) {
      var i :| 0 <= i < |front| && p(front[i]);
      assert xs[i] == front[i];
    }
  }
}
