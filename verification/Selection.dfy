/** Picking elements of a sequence by their positions. */
module Selection {

  /** `ys` are the elements of `xs` at the positions `at`, which increase. */
  ghost predicate Selects<T>(xs: seq<T>, at: seq<nat>, ys: seq<T>) {
    && |at| == |ys|
    && (forall j | 0 <= j < |at| :: at[j] < |xs| && ys[j] == xs[at[j]])
    && (forall j, k | 0 <= j < k < |at| :: at[j] < at[k])
  }

  /** One more element at the end, picked or passed over. */
  lemma SelectsNext<T>(xs: seq<T>, at: seq<nat>, ys: seq<T>, x: T)
    requires Selects(xs, at, ys)
    ensures Selects(xs + [x], at, ys) && Selects(xs + [x], at + [|xs|], ys + [x])
    ensures forall i: nat :: i in at + [|xs|] <==> i in at || i == |xs|
    ensures |xs| !in at
  {
  }

  /** What is picked is determined by which positions are. */
  lemma {:induction false} SelectsOnce<T>(xs: seq<T>, at: seq<nat>, ys: seq<T>, at': seq<nat>, ys': seq<T>)
    requires Selects(xs, at, ys) && Selects(xs, at', ys') && forall i: nat :: i in at <==> i in at'
    ensures at == at' && ys == ys'
    decreases |at|
  {
    if at == [] {
      SomePosition(at');
    } else {
      assert at[|at| - 1] in at';
      var n, m := |at| - 1, |at'| - 1;
      LastPosition(xs, at, ys, at', ys');
      LastPosition(xs, at', ys', at, ys);
      InitSelects(xs, at, ys);
      InitSelects(xs, at', ys');
      assert at[n] == at'[m];
      forall i: nat ensures i in at[..n] <==> i in at'[..m] {
        assert i in at[..n] <==> i in at && i != at[n];
        assert i in at'[..m] <==> i in at' && i != at'[m];
      }
      SelectsOnce(xs, at[..n], ys[..n], at'[..m], ys'[..m]);
      InitLast(at);
      InitLast(at');
      InitLast(ys);
      InitLast(ys');
    }
  }

  lemma InitLast<T>(s: seq<T>)
    requires s != []
    ensures s == s[..|s| - 1] + [s[|s| - 1]]
  {
  }

  lemma SomePosition(at: seq<nat>)
    ensures at != [] ==> exists i: nat :: i in at
  {
    if at != [] { assert at[0] in at; }
  }

  lemma LastPosition<T>(xs: seq<T>, at: seq<nat>, ys: seq<T>, at': seq<nat>, ys': seq<T>)
    requires Selects(xs, at, ys) && Selects(xs, at', ys') && at != [] && at' != []
    requires forall i: nat :: i in at <==> i in at'
    ensures at[|at| - 1] <= at'[|at'| - 1]
  {
    assert at[|at| - 1] in at';
    var k :| 0 <= k < |at'| && at'[k] == at[|at| - 1];
  }

  lemma InitSelects<T>(xs: seq<T>, at: seq<nat>, ys: seq<T>)
    requires Selects(xs, at, ys) && at != []
    ensures Selects(xs, at[..|at| - 1], ys[..|ys| - 1])
    ensures forall i: nat :: i in at[..|at| - 1] <==> i in at && i != at[|at| - 1]
  {
    forall i: nat ensures i in at[..|at| - 1] <==> i in at && i != at[|at| - 1] {
      if i in at && i != at[|at| - 1] {
        var k :| 0 <= k < |at| && at[k] == i;
        assert at[..|at| - 1][k] == i;
      }
    }
  }
}
