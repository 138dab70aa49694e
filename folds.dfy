/**
 * The two list shapes the loaders' loops produce: a loop that stops at the
 * first exception (Run), and a loop that keeps only the items a
 * Try-method returned (Somes).
 */
module Folds {
  import opened Common

  /** The present items, in order. */
  function Somes<T>(xs: seq<Option<T>>): seq<T> {
    if |xs| == 0 then []
    else Somes(xs[..|xs| - 1]) + (if xs[|xs| - 1].Some? then [xs[|xs| - 1].value] else [])
  }

  /** The indices of the present items, in increasing order. */
  function SomeIndices<T>(xs: seq<Option<T>>): seq<nat> {
    if |xs| == 0 then []
    else SomeIndices(xs[..|xs| - 1]) + (if xs[|xs| - 1].Some? then [|xs| - 1] else [])
  }

  lemma SomesAppend<T>(xs: seq<Option<T>>, x: Option<T>)
    ensures Somes(xs + [x]) == Somes(xs) + (if x.Some? then [x.value] else [])
  {
    assert (xs + [x])[..|xs|] == xs;
  }

  /**
   * Somes keeps exactly the present items, in their order: item i of the
   * result is the i-th present item, the indices of the present items are
   * strictly increasing, and an index is among them exactly when its item
   * is present.
   */
  lemma {:induction false} SomesInOrder<T>(xs: seq<Option<T>>)
    ensures |Somes(xs)| == |SomeIndices(xs)|
    ensures forall i :: 0 <= i < |SomeIndices(xs)| ==>
      SomeIndices(xs)[i] < |xs| && xs[SomeIndices(xs)[i]] == Some(Somes(xs)[i])
    ensures forall i, j :: 0 <= i < j < |SomeIndices(xs)| ==> SomeIndices(xs)[i] < SomeIndices(xs)[j]
    ensures forall k :: 0 <= k < |xs| ==> (xs[k].Some? <==> k in SomeIndices(xs))
  {
    if |xs| > 0 {
      var n := |xs| - 1;
      var init := xs[..n];
      SomesInOrder(init);
      var items, indices := Somes(init), SomeIndices(init);
      var tail, tailIndices := if xs[n].Some? then [xs[n].value] else [], if xs[n].Some? then [n] else [];
      assert Somes(xs) == items + tail;
      assert SomeIndices(xs) == indices + tailIndices;
      forall i | 0 <= i < |indices|
        ensures indices[i] < n && xs[indices[i]] == Some(items[i])
      {
        assert xs[indices[i]] == init[indices[i]];
      }
      forall k | 0 <= k < n
        ensures xs[k].Some? <==> k in SomeIndices(xs)
      {
        assert xs[k] == init[k];
        assert k in SomeIndices(xs) <==> k in indices;
      }
    }
  }

  // ----- Loops that stop at the first exception -----

  /** The step is defined wherever `ready` holds. */
  ghost predicate Covers<T>(ready: nat -> bool, step: nat --> Result<T>) {
    forall j :: ready(j) ==> step.requires(j)
  }

  /**
   * Step k of a loop is reached only while steps 0 .. k-1 succeeded; a
   * reached step must be ready.
   */
  ghost predicate Reached<T>(ready: nat -> bool, step: nat --> Result<T>, k: nat)
    decreases k, 0
  {
    Covers(ready, step)
    && (k == 0 || (Reached(ready, step, k - 1) && (Run(ready, step, k - 1).Success? ==> ready(k - 1))))
  }

  /**
   * The outcome of a loop over steps 0 .. k-1 that stops at the first
   * exception: that exception, or every step's value in order.
   */
  function Run<T>(ghost ready: nat -> bool, step: nat --> Result<T>, k: nat): (r: Result<seq<T>>)
    requires Reached(ready, step, k)
    ensures r.Success? ==> |r.value| == k && forall i :: 0 <= i < k ==> ready(i) && step(i) == Success(r.value[i])
    decreases k, 1
  {
    if k == 0 then Success([])
    else
      var prev :- Run(ready, step, k - 1);
      var last :- step(k - 1);
      Success(prev + [last])
  }

  /** The present items of a loop over Try-steps that stops at the first exception. */
  function RunSomes<T>(ghost ready: nat -> bool, step: nat --> Result<Option<T>>, k: nat): Result<seq<T>>
    requires Reached(ready, step, k)
  {
    var results :- Run(ready, step, k);
    Success(Somes(results))
  }

  /**
   * A successful loop over Try-steps ran every step, and keeps exactly the
   * present items in step order: the kept step indices are strictly
   * increasing, a step is kept exactly when its item is present, and item
   * i is the item of the i-th kept step.
   */
  lemma RunSomesInOrder<T>(ready: nat -> bool, step: nat --> Result<Option<T>>, k: nat)
    requires Reached(ready, step, k) && RunSomes(ready, step, k).Success?
    ensures Run(ready, step, k).Success?
    ensures var xs := Run(ready, step, k).value;
      var kept := SomeIndices(xs);
      var items := RunSomes(ready, step, k).value;
      |items| == |kept|
      && (forall i, i' :: 0 <= i < i' < |kept| ==> kept[i] < kept[i'])
      && (forall j :: 0 <= j < k ==> ready(j) && step(j) == Success(xs[j]) && (j in kept <==> xs[j].Some?))
      && (forall i :: 0 <= i < |kept| ==> kept[i] < k && step(kept[i]) == Success(Some(items[i])))
  {
    var xs := Run(ready, step, k).value;
    SomesInOrder(xs);
    var kept, items := SomeIndices(xs), Somes(xs);
    assert RunSomes(ready, step, k).value == items;
    forall i | 0 <= i < |kept|
      ensures kept[i] < k && step(kept[i]) == Success(Some(items[i]))
    {
      assert xs[kept[i]] == Some(items[i]);
    }
  }

  lemma {:induction false} ReachedPrefix<T>(ready: nat -> bool, step: nat --> Result<T>, m: nat, k: nat)
    requires m <= k && Reached(ready, step, k)
    ensures Reached(ready, step, m)
    decreases k - m
  {
    if m < k {
      ReachedPrefix(ready, step, m, k - 1);
    }
  }

  /** One more iteration: a reached step either fails the loop or appends its value. */
  lemma RunStep<T>(ready: nat -> bool, step: nat --> Result<T>, k: nat)
    requires Reached(ready, step, k + 1) && Run(ready, step, k).Success?
    ensures Reached(ready, step, k) && ready(k) && step.requires(k)
    ensures Run(ready, step, k + 1) == (if step(k).Failure? then Failure(step(k).error)
                                        else Success(Run(ready, step, k).value + [step(k).value]))
  {
  }

  /** Once a loop has failed, later iterations are never run: a longer loop has the same outcome. */
  lemma {:induction false} RunStops<T>(ready: nat -> bool, step: nat --> Result<T>, m: nat, k: nat)
    requires m <= k && Reached(ready, step, k) && Reached(ready, step, m)
    requires Run(ready, step, m).Failure?
    ensures Run(ready, step, k) == Run(ready, step, m)
    decreases k - m
  {
    if m < k {
      ReachedPrefix(ready, step, k - 1, k);
      RunStops(ready, step, m, k - 1);
    }
  }

  /** A loop whose steps are all ready and all succeed succeeds. */
  lemma {:induction false} RunAllSucceed<T>(ready: nat -> bool, step: nat --> Result<T>, k: nat)
    requires Reached(ready, step, k)
    requires forall i :: 0 <= i < k ==> ready(i)
    requires forall i :: 0 <= i < k ==> step(i).Success?
    ensures Run(ready, step, k).Success?
  {
    if k > 0 {
      ReachedPrefix(ready, step, k - 1, k);
      RunAllSucceed(ready, step, k - 1);
    }
  }

  /** A loop whose step j is the first to fail reports step j's exception. */
  lemma RunFailure<T>(ready: nat -> bool, step: nat --> Result<T>, k: nat, j: nat)
    requires Reached(ready, step, k) && j < k
    requires forall i :: 0 <= i <= j ==> ready(i)
    requires (forall i :: 0 <= i < j ==> step(i).Success?) && step(j).Failure?
    ensures Run(ready, step, k) == Failure(step(j).error)
  {
    ReachedPrefix(ready, step, j, k);
    ReachedPrefix(ready, step, j + 1, k);
    RunAllSucceed(ready, step, j);
    RunStops(ready, step, j + 1, k);
  }

  /** A successful loop's first k iterations succeed too, with the first k values. */
  lemma {:induction false} RunPrefix<T>(ready: nat -> bool, step: nat --> Result<T>, k: nat, n: nat)
    requires k <= n && Reached(ready, step, n) && Run(ready, step, n).Success?
    ensures Reached(ready, step, k) && Run(ready, step, k).Success?
    ensures Run(ready, step, k).value == Run(ready, step, n).value[..k]
    decreases n - k
  {
    ReachedPrefix(ready, step, k, n);
    if k < n {
      RunPrefix(ready, step, k + 1, n);
      assert Run(ready, step, k + 1).value[..k] == Run(ready, step, n).value[..k];
    }
  }

  // ----- Loops that append a block per step and stop at the first exception -----

  /** The blocks one after the other. */
  function Joined<T>(blocks: seq<seq<T>>): seq<T> {
    if |blocks| == 0 then [] else Joined(blocks[..|blocks| - 1]) + blocks[|blocks| - 1]
  }

  /** The first m blocks, joined, open the join of all of them. */
  lemma {:induction false} JoinedPrefix<T>(blocks: seq<seq<T>>, m: nat)
    requires m <= |blocks|
    ensures |Joined(blocks[..m])| <= |Joined(blocks)|
    ensures Joined(blocks)[..|Joined(blocks[..m])|] == Joined(blocks[..m])
    decreases |blocks|
  {
    if m < |blocks| {
      var init := blocks[..|blocks| - 1];
      JoinedPrefix(init, m);
      assert init[..m] == blocks[..m];
    } else {
      assert blocks[..m] == blocks;
    }
  }

  /** The outcome of a loop over steps 0 .. k-1 that appends each step's block: the first exception, or the joined blocks. */
  function RunJoined<T>(ghost ready: nat -> bool, step: nat --> Result<seq<T>>, k: nat): Result<seq<T>>
    requires Reached(ready, step, k)
  {
    var blocks :- Run(ready, step, k);
    Success(Joined(blocks))
  }

  /** One more successful iteration appends its block. */
  lemma RunJoinedStep<T>(ready: nat -> bool, step: nat --> Result<seq<T>>, j: nat)
    requires Reached(ready, step, j + 1) && Run(ready, step, j + 1).Success?
    ensures Reached(ready, step, j) && Run(ready, step, j).Success?
    ensures ready(j) && step.requires(j) && step(j).Success?
    ensures RunJoined(ready, step, j + 1).value == RunJoined(ready, step, j).value + step(j).value
  {
    RunPrefix(ready, step, j, j + 1);
    RunStep(ready, step, j);
    var upTo := Run(ready, step, j + 1).value;
    assert upTo[..j] == Run(ready, step, j).value;
  }

  /**
   * A successful loop ran every step, and step j's block follows the blocks
   * of steps 0 .. j-1: the join of the first j blocks, then that block,
   * opens the output.
   */
  lemma {:induction false} RunJoinedBlocks<T>(ready: nat -> bool, step: nat --> Result<seq<T>>, n: nat, j: nat)
    requires Reached(ready, step, n) && RunJoined(ready, step, n).Success? && j < n
    ensures Reached(ready, step, j) && RunJoined(ready, step, j).Success?
    ensures ready(j) && step.requires(j) && step(j).Success?
    ensures var before, block := RunJoined(ready, step, j).value, step(j).value;
      |before| + |block| <= |RunJoined(ready, step, n).value|
      && RunJoined(ready, step, n).value[..|before| + |block|] == before + block
  {
    var blocks := Run(ready, step, n).value;
    RunPrefix(ready, step, j + 1, n);
    RunJoinedStep(ready, step, j);
    JoinedPrefix(blocks, j + 1);
    var all, upTo := Joined(blocks), Joined(blocks[..j + 1]);
    assert RunJoined(ready, step, n).value == all;
    assert RunJoined(ready, step, j + 1).value == upTo;
    assert all[..|upTo|] == upTo;
  }

  /** A run that succeeds begins with the block of step 0. */
  lemma {:induction false} RunJoinedFirst<T>(ready: nat -> bool, step: nat --> Result<seq<T>>, n: nat)
    requires Reached(ready, step, n) && RunJoined(ready, step, n).Success? && 0 < n
    ensures ready(0) && step.requires(0) && step(0).Success?
    ensures |step(0).value| <= |RunJoined(ready, step, n).value|
      && RunJoined(ready, step, n).value[..|step(0).value|] == step(0).value
  {
    RunJoinedBlocks(ready, step, n, 0);
    assert Run(ready, step, 0) == Success([]);
    assert RunJoined(ready, step, 0).value == [];
    assert [] + step(0).value == step(0).value;
  }

  // ----- Dictionaries keyed by position -----

  /** The present values of steps 0 .. n-1, each under its step. */
  function PresentBelow<T>(f: int --> Option<T>, n: int): map<int, T>
    requires forall s :: 0 <= s < n ==> f.requires(s)
    decreases n
  {
    if n <= 0 then map[]
    else
      var prev := PresentBelow(f, n - 1);
      if f(n - 1).Some? then prev[n - 1 := f(n - 1).value] else prev
  }

  /** Step t is a key exactly when t < n and its value is present, and then it holds that value. */
  lemma {:induction false} PresentBelowAt<T>(f: int --> Option<T>, n: int, t: int)
    requires forall s :: 0 <= s < n ==> f.requires(s)
    ensures t in PresentBelow(f, n) <==> 0 <= t < n && f(t).Some?
    ensures t in PresentBelow(f, n) ==> PresentBelow(f, n)[t] == f(t).value
    decreases n
  {
    if n > 0 {
      PresentBelowAt(f, n - 1, t);
    }
  }

  /** The dictionary that maps each index of `xs` to its item. */
  function IndexMap<T>(xs: seq<T>): (m: map<int, T>)
    ensures forall i :: i in m <==> 0 <= i < |xs|
    ensures forall i :: 0 <= i < |xs| ==> m[i] == xs[i]
  {
    map i | 0 <= i < |xs| :: xs[i]
  }

  lemma IndexMapAppend<T>(xs: seq<T>, x: T)
    ensures IndexMap(xs + [x]) == IndexMap(xs)[|xs| := x]
  {
  }

  /** Merging into an empty dictionary copies the other one. */
  lemma EmptyUnion<K, V>(b: map<K, V>)
    ensures map[] + b == b
  {
  }
}
