/**
 * A batch run: a state threaded through one step per item, in order,
 * collecting one result per item. process_uploads and the loop of
 * import_from_directory are both such runs over the store.
 */
module Batch {
  import Seqs

  /** The final state and the results after running `step` over the items in order. */
  function Run<S, U, R>(s: S, items: seq<U>, step: (S, U) -> (S, R)): (out: (S, seq<R>))
    ensures |out.1| == |items|
    decreases |items|
  {
    if items == [] then (s, [])
    else
      var (s', results) := Run(s, items[..|items| - 1], step);
      var (s'', r) := step(s', items[|items| - 1]);
      (s'', results + [r])
  }

  /** One more item continues from where the shorter run left off. */
  lemma RunSnoc<S, U, R>(s: S, items: seq<U>, item: U, step: (S, U) -> (S, R))
    ensures Run(s, items + [item], step).0 == step(Run(s, items, step).0, item).0
    ensures Run(s, items + [item], step).1 == Run(s, items, step).1 + [step(Run(s, items, step).0, item).1]
  {
    assert (items + [item])[..|items|] == items;
  }

  /** The result at position i is the step on item i, in the state the first i items left behind. */
  lemma {:induction false} RunAt<S, U, R>(s: S, items: seq<U>, step: (S, U) -> (S, R), i: nat)
    requires i < |items|
    ensures Run(s, items, step).1[i] == step(Run(s, items[..i], step).0, items[i]).1
    decreases |items|
  {
    var init := items[..|items| - 1];
    if i < |init| {
      RunAt(s, init, step, i);
      assert init[..i] == items[..i];
    }
  }

  /** Running two batches one after the other is running their concatenation. */
  lemma {:induction false} RunAppend<S, U, R>(s: S, first: seq<U>, second: seq<U>, step: (S, U) -> (S, R))
    ensures Run(s, first + second, step).0 == Run(Run(s, first, step).0, second, step).0
    ensures Run(s, first + second, step).1 == Run(s, first, step).1 + Run(Run(s, first, step).0, second, step).1
    decreases |second|
  {
    var mid := Run(s, first, step);
    if second == [] {
      assert first + second == first;
    } else {
      var init := second[..|second| - 1];
      var last := second[|second| - 1];
      assert init + [last] == second;
      Seqs.AppendSnoc(first, init, last);
      RunAppend(s, first, init, step);
      RunSnoc(s, first + init, last, step);
      RunSnoc(mid.0, init, last, step);
      var right := Run(mid.0, init, step);
      Seqs.AppendSnoc(mid.1, right.1, step(right.0, last).1);
    }
  }

  /** Items on which the step leaves the state alone can be dropped without changing the final state. */
  lemma {:induction false} RunSkips<S, U, R>(s: S, items: seq<U>, step: (S, U) -> (S, R), keep: U -> bool)
    requires forall s': S, u: U :: !keep(u) ==> step(s', u).0 == s'
    ensures Run(s, items, step).0 == Run(s, Seqs.Filter(items, keep), step).0
    decreases |items|
  {
    if items != [] {
      var init := items[..|items| - 1];
      var last := items[|items| - 1];
      var kept := Seqs.Filter(init, keep);
      RunSkips(s, init, step, keep);
      if keep(last) {
        RunSnoc(s, kept, last, step);
      } else {
        assert Seqs.Filter(items, keep) == kept by {
          assert kept + [] == kept;
        }
        var (st, _) := Run(s, init, step);
        assert step(st, last).0 == st;
      }
    }
  }
}
