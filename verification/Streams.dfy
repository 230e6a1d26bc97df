/**
  Step functions run along a stream, and the law that makes block processing safe: cutting the stream
  anywhere gives the same outputs and the same final state.
 */
module Streams {

  /** n steps without input, collecting one output a step. */
  function Iterate<S, O>(step: S -> (S, O), s: S, n: nat): (r: (S, seq<O>))
    ensures |r.1| == n
  {
    if n == 0 then (s, [])
    else
      var (before, outputs) := Iterate(step, s, n - 1);
      var (after, output) := step(before);
      (after, outputs + [output])
  }

  lemma {:induction false} IterateSplits<S, O>(step: S -> (S, O), s: S, n: nat, k: nat)
    ensures Iterate(step, s, n + k).0 == Iterate(step, Iterate(step, s, n).0, k).0
    ensures Iterate(step, s, n + k).1 == Iterate(step, s, n).1 + Iterate(step, Iterate(step, s, n).0, k).1
  {
    if k > 0 {
      IterateSplits(step, s, n, k - 1);
      assert n + k - 1 == n + (k - 1);
    }
  }

  /** A trajectory that obeys the step function is the trajectory. */
  lemma {:induction false} IterateFollows<S, O>(step: S -> (S, O), states: nat -> S, outputs: nat -> O, n: nat)
    requires forall i: nat {:trigger outputs(i)} :: step(states(i)) == (states(i + 1), outputs(i))
    ensures Iterate(step, states(0), n).0 == states(n)
    ensures forall i: nat :: i < n ==> Iterate(step, states(0), n).1[i] == outputs(i)
  {
    if n > 0 {
      IterateFollows(step, states, outputs, n - 1);
      assert step(states(n - 1)) == (states(n), outputs(n - 1));
    }
  }

  /** One step per input, one output per input. */
  function Scan<S, I, O>(step: (S, I) -> (S, O), s: S, inputs: seq<I>): (r: (S, seq<O>))
    ensures |r.1| == |inputs|
  {
    if inputs == [] then (s, [])
    else
      var (before, outputs) := Scan(step, s, inputs[..|inputs| - 1]);
      var (after, output) := step(before, inputs[|inputs| - 1]);
      (after, outputs + [output])
  }

  lemma {:induction false} ScanConcat<S, I, O>(step: (S, I) -> (S, O), s: S, first: seq<I>, second: seq<I>)
    ensures Scan(step, s, first + second).0 == Scan(step, Scan(step, s, first).0, second).0
    ensures Scan(step, s, first + second).1 == Scan(step, s, first).1 + Scan(step, Scan(step, s, first).0, second).1
  {
    if second == [] {
      assert first + second == first;
    } else {
      var n := |second| - 1;
      assert (first + second)[..|first + second| - 1] == first + second[..n];
      ScanConcat(step, s, first, second[..n]);
    }
  }

  /** The concatenation of a list of blocks. */
  function Flatten<T>(blocks: seq<seq<T>>): seq<T> {
    if blocks == [] then [] else Flatten(blocks[..|blocks| - 1]) + blocks[|blocks| - 1]
  }

  lemma {:induction false} FlattenConcat<T>(first: seq<seq<T>>, second: seq<seq<T>>)
    ensures Flatten(first + second) == Flatten(first) + Flatten(second)
  {
    if second == [] {
      assert first + second == first;
    } else {
      var init := second[..|second| - 1];
      assert (first + second)[..|first + second| - 1] == first + init;
      FlattenConcat(first, init);
    }
  }

  // ---- Steps without outputs ---------------------------------------------------------------

  /** n steps without input. */
  function Iterated<T>(f: T -> T, x: T, n: nat): T { if n == 0 then x else f(Iterated(f, x, n - 1)) }

  /** One step per input. */
  function Fold<S, I>(step: (S, I) -> S, s: S, data: seq<I>): S {
    if data == [] then s else step(Fold(step, s, data[..|data| - 1]), data[|data| - 1])
  }

  lemma EightSteps<T>(f: T -> T, a: T, b: T, c: T, d: T, e: T, p: T, q: T, r: T, s: T)
    requires f(a) == b && f(b) == c && f(c) == d && f(d) == e && f(e) == p && f(p) == q && f(q) == r && f(r) == s
    ensures Iterated(f, a, 8) == s
  {
    assert Iterated(f, a, 1) == b;
    assert Iterated(f, a, 4) == e;
  }

  lemma {:induction false} IteratedDistributes<T(!new)>(f: T -> T, op: (T, T) -> T, x: T, y: T, n: nat)
    requires forall u, v :: f(op(u, v)) == op(f(u), f(v))
    ensures Iterated(f, op(x, y), n) == op(Iterated(f, x, n), Iterated(f, y, n))
  {
    if n > 0 { IteratedDistributes(f, op, x, y, n - 1); }
  }

  lemma {:induction false} IteratedSame<T(!new)>(f: T -> T, g: T -> T, x: T, n: nat)
    requires forall u :: f(u) == g(u)
    ensures Iterated(f, x, n) == Iterated(g, x, n)
  {
    if n > 0 { IteratedSame(f, g, x, n - 1); }
  }

  lemma {:induction false} IteratedInjective<T(!new)>(f: T -> T, x: T, y: T, n: nat)
    requires forall u, v :: f(u) == f(v) ==> u == v
    requires Iterated(f, x, n) == Iterated(f, y, n)
    ensures x == y
  {
    if n > 0 { IteratedInjective(f, x, y, n - 1); }
  }

  lemma {:induction false} FoldSame<S(!new), I(!new)>(step: (S, I) -> S, other: (S, I) -> S, s: S, data: seq<I>)
    requires forall t, b :: step(t, b) == other(t, b)
    ensures Fold(step, s, data) == Fold(other, s, data)
  {
    if data != [] { FoldSame(step, other, s, data[..|data| - 1]); }
  }

  lemma {:induction false} FoldConcat<S, I>(step: (S, I) -> S, s: S, first: seq<I>, second: seq<I>)
    ensures Fold(step, s, first + second) == Fold(step, Fold(step, s, first), second)
  {
    if second == [] {
      assert first + second == first;
    } else {
      assert (first + second)[..|first + second| - 1] == first + second[..|second| - 1];
      FoldConcat(step, s, first, second[..|second| - 1]);
    }
  }

  lemma {:induction false} FoldKeepsDifference<S(!new), I(!new)>(step: (S, I) -> S, s: S, t: S, data: seq<I>)
    requires forall u, v, b :: step(u, b) == step(v, b) ==> u == v
    requires s != t
    ensures Fold(step, s, data) != Fold(step, t, data)
  {
    if data != [] { FoldKeepsDifference(step, s, t, data[..|data| - 1]); }
  }

  lemma FoldTwo<S, I>(step: (S, I) -> S, s: S, data: seq<I>, x: I, y: I)
    ensures Fold(step, s, data + [x, y]) == step(step(Fold(step, s, data), x), y)
  {
    assert (data + [x, y])[..|data| + 1] == data + [x];
    assert (data + [x])[..|data|] == data;
  }

  /** One changed input changes the result, if no step confuses states or inputs. */
  lemma FoldDetects<S(!new), I(!new)>(step: (S, I) -> S, s: S, before: seq<I>, good: I, bad: I, after: seq<I>)
    requires forall u, v, b :: step(u, b) == step(v, b) ==> u == v
    requires forall u, b, c :: step(u, b) == step(u, c) ==> b == c
    requires good != bad
    ensures Fold(step, s, before + [good] + after) != Fold(step, s, before + [bad] + after)
  {
    FoldConcat(step, s, before + [good], after);
    FoldConcat(step, s, before + [bad], after);
    assert (before + [good])[..|before|] == before && (before + [bad])[..|before|] == before;
    FoldKeepsDifference(step, Fold(step, s, before + [good]), Fold(step, s, before + [bad]), after);
  }

  /** Two streams of one length, item by item. */
  function Zipped<I>(op: (I, I) -> I, first: seq<I>, second: seq<I>): (r: seq<I>)
    requires |first| == |second|
    ensures |r| == |first|
  {
    seq(|first|, i requires 0 <= i < |first| => op(first[i], second[i]))
  }

  /** A step that distributes over combined states and inputs does so over whole streams. */
  lemma {:induction false} FoldDistributes<S(!new), I(!new)>(step: (S, I) -> S, onStates: (S, S) -> S, onInputs: (I, I) -> I,
                                                            s: S, t: S, first: seq<I>, second: seq<I>)
    requires |first| == |second|
    requires forall u, v, x, y :: step(onStates(u, v), onInputs(x, y)) == onStates(step(u, x), step(v, y))
    ensures Fold(step, onStates(s, t), Zipped(onInputs, first, second)) == onStates(Fold(step, s, first), Fold(step, t, second))
  {
    if first != [] {
      var n := |first| - 1;
      FoldDistributes(step, onStates, onInputs, s, t, first[..n], second[..n]);
      assert Zipped(onInputs, first, second)[..n] == Zipped(onInputs, first[..n], second[..n]);
    }
  }

  /** States that obey the step function are the states of the run. */
  lemma {:induction false} FoldFollows<S, I>(step: (S, I) -> S, states: nat -> S, inputs: seq<I>)
    requires forall i: nat {:trigger inputs[i]} :: i < |inputs| ==> step(states(i), inputs[i]) == states(i + 1)
    ensures Fold(step, states(0), inputs) == states(|inputs|)
  {
    if inputs != [] {
      var n := |inputs| - 1;
      forall i: nat | i < n ensures step(states(i), inputs[..n][i]) == states(i + 1) {
        assert inputs[..n][i] == inputs[i];
      }
      FoldFollows(step, states, inputs[..n]);
      assert step(states(n), inputs[n]) == states(n + 1);
    }
  }
}
