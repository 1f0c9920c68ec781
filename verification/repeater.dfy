/** `RepeaterStream` (src/providers.rs): the stream behind a literal list
    provider. It hands out the list's values in order, starting again from
    the first after the last, and never ends unless the list is empty. */
module Repeater {
  import opened Common

  /** The position of the next value and the list. */
  datatype Repeater<T> = Repeater(i: nat, values: seq<T>)

  /** The stream's error type, which it never produces. */
  datatype ChannelClosed = ChannelClosed

  function New<T>(values: seq<T>): (r: Repeater<T>)
    ensures r.i == 0 && r.values == values
  {
    Repeater(0, values)
  }

  /** `RepeaterStream::poll`: the value at the current position, if there
      is one (no value ends the stream), and the position advanced by one
      modulo the list's length, or reset to 0 for an empty list. */
  function Poll<T>(r: Repeater<T>): (p: (Result<Option<T>, ChannelClosed>, Repeater<T>))
    ensures p.0.Ok?
    ensures p.1.values == r.values
    ensures p.0.value.Some? <==> r.i < |r.values|
    ensures p.0.value.Some? ==> p.0.value.value == r.values[r.i]
    ensures |r.values| > 0 ==> p.1.i < |r.values|
    ensures r.i + 1 < |r.values| ==> p.1.i == r.i + 1
    ensures r.i + 1 == |r.values| || |r.values| == 0 ==> p.1.i == 0
  {
    var next := if |r.values| == 0 then 0 else (r.i + 1) % |r.values|;
    var item := if r.i < |r.values| then Some(r.values[r.i]) else None;
    (Ok(item), r.(i := next))
  }

  /** An empty list ends the stream on every poll and stays at 0. */
  lemma EmptyEnds<T>(r: Repeater<T>)
    requires r.values == [] && r.i == 0
    ensures Poll(r) == (Ok(None), r)
  {
  }

  /** The items of `k` polls in order, and the stream after them. */
  function Run<T>(r: Repeater<T>, k: nat): (p: (seq<Option<T>>, Repeater<T>))
    ensures |p.0| == k && p.1.values == r.values
  {
    if k == 0 then ([], r)
    else
      var before := Run(r, k - 1);
      var (item, after) := Poll(before.1);
      (before.0 + [item.value], after)
  }

  lemma MulAtLeast(a: nat, n: nat)
    requires a >= 1
    ensures a * n >= n
    decreases a
  {
    if a > 1 {
      MulAtLeast(a - 1, n);
      assert a * n == (a - 1) * n + n;
    }
  }

  lemma MulSign(d: int, n: nat)
    ensures d >= 1 ==> d * n >= n
    ensures d <= -1 ==> d * n + n <= 0
  {
    if d >= 1 {
      MulAtLeast(d, n);
    } else if d <= -1 {
      MulAtLeast(-d, n);
      assert d * n == -((-d) * n);
    }
  }

  /** The remainder is the unique one: `q * n + r` leaves `r` when `r < n`. */
  lemma ModOfSum(q: int, n: nat, r: nat)
    requires r < n
    ensures (q * n + r) % n == r
  {
    var x := q * n + r;
    var q', r' := x / n, x % n;
    assert x == q' * n + r';
    assert (q - q') * n == q * n - q' * n;
    MulSign(q - q', n);
  }

  lemma ModStep(k: nat, n: nat)
    requires n > 0
    ensures k % n + 1 < n ==> (k + 1) % n == k % n + 1
    ensures k % n + 1 == n ==> (k + 1) % n == 0
  {
    var q := k / n;
    assert k == q * n + k % n;
    if k % n + 1 < n {
      ModOfSum(q, n, k % n + 1);
    } else {
      assert k + 1 == (q + 1) * n + 0;
      ModOfSum(q + 1, n, 0);
    }
  }

  /** Over a non-empty list, the `k`-th value the stream gives (counting
      from 0) is `values[k mod n]`: the list in order, over and over,
      never ending. The position after `k` polls is `k mod n`. */
  lemma {:induction false} Cycles<T>(values: seq<T>, k: nat)
    requires |values| > 0
    ensures var (items, after) := Run(New(values), k);
      && after.i == k % |values|
      && forall j :: 0 <= j < k ==> items[j] == Some(values[j % |values|])
  {
    if k > 0 {
      Cycles(values, k - 1);
      ModStep(k - 1, |values|);
    }
  }

  /** Hence a stream over a non-empty list never ends. */
  lemma NeverEnds<T>(values: seq<T>, k: nat)
    requires |values| > 0
    ensures forall j :: 0 <= j < k ==> Run(New(values), k).0[j].Some?
  {
    Cycles(values, k);
  }
}
