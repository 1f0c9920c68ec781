/** Two pieces of `Endpoint` (src/request.rs). The first is the list of
    value streams with the start stream, which `add_start_stream`
    installs. The second is the on-demand gate: an endpoint that provides
    values on demand only pulls a combined item from its streams after an
    on-demand signal, one item per signal.

    Streams are opaque values; a poll of the merged on-demand streams and a
    poll of the zipped value streams are inputs to a step. */
module Endpoint {

  /** The stream list: each stream with whether it is the start stream. */
  type StreamCollection<S> = seq<(bool, S)>

  /** `add_start_stream`: a start stream at the front is replaced; in every
      other case the new start stream is appended at the end. */
  function AddStartStream<S>(c: StreamCollection<S>, s: S): (r: StreamCollection<S>)
    ensures (true, s) in r
    ensures |c| > 0 && c[0].0 ==> |r| == |c| && r[0] == (true, s) && r[1..] == c[1..]
    ensures !(|c| > 0 && c[0].0) ==> |r| == |c| + 1 && r[..|c|] == c && r[|c|] == (true, s)
  {
    if |c| > 0 && c[0].0 then
      var r := c[0 := (true, s)];
      assert r[0] == (true, s);
      r
    else
      var r := c + [(true, s)];
      assert r[|c|] == (true, s);
      r
  }

  /** The streams that are not start streams, in order. */
  function Others<S>(c: StreamCollection<S>): seq<S> {
    if c == [] then [] else (if c[0].0 then [] else [c[0].1]) + Others(c[1..])
  }

  lemma {:induction false} OthersAppend<S>(a: StreamCollection<S>, b: StreamCollection<S>)
    ensures Others(a + b) == Others(a) + Others(b)
    decreases |a|
  {
    if a != [] {
      assert (a + b)[0] == a[0] && (a + b)[1..] == a[1..] + b;
      OthersAppend(a[1..], b);
      var x: seq<S> := if a[0].0 then [] else [a[0].1];
      assert Others(a + b) == x + (Others(a[1..]) + Others(b));
      assert Others(a) == x + Others(a[1..]);
    } else {
      assert a + b == b;
    }
  }

  /** The number of start streams. */
  function Starts<S>(c: StreamCollection<S>): nat {
    if c == [] then 0 else (if c[0].0 then 1 else 0) + Starts(c[1..])
  }

  lemma {:induction false} StartsAppend<S>(a: StreamCollection<S>, b: StreamCollection<S>)
    ensures Starts(a + b) == Starts(a) + Starts(b)
    decreases |a|
  {
    if a != [] {
      assert (a + b)[0] == a[0] && (a + b)[1..] == a[1..] + b;
      StartsAppend(a[1..], b);
      assert Starts(a + b) == (if a[0].0 then 1 else 0) + Starts(a[1..] + b);
    } else {
      assert a + b == b;
    }
  }

  /** The value streams are kept, in order, whatever `add_start_stream`
      does; only start streams change. */
  lemma KeepsValueStreams<S>(c: StreamCollection<S>, s: S)
    ensures Others(AddStartStream(c, s)) == Others(c)
  {
    if |c| > 0 && c[0].0 {
      assert AddStartStream(c, s) == [(true, s)] + c[1..];
      assert c == [c[0]] + c[1..];
      OthersAppend([(true, s)], c[1..]);
      OthersAppend([c[0]], c[1..]);
    } else {
      OthersAppend(c, [(true, s)]);
    }
  }

  /** Only a start stream at the front is recognised. On a list whose
      front holds a value stream, each call appends another start stream
      rather than replacing the last one. */
  lemma StartStreamsAccumulate<S>(c: StreamCollection<S>, s1: S, s2: S)
    requires |c| > 0 && !c[0].0
    ensures Starts(AddStartStream(AddStartStream(c, s1), s2)) == Starts(c) + 2
  {
    StartsAppend(c, [(true, s1)]);
    StartsAppend(c + [(true, s1)], [(true, s2)]);
  }

  /** On a list whose front is empty or already the start stream, the
      start stream is at the front afterwards and a second call replaces
      it: only the last stream added stays. */
  lemma StartStreamReplaced<S>(c: StreamCollection<S>, s1: S, s2: S)
    requires c == [] || c[0].0
    ensures AddStartStream(AddStartStream(c, s1), s2) == AddStartStream(c, s2)
    ensures Starts(AddStartStream(c, s2)) == Starts(c) + (if c == [] then 1 else 0)
  {
    if c != [] {
      assert c == [c[0]] + c[1..];
      assert AddStartStream(c, s2) == [(true, s2)] + c[1..];
      StartsAppend([c[0]], c[1..]);
      StartsAppend([(true, s2)], c[1..]);
    }
  }

  /** One poll of the merged on-demand streams. */
  datatype OnDemand = Signal | SignalsEnded | NoSignal | SignalFailed

  /** One poll of the zipped value streams. */
  datatype Zipped<T, E> = Item(item: T) | Ended | NotYet | Failed(error: E)

  /** The error the gated stream raises. */
  datatype GateError<E> = OnDemandFailed | StreamFailed(error: E)

  /** What the gated stream returns from one poll. */
  datatype Output<T, E> = Yield(item: T) | End | Wait | Fail(error: GateError<E>)

  /** One poll of the gate: what it returns, whether it is open after, and
      whether it admitted a signal and polled the zipped streams. */
  datatype Step<T, E> = Step(output: Output<T, E>, open: bool, admitted: bool, zippedPolled: bool)

  /** What a zipped poll means to the caller of the gated stream. */
  function PassOn<T, E>(z: Zipped<T, E>): Output<T, E> {
    match z
    case Item(t) => Yield(t)
    case Ended => End
    case NotYet => Wait
    case Failed(e) => Fail(StreamFailed(e))
  }

  /** The `poll_fn` in `Endpoint::into_future`. The on-demand streams are
      polled on every call; their answer matters only while the gate is
      closed. An open gate polls the zipped streams and closes again once
      they answer anything but "not yet". */
  function GateStep<T, E>(open: bool, od: OnDemand, z: Zipped<T, E>): (r: Step<T, E>)
    ensures r.admitted <==> !open && od.Signal?
    ensures r.zippedPolled <==> open || od.Signal?
    ensures r.zippedPolled ==> r.output == PassOn(z) && (r.open <==> z.NotYet?)
    ensures !r.zippedPolled ==> !r.open && !r.output.Yield?
    ensures !open && od.SignalsEnded? ==> r.output == End
    ensures !open && od.NoSignal? ==> r.output == Wait
    ensures !open && od.SignalFailed? ==> r.output == Fail(OnDemandFailed)
  {
    if !open && !od.Signal? then
      var output := match od
        case SignalsEnded => End
        case NoSignal => Wait
        case _ => Fail(OnDemandFailed);
      Step(output, false, false, false)
    else
      Step(PassOn(z), z.NotYet?, !open, true)
  }

  /** Whether the gate is in use: only when there are on-demand streams and
      the endpoint provides values. Otherwise the zipped streams are
      returned as they are. */
  function CombinedStep<T, E>(onDemandStreams: nat, provided: nat, open: bool, od: OnDemand, z: Zipped<T, E>): (r: Step<T, E>)
    ensures onDemandStreams == 0 || provided == 0 ==> r.output == PassOn(z) && r.zippedPolled
    ensures onDemandStreams > 0 && provided > 0 ==> r == GateStep(open, od, z)
  {
    if onDemandStreams > 0 && provided > 0 then GateStep(open, od, z)
    else Step(PassOn(z), open, false, true)
  }

  /** A gated stream polled once per input pair, with the state it ends in. */
  datatype Trace<T, E> = Trace(steps: seq<Step<T, E>>, open: bool)

  function GateRun<T, E>(open: bool, inputs: seq<(OnDemand, Zipped<T, E>)>): (r: Trace<T, E>)
    ensures |r.steps| == |inputs|
    decreases |inputs|
  {
    if inputs == [] then Trace([], open)
    else
      var s := GateStep(open, inputs[0].0, inputs[0].1);
      var rest := GateRun(s.open, inputs[1..]);
      Trace([s] + rest.steps, rest.open)
  }

  /** Steps on which the zipped streams gave an answer that closes the gate. */
  function Closings<T, E>(steps: seq<Step<T, E>>): nat {
    if steps == [] then 0
    else (if steps[0].zippedPolled && !steps[0].output.Wait? then 1 else 0) + Closings(steps[1..])
  }

  function Admissions<T, E>(steps: seq<Step<T, E>>): nat {
    if steps == [] then 0 else (if steps[0].admitted then 1 else 0) + Admissions(steps[1..])
  }

  function Items<T, E>(steps: seq<Step<T, E>>): nat {
    if steps == [] then 0 else (if steps[0].output.Yield? then 1 else 0) + Items(steps[1..])
  }

  function Signals<T, E>(inputs: seq<(OnDemand, Zipped<T, E>)>): nat {
    if inputs == [] then 0 else (if inputs[0].0.Signal? then 1 else 0) + Signals(inputs[1..])
  }

  /** The gate's balance: every admitted signal is matched by exactly one
      closing answer of the zipped streams, except possibly the last, which
      leaves the gate open. No more signals are admitted than arrive, and
      every item the gated stream yields closes the gate. */
  lemma {:induction false} GateBalance<T, E>(open: bool, inputs: seq<(OnDemand, Zipped<T, E>)>)
    ensures var t := GateRun(open, inputs);
      && Closings(t.steps) + (if t.open then 1 else 0) == Admissions(t.steps) + (if open then 1 else 0)
      && Admissions(t.steps) <= Signals(inputs)
      && Items(t.steps) <= Closings(t.steps)
    decreases |inputs|
  {
    if inputs != [] {
      var s := GateStep(open, inputs[0].0, inputs[0].1);
      GateBalance(s.open, inputs[1..]);
      var t := GateRun(open, inputs);
      assert t.steps[0] == s && t.steps[1..] == GateRun(s.open, inputs[1..]).steps;
    }
  }

  /** Each on-demand signal lets at most one item through: a gate that
      starts closed yields no more items than signals arrive. */
  lemma OneItemPerSignal<T, E>(inputs: seq<(OnDemand, Zipped<T, E>)>)
    ensures Items(GateRun(false, inputs).steps) <= Signals(inputs)
  {
    GateBalance(false, inputs);
  }
}
