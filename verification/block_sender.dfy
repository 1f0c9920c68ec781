/** `BlockSender` (src/request.rs): a future that moves the values of an
    iterator into a bounded channel. When the channel is full the value it
    refused is kept and offered again, before any new value, on the next
    poll. The future completes when the iterator runs out or the channel
    is closed, and fails with the iterator's error. When it is dropped it
    polls once more and then tells its callback whether any value was ever
    accepted.

    The iterator is the finite list of its remaining items; the channel is
    a queue with a capacity and a closed flag, of which only `try_send` is
    used. */
module BlockSender {
  import opened Common

  /** The channel as the sender sees it. */
  datatype Channel<V> = Channel(queue: seq<V>, capacity: nat, closed: bool)

  /** What `try_send` reports. */
  datatype SendState<V> = Closed | Full(refused: V) | Success

  /** `try_send`: a closed channel takes nothing; a full one hands the
      value back; otherwise the value is queued. */
  function TrySend<V>(ch: Channel<V>, v: V): (r: (Channel<V>, SendState<V>))
    ensures r.1.Success? <==> !ch.closed && |ch.queue| < ch.capacity
    ensures r.1.Success? ==> r.0 == ch.(queue := ch.queue + [v])
    ensures !r.1.Success? ==> r.0 == ch
    ensures r.1.Full? ==> r.1.refused == v && !ch.closed
  {
    if ch.closed then (ch, Closed)
    else if |ch.queue| >= ch.capacity then (ch, Full(v))
    else (ch.(queue := ch.queue + [v]), Success)
  }

  /** The value kept after a refusal, the iterator's remaining items, and
      whether any value has been accepted. */
  datatype Sender<V, E> = Sender(last: Option<V>, values: seq<Result<V, E>>, valueAdded: bool)

  /** Why a poll returned: the iterator ran out, the channel was closed
      (the value in hand is dropped), the channel was full, or the
      iterator failed. Only `Blocked` leaves the future pending. */
  datatype Outcome<V, E> = Exhausted | ChannelClosed(dropped: V) | Blocked | Failed(error: E)

  /** The result of a poll: why it returned, the values queued during it
      in order, and the new sender and channel. */
  datatype Polled<V, E> = Polled(outcome: Outcome<V, E>, sent: seq<V>, sender: Sender<V, E>, channel: Channel<V>)

  /** Everything still to be offered, in order: the kept value first. */
  function Pending<V, E>(s: Sender<V, E>): seq<Result<V, E>> {
    (if s.last.Some? then [Ok(s.last.value)] else []) + s.values
  }

  function Oks<V, E>(vs: seq<V>): (r: seq<Result<V, E>>)
    ensures |r| == |vs|
  {
    seq(|vs|, i requires 0 <= i < |vs| => Ok(vs[i]))
  }

  /** What a poll consumes without queueing it: the value dropped on a
      closed channel, or the iterator's error. */
  function Lost<V, E>(outcome: Outcome<V, E>): seq<Result<V, E>> {
    match outcome
    case ChannelClosed(v) => [Ok(v)]
    case Failed(e) => [Err(e)]
    case _ => []
  }

  lemma OksCons<V, E>(v: V, vs: seq<V>)
    ensures Oks<V, E>([v] + vs) == [Ok(v)] + Oks<V, E>(vs)
  {
  }

  /** What offering the pending items in order produces: why it stopped,
      what was queued, what is still pending (starting with the refused
      value when the channel was full) and the channel after. */
  datatype Offered<V, E> = Offered(outcome: Outcome<V, E>, sent: seq<V>, rest: seq<Result<V, E>>, channel: Channel<V>)

  lemma AcceptedFirst<V, E>(v: V, tail: seq<Result<V, E>>, next: Offered<V, E>)
    requires tail == Oks<V, E>(next.sent) + Lost(next.outcome) + next.rest
    ensures [Ok(v)] + tail == Oks<V, E>([v] + next.sent) + Lost(next.outcome) + next.rest
  {
    OksCons<V, E>(v, next.sent);
    AppendAssoc([Ok(v)], Oks<V, E>(next.sent) + Lost(next.outcome), next.rest);
    AppendAssoc([Ok(v)], Oks<V, E>(next.sent), Lost(next.outcome));
  }

  /** The loop of `BlockSender::poll`, over the pending items. */
  function Offer<V, E>(pending: seq<Result<V, E>>, ch: Channel<V>): (r: Offered<V, E>)
    ensures r.channel == ch.(queue := ch.queue + r.sent)
    ensures pending == Oks<V, E>(r.sent) + Lost(r.outcome) + r.rest
    ensures r.outcome.Exhausted? ==> r.rest == []
    ensures r.outcome.ChannelClosed? ==> ch.closed
    ensures r.outcome.Blocked? ==> r.rest != [] && r.rest[0].Ok? && !ch.closed && |r.channel.queue| >= ch.capacity
    ensures ch.closed ==> r.sent == []
    ensures r.sent != [] ==> |r.channel.queue| <= ch.capacity
    decreases |pending|
  {
    if pending == [] then Offered(Exhausted, [], [], ch)
    else match pending[0]
      case Err(e) =>
        assert pending == [Err(e)] + pending[1..];
        Offered(Failed(e), [], pending[1..], ch)
      case Ok(v) =>
        assert pending == [Ok(v)] + pending[1..];
        var sent := TrySend(ch, v);
        if sent.1.Closed? then Offered(ChannelClosed(v), [], pending[1..], ch)
        else if sent.1.Full? then Offered(Blocked, [], pending, ch)
        else
          var next := Offer(pending[1..], sent.0);
          AcceptedFirst(v, pending[1..], next);
          AppendAssoc(ch.queue, [v], next.sent);
          Offered(next.outcome, [v] + next.sent, next.rest, next.channel)
  }

  /** `BlockSender::poll`: offer the kept value, or else the next item,
      until the channel refuses one or there is nothing more to offer. A
      refused value is kept for the next poll. */
  function Poll<V, E>(s: Sender<V, E>, ch: Channel<V>): (r: Polled<V, E>)
    ensures r.channel == ch.(queue := ch.queue + r.sent)
    ensures Pending(s) == Oks<V, E>(r.sent) + Lost(r.outcome) + Pending(r.sender)
    ensures r.sender.valueAdded == (s.valueAdded || r.sent != [])
    ensures r.outcome.Exhausted? ==> Pending(r.sender) == []
    ensures r.outcome.ChannelClosed? ==> ch.closed
    ensures r.outcome.Blocked? ==> r.sender.last.Some? && !ch.closed && |r.channel.queue| >= ch.capacity
    ensures !r.outcome.Blocked? ==> r.sender.last.None?
    ensures ch.closed ==> r.sent == []
    ensures r.sent != [] ==> |r.channel.queue| <= ch.capacity
  {
    var o := Offer(Pending(s), ch);
    Polled(o.outcome, o.sent, Keep(o, s.valueAdded || o.sent != []), o.channel)
  }

  /** The sender after a poll: a refused value is kept in hand, and the
      rest of the items stay pending. */
  function Keep<V, E>(o: Offered<V, E>, added: bool): (s: Sender<V, E>)
    requires o.outcome.Blocked? ==> o.rest != [] && o.rest[0].Ok?
    ensures Pending(s) == o.rest && s.valueAdded == added
    ensures s.last.Some? <==> o.outcome.Blocked?
  {
    if o.outcome.Blocked? then
      var s := Sender(Some(o.rest[0].value), o.rest[1..], added);
      assert Pending(s) == [o.rest[0]] + o.rest[1..];
      s
    else Sender(None, o.rest, added)
  }

  /** A value the channel refused is the first one queued by the next
      poll that queues anything. */
  lemma RetryFirst<V, E>(s: Sender<V, E>, ch: Channel<V>)
    requires s.last.Some? && Poll(s, ch).sent != []
    ensures Poll(s, ch).sent[0] == s.last.value
  {
    var r := Poll(s, ch);
    assert Pending(s)[0] == Ok(s.last.value);
    assert (Oks<V, E>(r.sent) + Lost(r.outcome) + Pending(r.sender))[0] == Ok(r.sent[0]);
  }

  /** The future polled once per wake-up until it completes, each time
      seeing the channel as the receiver has left it. */
  datatype Run<V, E> = Run(sent: seq<V>, sender: Sender<V, E>, completed: Option<Outcome<V, E>>)

  function RunPolls<V, E>(s: Sender<V, E>, channels: seq<Channel<V>>): Run<V, E>
    decreases |channels|
  {
    if channels == [] then Run([], s, None)
    else
      var p := Poll(s, channels[0]);
      if p.outcome.Blocked? then
        var r := RunPolls(p.sender, channels[1..]);
        Run(p.sent + r.sent, r.sender, r.completed)
      else Run(p.sent, p.sender, Some(p.outcome))
  }

  lemma OksAppend<V, E>(a: seq<V>, b: seq<V>)
    ensures Oks<V, E>(a + b) == Oks<V, E>(a) + Oks<V, E>(b)
  {
  }

  /** Two polls in a row account for the items as one poll would. */
  lemma Chain<V, E>(before: seq<Result<V, E>>, first: seq<V>, between: seq<Result<V, E>>,
                    second: seq<V>, lost: seq<Result<V, E>>, after: seq<Result<V, E>>)
    requires before == Oks<V, E>(first) + [] + between
    requires between == Oks<V, E>(second) + lost + after
    ensures before == Oks<V, E>(first + second) + lost + after
  {
    OksAppend<V, E>(first, second);
    AppendAssoc(Oks<V, E>(first), Oks<V, E>(second) + lost, after);
    AppendAssoc(Oks<V, E>(first), Oks<V, E>(second), lost);
  }

  /** Over any number of polls, the values queued, then what was consumed
      without being queued, then what is still pending, are exactly the
      items there were at the start: nothing is lost or queued twice. A
      value is recorded as accepted exactly when one was queued. */
  lemma {:induction false} RunKeepsOrder<V, E>(s: Sender<V, E>, channels: seq<Channel<V>>)
    ensures var r := RunPolls(s, channels);
      && Pending(s) == Oks<V, E>(r.sent) + (if r.completed.Some? then Lost(r.completed.value) else []) + Pending(r.sender)
      && r.sender.valueAdded == (s.valueAdded || r.sent != [])
      && (r.completed.Some? ==> !r.completed.value.Blocked?)
    decreases |channels|
  {
    if channels != [] {
      var p := Poll(s, channels[0]);
      if p.outcome.Blocked? {
        RunKeepsOrder(p.sender, channels[1..]);
        var r := RunPolls(p.sender, channels[1..]);
        assert RunPolls(s, channels) == Run(p.sent + r.sent, r.sender, r.completed);
        var lost := if r.completed.Some? then Lost(r.completed.value) else [];
        assert Lost(p.outcome) == [];
        Chain(Pending(s), p.sent, Pending(p.sender), r.sent, lost, Pending(r.sender));
      } else {
        assert RunPolls(s, channels) == Run(p.sent, p.sender, Some(p.outcome));
      }
    }
  }

  /** What dropping the sender does: one more poll, then the callback (if
      there is one) is called with whether any value was accepted. */
  datatype Dropped<V, E> = Dropped(polled: Polled<V, E>, callback: Option<bool>)

  function Drop<V, E>(s: Sender<V, E>, ch: Channel<V>, hasCallback: bool): (r: Dropped<V, E>)
    ensures r.callback.Some? <==> hasCallback
    ensures r.callback.Some? ==> (r.callback.value <==> s.valueAdded || r.polled.sent != [])
  {
    var p := Poll(s, ch);
    Dropped(p, if hasCallback then Some(p.sender.valueAdded) else None)
  }

  /** A sender that starts with no value accepted, is polled through a
      run and then dropped, reports `true` to its callback exactly when
      some value was queued, during the run or by the final poll. */
  lemma CallbackReportsValueAdded<V, E>(values: seq<Result<V, E>>, channels: seq<Channel<V>>, last: Channel<V>)
    ensures var r := RunPolls(Sender(None, values, false), channels);
      var d := Drop(r.sender, last, true);
      d.callback == Some(r.sent != [] || d.polled.sent != [])
  {
    RunKeepsOrder(Sender(None, values, false), channels);
  }
}
