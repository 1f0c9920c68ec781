/** The logger provider (src/providers.rs): a task that takes each value
    sent to a logger, writes it as a line to standard error, standard
    output or a file, and applies the logger's `limit` and `kill`
    settings. With a limit and no kill it stops writing once the limit is
    reached; with kill it asks the test to end (`KilledByLogger`) once the
    limit is reached, or after every message when there is no limit. A
    failed write to the file ends the logger and reports the error to the
    test.

    Printing and file writing are events; the test killer's channel is
    the `Kill` and `Failed` events. */
module Logger {
  import opened Common
  import Json
  import Util

  /** The configured limit and kill setting. */
  datatype Config = Config(limit: Option<nat>, kill: bool)

  /** Where lines go. */
  datatype Target = Stderr | Stdout | File

  /** The message counter and whether messages are still written. */
  datatype State = State(counter: nat, keepLogging: bool)

  const Initial: State := State(0, true)

  /** A line written, `KilledByLogger` sent to the test, or a write error
      sent to the test. */
  datatype Event = Write(line: string) | Kill | Failed

  /** The text of a value's line: the console targets print a string's
      contents raw, the file target writes every value as JSON, so a string
      is quoted there. */
  function Line(target: Target, v: Json.Value): (r: string)
    ensures target != File ==> r == Util.ValueIntoString(v)
    ensures target == File ==> r == Json.Serialize(v)
    ensures target != File && v.String? ==> r == v.s
  {
    if target == File then Json.Serialize(v) else Util.ValueIntoString(v)
  }

  /** The result of handling one message: what happened, the new state,
      and whether the logger has ended. */
  datatype Stepped = Stepped(events: seq<Event>, state: State, stopped: bool)

  /** Whether the message numbered `counter` (from 1) reaches the limit. */
  predicate AtLimit(cfg: Config, counter: nat) {
    cfg.limit.Some? && counter >= cfg.limit.value
  }

  /** The closure passed to `for_each`. `writeFails` is whether writing this
      line to the file would fail; the console targets never fail. A failed
      write ends the logger with its error, except on the branches that
      send `KilledByLogger`, which discard the write's result. With kill
      set and a limit not yet reached, nothing is sent. `line` is the
      message's text, as `Line` gives it. */
  function Step(cfg: Config, target: Target, st: State, line: string, writeFails: bool): (r: Stepped)
    ensures r.state.counter == st.counter + 1
    ensures r.state.keepLogging <==> st.keepLogging && !(AtLimit(cfg, r.state.counter) && !cfg.kill)
    ensures Kill in r.events <==> cfg.kill && (cfg.limit.None? || AtLimit(cfg, r.state.counter))
    ensures Write(line) in r.events <==> st.keepLogging && !(writeFails && target == File)
    ensures r.stopped <==> Failed in r.events
    ensures r.stopped <==> st.keepLogging && writeFails && target == File &&
                           !(cfg.kill && (cfg.limit.None? || AtLimit(cfg, r.state.counter)))
    ensures forall e :: e in r.events ==> e == Write(line) || e == Kill || e == Failed
  {
    var counter := st.counter + 1;
    var failed := st.keepLogging && writeFails && target == File;
    var written := if st.keepLogging && !failed then [Write(line)] else [];
    if AtLimit(cfg, counter) then
      if cfg.kill then Stepped(written + [Kill], State(counter, st.keepLogging), false)
      else if failed then Stepped([Failed], State(counter, false), true)
      else Stepped(written, State(counter, false), false)
    else if cfg.kill && cfg.limit.None? then Stepped(written + [Kill], State(counter, st.keepLogging), false)
    else if failed then Stepped([Failed], State(counter, st.keepLogging), true)
    else Stepped(written, State(counter, st.keepLogging), false)
  }

  /** The logger over the lines of a sequence of messages; `failing` holds
      the numbers (from 1) of the messages whose file write fails. The
      logger takes no more messages once it has ended. */
  function Run(cfg: Config, target: Target, st: State, lines: seq<string>, failing: set<nat>): (r: Stepped)
    ensures r.state.counter <= st.counter + |lines|
    decreases |lines|
  {
    if lines == [] then Stepped([], st, false)
    else
      var s := Step(cfg, target, st, lines[0], st.counter + 1 in failing);
      if s.stopped then s
      else
        var rest := Run(cfg, target, s.state, lines[1..], failing);
        Stepped(s.events + rest.events, rest.state, rest.stopped)
  }

  /** The logger task over the messages sent to it, from its start. */
  function Log(cfg: Config, target: Target, vs: seq<Json.Value>, failing: set<nat>): Stepped {
    Run(cfg, target, Initial, Lines(target, vs), failing)
  }

  /** No file write fails for the `count` messages numbered from
      `counter + 1`. */
  predicate WritesSucceed(target: Target, failing: set<nat>, counter: nat, count: nat) {
    target == File ==> forall n :: counter < n <= counter + count ==> n !in failing
  }

  /** The reference behaviour, one message at a time: the message numbered
      `n` is written unless a limit without kill was reached by an earlier
      message, and is followed by `KilledByLogger` when kill is set and
      either there is no limit or `n` reaches it. */
  function Expected(cfg: Config, n: nat, line: string): seq<Event> {
    (if cfg.kill || cfg.limit.None? || n <= Max(cfg.limit.value, 1) then [Write(line)] else []) +
    (if cfg.kill && (cfg.limit.None? || n >= cfg.limit.value) then [Kill] else [])
  }

  function Max(a: nat, b: nat): nat {
    if a >= b then a else b
  }

  /** The reference events for the lines of messages numbered from
      `counter + 1`. */
  function ExpectedRun(cfg: Config, counter: nat, lines: seq<string>): seq<Event>
    decreases |lines|
  {
    if lines == [] then []
    else Expected(cfg, counter + 1, lines[0]) + ExpectedRun(cfg, counter + 1, lines[1..])
  }

  /** The lines of the messages, in order. */
  function Lines(target: Target, vs: seq<Json.Value>): (r: seq<string>)
    ensures |r| == |vs|
  {
    if vs == [] then [] else [Line(target, vs[0])] + Lines(target, vs[1..])
  }

  /** The states the logger reaches: it has stopped writing exactly when a
      limit without kill was reached. */
  predicate Reachable(cfg: Config, st: State) {
    st.keepLogging <==> !(cfg.limit.Some? && !cfg.kill && st.counter >= Max(cfg.limit.value, 1))
  }

  /** One message from a reachable state, with no write failing, does what
      the reference says and reaches a reachable state. */
  lemma StepIsExpected(cfg: Config, target: Target, st: State, line: string, writeFails: bool)
    requires Reachable(cfg, st)
    requires target == File ==> !writeFails
    ensures var s := Step(cfg, target, st, line, writeFails);
      && s.events == Expected(cfg, st.counter + 1, line)
      && !s.stopped && Reachable(cfg, s.state)
  {
  }

  /** When no write fails, the logger does exactly what the reference
      says, message by message, and handles every message. */
  lemma {:induction false} RunIsExpected(cfg: Config, target: Target, st: State, lines: seq<string>, failing: set<nat>)
    requires Reachable(cfg, st)
    requires WritesSucceed(target, failing, st.counter, |lines|)
    ensures var r := Run(cfg, target, st, lines, failing);
      && r.events == ExpectedRun(cfg, st.counter, lines)
      && !r.stopped && r.state.counter == st.counter + |lines|
    decreases |lines|
  {
    if lines != [] {
      var fails := st.counter + 1 in failing;
      assert target == File ==> !fails;
      var s := Step(cfg, target, st, lines[0], fails);
      StepIsExpected(cfg, target, st, lines[0], fails);
      assert WritesSucceed(target, failing, s.state.counter, |lines[1..]|);
      RunIsExpected(cfg, target, s.state, lines[1..], failing);
      var rest := Run(cfg, target, s.state, lines[1..], failing);
      assert Run(cfg, target, st, lines, failing) == Stepped(s.events + rest.events, rest.state, rest.stopped);
    }
  }

  /** A write error on the file ends the logger when the message that
      fails is still written and no `KilledByLogger` is due for it: the
      error is the last event and later messages are not handled. */
  lemma FailureEnds(cfg: Config, st: State, line: string, lines: seq<string>, failing: set<nat>)
    requires st.keepLogging && st.counter + 1 in failing
    requires !(cfg.kill && (cfg.limit.None? || AtLimit(cfg, st.counter + 1)))
    ensures Run(cfg, File, st, [line] + lines, failing) ==
      Stepped([Failed], State(st.counter + 1, !(AtLimit(cfg, st.counter + 1) && !cfg.kill)), true)
  {
    assert ([line] + lines)[0] == line;
  }

  /** The lines written, in order. */
  function Written(events: seq<Event>): seq<string> {
    if events == [] then []
    else (if events[0].Write? then [events[0].line] else []) + Written(events[1..])
  }

  function Kills(events: seq<Event>): nat {
    if events == [] then 0 else (if events[0].Kill? then 1 else 0) + Kills(events[1..])
  }

  lemma {:induction false} WrittenAppend(a: seq<Event>, b: seq<Event>)
    ensures Written(a + b) == Written(a) + Written(b)
    decreases |a|
  {
    if a == [] {
      assert a + b == b;
    } else {
      assert (a + b)[0] == a[0] && (a + b)[1..] == a[1..] + b;
      WrittenAppend(a[1..], b);
    }
  }

  lemma {:induction false} KillsAppend(a: seq<Event>, b: seq<Event>)
    ensures Kills(a + b) == Kills(a) + Kills(b)
    decreases |a|
  {
    if a == [] {
      assert a + b == b;
    } else {
      assert (a + b)[0] == a[0] && (a + b)[1..] == a[1..] + b;
      KillsAppend(a[1..], b);
    }
  }

  /** Without kill the reference never sends `KilledByLogger`. */
  lemma {:induction false} NoKillWithoutKill(cfg: Config, counter: nat, lines: seq<string>)
    requires !cfg.kill
    ensures Kills(ExpectedRun(cfg, counter, lines)) == 0
    decreases |lines|
  {
    if lines != [] {
      NoKillWithoutKill(cfg, counter + 1, lines[1..]);
      var head := Expected(cfg, counter + 1, lines[0]);
      KillsAppend(head, ExpectedRun(cfg, counter + 1, lines[1..]));
      assert Kills(head) == 0 by {
        if head != [] {
          assert head == [Write(lines[0])];
        }
      }
    }
  }

  /** The number of messages, of `count` numbered from `counter + 1`, that
      a limit without kill still lets through. */
  function Allowed(limit: nat, counter: nat, count: nat): nat {
    var left := if Max(limit, 1) >= counter then Max(limit, 1) - counter else 0;
    if count <= left then count else left
  }

  lemma ExpectedWithLimitHead(limit: nat, n: nat, line: string)
    ensures Written(Expected(Config(Some(limit), false), n, line)) == (if n <= Max(limit, 1) then [line] else [])
  {
    var e := Expected(Config(Some(limit), false), n, line);
    if n <= Max(limit, 1) {
      assert e == [Write(line)];
      assert e[1..] == [];
    } else {
      assert e == [];
    }
  }

  lemma AllowedStep(limit: nat, counter: nat, count: nat)
    ensures Allowed(limit, counter, count + 1) ==
      (if counter + 1 <= Max(limit, 1) then 1 + Allowed(limit, counter + 1, count) else 0)
  {
  }

  lemma PrefixCons(x: string, xs: seq<string>, k: nat)
    requires k <= |xs|
    ensures ([x] + xs)[..k + 1] == [x] + xs[..k]
  {
  }

  lemma {:induction false} ExpectedWithLimit(limit: nat, counter: nat, lines: seq<string>)
    ensures Written(ExpectedRun(Config(Some(limit), false), counter, lines)) == lines[..Allowed(limit, counter, |lines|)]
    decreases |lines|
  {
    if lines != [] {
      var cfg := Config(Some(limit), false);
      var rest := lines[1..];
      var head := Expected(cfg, counter + 1, lines[0]);
      var tail := ExpectedRun(cfg, counter + 1, rest);
      assert ExpectedRun(cfg, counter, lines) == head + tail;
      ExpectedWithLimit(limit, counter + 1, rest);
      ExpectedWithLimitHead(limit, counter + 1, lines[0]);
      WrittenAppend(head, tail);
      AllowedStep(limit, counter, |rest|);
      if counter + 1 <= Max(limit, 1) {
        assert lines == [lines[0]] + rest;
        PrefixCons(lines[0], rest, Allowed(limit, counter + 1, |rest|));
      }
    }
  }

  /** With a limit `L` and no kill, exactly the first messages are written,
      as many as `L` but at least one, and the test is never killed. The
      counter is compared with the limit only after the message is
      written, so a limit of 0 still lets the first message through. */
  lemma LimitWithoutKill(limit: nat, target: Target, vs: seq<Json.Value>, failing: set<nat>)
    requires WritesSucceed(target, failing, 0, |vs|)
    ensures var r := Log(Config(Some(limit), false), target, vs, failing);
      && Written(r.events) == Lines(target, vs)[..if |vs| <= Max(limit, 1) then |vs| else Max(limit, 1)]
      && Kills(r.events) == 0
  {
    RunIsExpected(Config(Some(limit), false), target, Initial, Lines(target, vs), failing);
    ExpectedWithLimit(limit, 0, Lines(target, vs));
    NoKillWithoutKill(Config(Some(limit), false), 0, Lines(target, vs));
  }

  /** The number of messages, of `count` numbered from `counter + 1`, that
      reach `limit`. */
  function Reaching(limit: nat, counter: nat, count: nat): nat {
    if counter + count < limit then 0
    else if counter + 1 >= limit then count
    else counter + count - limit + 1
  }

  lemma {:induction false} ExpectedWithKill(limit: Option<nat>, counter: nat, lines: seq<string>)
    ensures var e := ExpectedRun(Config(limit, true), counter, lines);
      && Written(e) == lines
      && Kills(e) == (if limit.None? then |lines| else Reaching(limit.value, counter, |lines|))
    decreases |lines|
  {
    if lines != [] {
      var cfg := Config(limit, true);
      var head := Expected(cfg, counter + 1, lines[0]);
      ExpectedWithKill(limit, counter + 1, lines[1..]);
      WrittenAppend(head, ExpectedRun(cfg, counter + 1, lines[1..]));
      KillsAppend(head, ExpectedRun(cfg, counter + 1, lines[1..]));
      WrittenAppend([Write(lines[0])], if cfg.limit.None? || counter + 1 >= cfg.limit.value then [Kill] else []);
      KillsAppend([Write(lines[0])], if cfg.limit.None? || counter + 1 >= cfg.limit.value then [Kill] else []);
      assert lines == [lines[0]] + lines[1..];
    }
  }

  /** With kill set, every message is written. With a limit `L`, one
      `KilledByLogger` is sent for each message from the `L`-th on; with no
      limit, one after every message. */
  lemma KillWritesEverything(limit: Option<nat>, target: Target, vs: seq<Json.Value>, failing: set<nat>)
    requires WritesSucceed(target, failing, 0, |vs|)
    ensures var r := Log(Config(limit, true), target, vs, failing);
      && Written(r.events) == Lines(target, vs)
      && Kills(r.events) == (if limit.None? then |vs| else Reaching(limit.value, 0, |vs|))
      && (limit.Some? && |vs| >= limit.value ==> Kills(r.events) == |vs| - Max(limit.value, 1) + 1)
  {
    RunIsExpected(Config(limit, true), target, Initial, Lines(target, vs), failing);
    ExpectedWithKill(limit, 0, Lines(target, vs));
  }

  lemma {:induction false} ExpectedUnlimited(counter: nat, lines: seq<string>)
    ensures Written(ExpectedRun(Config(None, false), counter, lines)) == lines
    decreases |lines|
  {
    if lines != [] {
      ExpectedUnlimited(counter + 1, lines[1..]);
      WrittenAppend([Write(lines[0])], ExpectedRun(Config(None, false), counter + 1, lines[1..]));
      assert lines == [lines[0]] + lines[1..];
    }
  }

  /** With neither a limit nor kill, every message is written and the test
      is never killed. */
  lemma UnlimitedWritesEverything(target: Target, vs: seq<Json.Value>, failing: set<nat>)
    requires WritesSucceed(target, failing, 0, |vs|)
    ensures var r := Log(Config(None, false), target, vs, failing);
      Written(r.events) == Lines(target, vs) && Kills(r.events) == 0
  {
    RunIsExpected(Config(None, false), target, Initial, Lines(target, vs), failing);
    ExpectedUnlimited(0, Lines(target, vs));
    NoKillWithoutKill(Config(None, false), 0, Lines(target, vs));
  }
}
