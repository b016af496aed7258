/**
 * The read loop of a connection (`run`), taken sequentially: every inbound
 * line is parsed, the listeners registered for its channel are looked up and
 * each is invoked in list order. One `catch` wraps the whole loop, so the
 * first line that does not parse to an object, or whose channel is not a
 * string, and the first listener that throws, end the loop.
 *
 * JSON parsing is a parameter `parse`; whether a listener throws on a record
 * is a parameter `throws`.
 */
module ReadLoop {
  import opened Wrappers
  import opened Registry

  /** The `channel` field of a parsed message, as `(String) obj.get("channel")` yields it. */
  datatype ChannelField =
    | Missing              // no such key: the lookup is done with null, which is never registered
    | Name(name: Channel)
    | NotText              // a value of another JSON type: the cast throws ClassCastException

  /** A parsed message: its channel and the other fields, which the connection never reads. */
  datatype Record = Record(channel: ChannelField, fields: map<string, string>)

  /** One call `listener.onReceive(record)`. */
  datatype Invocation = Invocation(listener: Listener, record: Record)

  /**
   * How handling ended. For the whole loop, `NoFailure` means the input ran
   * out with every line dispatched; for one line (`Step`), it means the loop
   * goes on to the next line. The two failures name the last line read.
   */
  datatype Status =
    | NoFailure
    | Malformed                         // the line did not give a record with a usable channel
    | ListenerThrew(listener: Listener) // a listener threw while the line was dispatched

  /** The calls made, the number of lines read, and how reading ended. */
  datatype RunResult = RunResult(calls: seq<Invocation>, read: nat, status: Status)

  /** The calls made for one record, and the listener that threw, if one did. */
  datatype Delivery = Delivery(calls: seq<Invocation>, thrower: Option<Listener>)

  /**
   * The listeners `listeners.get(channel)` hands to the loop: the list
   * registered for a string channel; a null result (the channel is missing
   * or unregistered) is the empty list.
   */
  function Recipients(reg: Listeners, ch: ChannelField): (r: seq<Listener>)
    ensures ch.Name? && ch.name in reg ==> r == reg[ch.name]
    ensures !(ch.Name? && ch.name in reg) ==> r == []
  {
    match ch
    case Name(c) => ListFor(reg, c)
    case _ => []
  }

  /**
   * Taking null as the empty list loses nothing: under the registry
   * invariant the list is empty exactly when `listeners.get` finds nothing.
   */
  lemma NullIsEmptyList(reg: Listeners, ch: ChannelField)
    requires NonEmptyLists(reg)
    ensures Recipients(reg, ch) == [] <==> !(ch.Name? && ch.name in reg)
  {
  }

  /** One call per entry of `list`, in list order, all with the same record. */
  function Calls(list: seq<Listener>, rec: Record): seq<Invocation>
  {
    seq(|list|, k requires 0 <= k < |list| => Invocation(list[k], rec))
  }

  /**
   * The inner `for` loop: each listener of `list` is invoked in turn, once
   * per entry, until one of them throws; that one was invoked too.
   */
  function Deliver(list: seq<Listener>, rec: Record, throws: (Listener, Record) -> bool): (d: Delivery)
    ensures |d.calls| <= |list|
    ensures d.thrower.None? ==> |d.calls| == |list|
    ensures d.thrower.Some? ==> d.thrower.value in list && throws(d.thrower.value, rec)
  {
    if list == [] then Delivery([], None)
    else if throws(list[0], rec) then Delivery([Invocation(list[0], rec)], Some(list[0]))
    else
      var rest := Deliver(list[1..], rec, throws);
      Delivery([Invocation(list[0], rec)] + rest.calls, rest.thrower)
  }

  /**
   * What the inner loop does for one record: the entries of `list` are
   * invoked in list order, once per entry; with no thrower all of them are,
   * otherwise exactly those up to and including the first entry that throws.
   */
  lemma {:induction false} DeliverInOrder(list: seq<Listener>, rec: Record, throws: (Listener, Record) -> bool)
    ensures var d := Deliver(list, rec, throws);
      && d.calls == Calls(list[..|d.calls|], rec)
      && (d.thrower.None? ==>
            |d.calls| == |list| && forall k :: 0 <= k < |list| ==> !throws(list[k], rec))
      && (d.thrower.Some? ==>
            && 0 < |d.calls|
            && d.thrower.value == list[|d.calls| - 1]
            && throws(list[|d.calls| - 1], rec)
            && forall k :: 0 <= k < |d.calls| - 1 ==> !throws(list[k], rec))
  {
    if list != [] && !throws(list[0], rec) {
      DeliverInOrder(list[1..], rec, throws);
      var rest := Deliver(list[1..], rec, throws);
      var n := |rest.calls|;
      assert [Invocation(list[0], rec)] + rest.calls == Calls(list[..n + 1], rec);
    } else if list != [] {
      assert Calls(list[..1], rec) == [Invocation(list[0], rec)];
    }
  }

  /**
   * The description DeliverInOrder gives of a delivery fits no other one:
   * calls and thrower that match it are those of `Deliver`.
   */
  lemma DeliverUnique(list: seq<Listener>, rec: Record, throws: (Listener, Record) -> bool,
                      calls: seq<Invocation>, thrower: Option<Listener>)
    requires |calls| <= |list| && calls == Calls(list[..|calls|], rec)
    requires thrower.None? ==>
      |calls| == |list| && forall k :: 0 <= k < |list| ==> !throws(list[k], rec)
    requires thrower.Some? ==>
      && 0 < |calls|
      && thrower.value == list[|calls| - 1]
      && throws(list[|calls| - 1], rec)
      && forall k :: 0 <= k < |calls| - 1 ==> !throws(list[k], rec)
    ensures Deliver(list, rec, throws) == Delivery(calls, thrower)
  {
    var d := Deliver(list, rec, throws);
    DeliverInOrder(list, rec, throws);
    assert |calls| == |d.calls|;
  }

  /**
   * One iteration of the `while` loop for a line already read. A line that
   * does not parse to an object, or whose channel is not a string, fails as
   * `Malformed` with no call made. Otherwise the record goes to the
   * listeners `Recipients` finds, through `Deliver`; a listener that throws
   * fails the line as `ListenerThrew`, and `NoFailure` means the loop goes
   * on to the next line.
   */
  function Step(reg: Listeners, line: string, parse: string -> Option<Record>,
                throws: (Listener, Record) -> bool): (r: RunResult)
    ensures r.read == 1
    ensures parse(line).None? ==> r == RunResult([], 1, Malformed)
    ensures parse(line).Some? && parse(line).value.channel.NotText? ==> r == RunResult([], 1, Malformed)
    ensures parse(line).Some? && !parse(line).value.channel.NotText? ==>
      var rec := parse(line).value;
      var d := Deliver(Recipients(reg, rec.channel), rec, throws);
      && r.calls == d.calls
      && r.status == (if d.thrower.Some? then ListenerThrew(d.thrower.value) else NoFailure)
  {
    match parse(line)
    case None => RunResult([], 1, Malformed)
    case Some(rec) =>
      if rec.channel.NotText? then RunResult([], 1, Malformed)
      else
        var d := Deliver(Recipients(reg, rec.channel), rec, throws);
        RunResult(d.calls, 1, if d.thrower.Some? then ListenerThrew(d.thrower.value) else NoFailure)
  }

  /** `a` followed by `b`: `b` runs on the lines after those `a` read. */
  function Then(a: RunResult, b: RunResult): RunResult
  {
    RunResult(a.calls + b.calls, a.read + b.read, b.status)
  }

  /** The loop goes on to `rest` only when `done` ended without a failure. */
  function Continue(done: RunResult, rest: RunResult): RunResult
  {
    if done.status != NoFailure then done else Then(done, rest)
  }

  /**
   * The read loop over the lines the peer sent: it reads the next line while
   * there is one and every earlier line was dispatched without failure.
   */
  function Dispatch(reg: Listeners, lines: seq<string>, parse: string -> Option<Record>,
                    throws: (Listener, Record) -> bool): (r: RunResult)
    ensures r.read <= |lines|
    ensures r.status == NoFailure ==> r.read == |lines|
    ensures r.status != NoFailure ==> 0 < r.read
    decreases |lines|
  {
    if lines == [] then RunResult([], 0, NoFailure)
    else Continue(Step(reg, lines[0], parse, throws), Dispatch(reg, lines[1..], parse, throws))
  }

  /** Every call in `calls` goes to a listener registered for the channel of the record it carries. */
  ghost predicate OnlyRecipients(reg: Listeners, calls: seq<Invocation>)
  {
    forall k :: 0 <= k < |calls| ==> calls[k].listener in Recipients(reg, calls[k].record.channel)
  }

  /** Every call made for one line goes to a listener of the record's channel. */
  lemma StepInvokesRecipients(reg: Listeners, line: string, parse: string -> Option<Record>,
                              throws: (Listener, Record) -> bool)
    ensures OnlyRecipients(reg, Step(reg, line, parse, throws).calls)
  {
    var r := Step(reg, line, parse, throws);
    if r.calls != [] {
      var rec := parse(line).value;
      var list := Recipients(reg, rec.channel);
      DeliverInOrder(list, rec, throws);
      forall k | 0 <= k < |r.calls|
        ensures r.calls[k].listener in Recipients(reg, r.calls[k].record.channel)
      {
        assert r.calls[k] == Invocation(list[k], rec);
      }
    }
  }

  /**
   * Only registered listeners are invoked: every call goes to a listener on
   * the list of the channel named in the record it receives.
   */
  lemma {:induction false} OnlyRegisteredInvoked(reg: Listeners, lines: seq<string>,
                                                 parse: string -> Option<Record>, throws: (Listener, Record) -> bool)
    ensures OnlyRecipients(reg, Dispatch(reg, lines, parse, throws).calls)
    decreases |lines|
  {
    if lines != [] {
      var first, rest := Step(reg, lines[0], parse, throws), Dispatch(reg, lines[1..], parse, throws);
      StepInvokesRecipients(reg, lines[0], parse, throws);
      OnlyRegisteredInvoked(reg, lines[1..], parse, throws);
      var r := Dispatch(reg, lines, parse, throws);
      if first.status == NoFailure {
        assert r.calls == first.calls + rest.calls;
        forall k | 0 <= k < |r.calls|
          ensures r.calls[k].listener in Recipients(reg, r.calls[k].record.channel)
        {
          if k < |first.calls| {
            assert r.calls[k] == first.calls[k];
          } else {
            assert r.calls[k] == rest.calls[k - |first.calls|];
          }
        }
      }
    }
  }

  lemma ThenAssoc(x: RunResult, y: RunResult, z: RunResult)
    ensures Then(Then(x, y), z) == Then(x, Then(y, z))
  {
    assert (x.calls + y.calls) + z.calls == x.calls + (y.calls + z.calls);
  }

  lemma ContinueAssoc(x: RunResult, y: RunResult, z: RunResult)
    ensures Continue(x, Continue(y, z)) == Continue(Continue(x, y), z)
  {
  }

  /**
   * Lines are handled in input order: running over `a + b` is running over
   * `a` and, only if that did not fail, then over `b`.
   */
  lemma {:induction false} DispatchAppend(reg: Listeners, a: seq<string>, b: seq<string>,
                                          parse: string -> Option<Record>, throws: (Listener, Record) -> bool)
    ensures Dispatch(reg, a + b, parse, throws) ==
      Continue(Dispatch(reg, a, parse, throws), Dispatch(reg, b, parse, throws))
    decreases |a|
  {
    var rb := Dispatch(reg, b, parse, throws);
    if a == [] {
      assert a + b == b;
      assert rb == Then(RunResult([], 0, NoFailure), rb);
    } else {
      assert (a + b)[0] == a[0];
      assert (a + b)[1..] == a[1..] + b;
      DispatchAppend(reg, a[1..], b, parse, throws);
      ContinueAssoc(Step(reg, a[0], parse, throws), Dispatch(reg, a[1..], parse, throws), rb);
    }
  }

  /** No line after a failure is dispatched: whatever follows changes nothing. */
  lemma FailureIsFinal(reg: Listeners, a: seq<string>, b: seq<string>,
                       parse: string -> Option<Record>, throws: (Listener, Record) -> bool)
    requires Dispatch(reg, a, parse, throws).status != NoFailure
    ensures Dispatch(reg, a + b, parse, throws) == Dispatch(reg, a, parse, throws)
  {
    DispatchAppend(reg, a, b, parse, throws);
  }

  /**
   * When the loop stops early, it stops at the last line it read: every
   * earlier line was dispatched without failure and that line's step failed.
   */
  lemma {:induction false} FailingLine(reg: Listeners, lines: seq<string>,
                                       parse: string -> Option<Record>, throws: (Listener, Record) -> bool)
    requires Dispatch(reg, lines, parse, throws).status != NoFailure
    ensures var r := Dispatch(reg, lines, parse, throws);
      var i := r.read - 1;
      && Dispatch(reg, lines[..i], parse, throws).status == NoFailure
      && Step(reg, lines[i], parse, throws).status != NoFailure
      && r == Then(Dispatch(reg, lines[..i], parse, throws), Step(reg, lines[i], parse, throws))
    decreases |lines|
  {
    var first := Step(reg, lines[0], parse, throws);
    if first.status != NoFailure {
      assert lines[..0] == [];
      assert first == Then(RunResult([], 0, NoFailure), first);
    } else {
      var tail := lines[1..];
      FailingLine(reg, tail, parse, throws);
      var j := Dispatch(reg, tail, parse, throws).read - 1;
      FailingLineStep(reg, lines, j, parse, throws);
    }
  }

  /** The inductive step of FailingLine: a line that went through is put in front. */
  lemma FailingLineStep(reg: Listeners, lines: seq<string>, j: nat,
                        parse: string -> Option<Record>, throws: (Listener, Record) -> bool)
    requires 0 < |lines| && j + 1 < |lines|
    requires Step(reg, lines[0], parse, throws).status == NoFailure
    requires Dispatch(reg, lines[1..], parse, throws) ==
      Then(Dispatch(reg, lines[1..][..j], parse, throws), Step(reg, lines[1..][j], parse, throws))
    ensures Dispatch(reg, lines[..j + 1], parse, throws) ==
      Then(Step(reg, lines[0], parse, throws), Dispatch(reg, lines[1..][..j], parse, throws))
    ensures Dispatch(reg, lines, parse, throws) ==
      Then(Dispatch(reg, lines[..j + 1], parse, throws), Step(reg, lines[j + 1], parse, throws))
  {
    var first, tail := Step(reg, lines[0], parse, throws), lines[1..];
    var before, last := Dispatch(reg, tail[..j], parse, throws), Step(reg, tail[j], parse, throws);
    var prefix := lines[..j + 1];
    assert prefix[0] == lines[0] && prefix[1..] == tail[..j];
    assert Dispatch(reg, prefix, parse, throws) == Then(first, before);
    assert lines[j + 1] == tail[j];
    calc {
      Dispatch(reg, lines, parse, throws);
      Continue(first, Dispatch(reg, tail, parse, throws));
      Then(first, Then(before, last));
      { ThenAssoc(first, before, last); }
      Then(Then(first, before), last);
    }
  }

  /**
   * One record on a registered channel whose listeners do not throw: each
   * entry of the channel's list is invoked once, in list order, and the loop
   * goes on reading.
   */
  lemma DispatchOneRecord(reg: Listeners, line: string, rec: Record, c: Channel,
                          parse: string -> Option<Record>, throws: (Listener, Record) -> bool)
    requires parse(line) == Some(rec) && rec.channel == Name(c)
    requires forall k :: 0 <= k < |ListFor(reg, c)| ==> !throws(ListFor(reg, c)[k], rec)
    ensures Dispatch(reg, [line], parse, throws) == RunResult(Calls(ListFor(reg, c), rec), 1, NoFailure)
  {
    var list := ListFor(reg, c);
    DeliverInOrder(list, rec, throws);
    var d := Deliver(list, rec, throws);
    assert list[..|d.calls|] == list;
    assert [line][1..] == [];
  }

  /**
   * A record whose channel has no listeners invokes nothing, and the loop
   * moves on to the next line.
   */
  lemma UnregisteredChannelSkipped(reg: Listeners, line: string, rec: Record, rest: seq<string>,
                                   parse: string -> Option<Record>, throws: (Listener, Record) -> bool)
    requires parse(line) == Some(rec) && !rec.channel.NotText?
    requires Recipients(reg, rec.channel) == []
    ensures var r := Dispatch(reg, rest, parse, throws);
      Dispatch(reg, [line] + rest, parse, throws) == RunResult(r.calls, r.read + 1, r.status)
  {
  }

  /**
   * Dispatch order is registration order: after `ls` is registered on a
   * fresh channel, a record on that channel reaches the entries of `ls` in
   * order, once per registration.
   */
  lemma DispatchFollowsRegistration(m: Listeners, c: Channel, ls: seq<Listener>, line: string, rec: Record,
                                    parse: string -> Option<Record>, throws: (Listener, Record) -> bool)
    requires c !in m
    requires parse(line) == Some(rec) && rec.channel == Name(c)
    requires forall k :: 0 <= k < |ls| ==> !throws(ls[k], rec)
    ensures Dispatch(RegisterEach(m, c, ls), [line], parse, throws) == RunResult(Calls(ls, rec), 1, NoFailure)
  {
    RegistrationOrder(m, c, ls);
    DispatchOneRecord(RegisterEach(m, c, ls), line, rec, c, parse, throws);
  }

  /**
   * Registering a listener that was not on channel `c` and removing it again
   * means it is never invoked for a message on `c`, whatever arrives.
   */
  lemma RegisterThenUnregisterNeverInvoked(m: Listeners, c: Channel, l: Listener, lines: seq<string>,
                                           parse: string -> Option<Record>, throws: (Listener, Record) -> bool)
    requires NonEmptyLists(m)
    requires l !in ListFor(m, c)
    ensures var r := Dispatch(Unregister(Register(m, c, l), c, l), lines, parse, throws);
      forall k :: 0 <= k < |r.calls| && r.calls[k].record.channel == Name(c) ==> r.calls[k].listener != l
  {
    RegisterThenUnregister(m, c, l);
    OnlyRegisteredInvoked(m, lines, parse, throws);
  }
}
