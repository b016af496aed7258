/**
 * The connection object: its listener registry, its outbound line writer and
 * its read loop, as one class whose fields the operations update in place.
 * The socket, the lock and the reader thread are not part of the model: the
 * operations are taken one at a time, and the lines the reader would obtain
 * from the socket are given to `Run` as a sequence.
 */
module Net {
  import opened Wrappers
  import opened Registry
  import opened Framing
  import opened ReadLoop

  class Connection {
    /** channel -> listeners, in registration order */
    var listeners: Listeners
    /** everything written to the outbound stream so far */
    var out: string
    /** the serialised messages written so far, in order */
    ghost var sent: seq<string>

    ghost predicate Valid()
      reads this
    {
      NonEmptyLists(listeners) && out == Frames(sent)
    }

    /** A fresh connection: no listeners, nothing written. */
    constructor ()
      ensures Valid()
      ensures listeners == map[] && out == [] && sent == []
    {
      listeners := map[];
      out := [];
      sent := [];
    }

    /** `onMessage(channel, listener)`: append the listener to the channel's list. */
    method OnMessage(channel: Channel, listener: Listener)
      requires Valid()
      modifies this`listeners
      ensures Valid()
      ensures listeners == Register(old(listeners), channel, listener)
    {
      var list: seq<Listener>;
      if channel !in listeners {
        list := [];
      } else {
        list := listeners[channel];
      }
      listeners := listeners[channel := list + [listener]];
    }

    /**
     * `removeMessageListener(channel, listener)`: drop the first equal
     * listener, and the channel once its list is empty.
     */
    method RemoveMessageListener(channel: Channel, listener: Listener)
      requires Valid()
      modifies this`listeners
      ensures Valid()
      ensures listeners == Unregister(old(listeners), channel, listener)
    {
      if channel !in listeners {
        return;
      }
      var list := RemoveFirst(listeners[channel], listener);
      listeners := listeners[channel := list];
      if list == [] {
        listeners := listeners - {channel};
      }
    }

    /**
     * `write(obj)`: the serialised message, then CR LF, are appended to the
     * output, and nothing else is.
     */
    method Write(obj: Record, serialize: Record -> string)
      requires Valid()
      modifies this`out, this`sent
      ensures Valid()
      ensures out == old(out) + serialize(obj) + CRLF
      ensures sent == old(sent) + [serialize(obj)]
    {
      var data := serialize(obj);
      ghost var written := out;
      out := out + data;
      out := out + CRLF;
      assert out == written + Frame(data);
      FramesSnoc(sent, data);
      sent := sent + [data];
    }

    /**
     * The read loop of `run`: read each line in turn, parse it, look up the
     * channel's listeners and notify them; stop at the end of the input or
     * at the first failure.
     */
    method Run(lines: seq<string>, parse: string -> Option<Record>, throws: (Listener, Record) -> bool)
      returns (r: RunResult)
      ensures r == Dispatch(listeners, lines, parse, throws)
    {
      var calls: seq<Invocation> := [];
      var status := NoFailure;
      var i := 0;
      while i < |lines| && status == NoFailure
        invariant i <= |lines|
        invariant Dispatch(listeners, lines, parse, throws)
          == Continue(RunResult(calls, i, status), Dispatch(listeners, lines[i..], parse, throws))
      {
        var data := lines[i];
        ghost var before := RunResult(calls, i, status);
        ghost var rest := Dispatch(listeners, lines[i + 1..], parse, throws);
        assert lines[i..] == [data] + lines[i + 1..];
        var step: RunResult;
        match parse(data) {
          case None =>
            step := RunResult([], 1, Malformed);
          case Some(obj) =>
            if obj.channel.NotText? {
              step := RunResult([], 1, Malformed);
            } else {
              var channelListeners: Option<seq<Listener>> := None;
              if obj.channel.Name? && obj.channel.name in listeners {
                channelListeners := Some(listeners[obj.channel.name]);
              }
              var delivered: seq<Invocation> := [];
              var thrower: Option<Listener> := None;
              if channelListeners.Some? {
                delivered, thrower := Notify(channelListeners.value, obj, throws);
              }
              step := RunResult(delivered, 1, if thrower.Some? then ListenerThrew(thrower.value) else NoFailure);
            }
        }
        assert step == Step(listeners, data, parse, throws);
        ContinueAssoc(before, step, rest);
        calls, i, status := calls + step.calls, i + 1, step.status;
      }
      if status == NoFailure {
        assert lines[i..] == [];
        assert calls + [] == calls;
      }
      r := RunResult(calls, i, status);
    }

    /**
     * The `for` loop of `run`: invoke each listener of the list in turn with
     * the record; a listener that throws ends the loop.
     */
    method Notify(list: seq<Listener>, obj: Record, throws: (Listener, Record) -> bool)
      returns (calls: seq<Invocation>, thrower: Option<Listener>)
      ensures Delivery(calls, thrower) == Deliver(list, obj, throws)
    {
      calls, thrower := [], None;
      var j := 0;
      while j < |list| && thrower.None?
        invariant j <= |list|
        invariant calls == Calls(list[..j], obj)
        invariant thrower.None? ==> forall k :: 0 <= k < j ==> !throws(list[k], obj)
        invariant thrower.Some? ==>
          && 0 < j
          && thrower.value == list[j - 1]
          && throws(list[j - 1], obj)
          && forall k :: 0 <= k < j - 1 ==> !throws(list[k], obj)
      {
        var listener := list[j];
        assert Calls(list[..j + 1], obj) == Calls(list[..j], obj) + [Invocation(listener, obj)];
        calls := calls + [Invocation(listener, obj)];
        if throws(listener, obj) {
          thrower := Some(listener);
        }
        j := j + 1;
      }
      DeliverUnique(list, obj, throws, calls, thrower);
    }
  }

  /** The peer reads back, line by line, exactly the messages written, in order. */
  lemma PeerReadsWhatWasWritten(conn: Connection)
    requires conn.Valid()
    requires forall k :: 0 <= k < |conn.sent| ==> SingleLine(conn.sent[k])
    ensures ReadLines(conn.out) == conn.sent
  {
    ReadFrames(conn.sent);
  }

  /**
   * End to end: one message written on a channel where the peer registered a
   * single listener reaches that listener exactly once, with the record that
   * was written.
   */
  lemma WrittenRecordReachesListener(reg: Listeners, c: Channel, l: Listener, rec: Record,
                                     serialize: Record -> string, parse: string -> Option<Record>,
                                     throws: (Listener, Record) -> bool)
    requires rec.channel == Name(c) && ListFor(reg, c) == [l] && !throws(l, rec)
    requires SingleLine(serialize(rec)) && parse(serialize(rec)) == Some(rec)
    ensures Dispatch(reg, ReadLines(Frame(serialize(rec))), parse, throws)
      == RunResult([Invocation(l, rec)], 1, NoFailure)
  {
    ReadFrame(serialize(rec), []);
    assert Frame(serialize(rec)) + [] == Frame(serialize(rec));
    DispatchOneRecord(reg, serialize(rec), rec, c, parse, throws);
  }
}
