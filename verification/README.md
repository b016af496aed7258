# Connection: a channel-multiplexed line transport, modelled in Dafny

A `Connection` carries JSON messages over one socket, one message per line.
Every message names a *channel*. Code that wants the messages of a channel
registers a `ReceiveListener` for it. The connection's background read loop
parses each incoming line, looks up the listeners of the message's channel
and calls each of them in registration order. `write` serialises a message
and sends it followed by CR LF.

The model covers four parts of `Connection`:

- The listener registry (`onMessage`, `removeMessageListener`). This is a map
  from channel name to an ordered list of listeners, and it is updated in
  place. Its invariant: a channel that is present has a non-empty list.
- The dispatch rules of the read loop (`run`). Lines are handled in input
  order. A line's listeners are called once per entry, in list order. A line
  whose channel has no listeners is skipped. The loop stops at the end of the
  input or at the first failure.
- The outbound framing of `write`: the serialised text, then CR LF.
- The inverse of that framing. The peer splits the stream into lines the
  way `BufferedReader.readLine` does. Writing then reading gives back the
  messages that were written.

Files:

- `wrappers.dfy`: `Option`. Java's `null` is `None`.
- `registry.dfy` (module `Registry`): the registry as map values.
  `Register` and `Unregister` are the specification functions for the two
  mutating methods. `RemoveFirst` models `List.remove(Object)`. The
  registry lemmas are here too.
- `framing.dfy` (module `Framing`): `Frame`, `Frames`, and the line splitter
  `ReadLines`, with the round-trip lemmas.
- `read_loop.dfy` (module `ReadLoop`): the parsed `Record` and how its
  `channel` field is read. Also `Deliver` (the inner `for` loop), `Step`
  (one iteration of the `while` loop), `Dispatch` (the whole loop) and the
  lemmas about dispatch.
- `connection.dfy` (module `Net`): `class Connection`. It has the fields
  `listeners` and `out`, and a ghost field `sent` that lists the messages
  written so far. The methods `OnMessage`, `RemoveMessageListener`, `Write`,
  `Run` and `Notify` (the `for` loop of `run`) are each proved against the
  functions above. The file ends with the end-to-end lemmas.

Modelling choices:

- A listener is a `nat` identity. Java's default `equals` is identity, so
  "first equal listener" means "first entry with the same identity".
- JSON parsing (`JSONValue.parse`) and serialisation (`toJSONString`) are
  library calls. They are parameters: `parse: string -> Option<Record>` and
  `serialize: Record -> string`. `parse` returns `None` when the line does not
  yield a JSON object. In the source that case ends in a `NullPointerException`
  or a `ClassCastException`, and either one leaves the loop.
- Whether a listener's `onReceive` throws is a parameter
  `throws: (Listener, Record) -> bool`.
- The `channel` field is read with `(String) obj.get("channel")`. There are
  three cases, in `ReadLoop.ChannelField`:
  - `Missing`: the lookup is done with `null`, no list is found, and the
    line is skipped.
  - `Name(c)`: the normal case.
  - `NotText`: the cast throws, and the loop stops as `Malformed`.
- Fail-fast, as the code does it. One `catch` (Connection.java:110) wraps
  the whole `while` loop, so a listener that throws ends the read loop and no
  later line is dispatched. The listeners after it on the same list are not
  called either. The listener that threw was called, so its call is in the
  trace. A fail-soft policy would catch each listener's exception and go
  on with the next listener and the next line; the code does not.
- `ReadLoop.Status.NoFailure` means "no line failed". For the whole loop it
  means the input ran out; for one line (`Step`) it means the loop goes on
  to the next line.

## Model

| member | source | states |
|---|---|---|
| `Registry.Register` | src/main/java/io/coinswap/net/Connection.java:41-57 | the channel is present afterwards; its list is the old list (empty if the channel was absent) with the listener appended at the end; every other channel keeps its list; the non-empty-lists invariant is preserved |
| `Registry.Unregister` | src/main/java/io/coinswap/net/Connection.java:59-70 | an unknown channel, or a listener not on the channel's non-empty list, leaves the registry unchanged; otherwise the channel's list is `RemoveFirst` of the old one, and the channel is present afterwards exactly when that list is non-empty; no key is added; every other channel keeps its list; the invariant is preserved |
| `Registry.RemoveFirst` | src/main/java/io/coinswap/net/Connection.java:65 | a list without the listener is returned unchanged; otherwise the result is one element shorter |
| `Registry.RemoveFirstCutsFirstIndex` | src/main/java/io/coinswap/net/Connection.java:65 | the element removed is the first occurrence, and the other elements keep their order: the result is the list with position `FirstIndex` cut out |
| `Registry.RemoveFirstMultiset` | src/main/java/io/coinswap/net/Connection.java:65 | exactly one copy of the listener is removed, and every other entry stays (multiset difference) |
| `Registry.RegistrationOrder` | src/main/java/io/coinswap/net/Connection.java:46-53 | registering a sequence of listeners one after another leaves the channel's old list followed by exactly that sequence, in order and with repeats; other channels are unchanged |
| `Registry.RegisterThenUnregister` | src/main/java/io/coinswap/net/Connection.java:41-70 | registering a listener that is not already on the channel and then removing it restores the registry exactly, including removing a channel the registration created |
| `Registry.UnregisterTwice` | src/main/java/io/coinswap/net/Connection.java:62-66 | when the listener is on the channel at most once, a second removal changes nothing (a repeated removal is a no-op) |
| `Framing.Frame` | src/main/java/io/coinswap/net/Connection.java:78-79 | the frame of one message is the serialised text followed by exactly CR LF: two characters longer, with nothing else added |
| `Framing.Frames` | src/main/java/io/coinswap/net/Connection.java:78-79 | the wire text of a sequence of writes is empty exactly when nothing was written, and otherwise ends with CR LF, so it never ends inside a message |
| `Framing.FramesSnoc` | src/main/java/io/coinswap/net/Connection.java:78-79 | one more write extends the wire text by exactly that message's frame, after all earlier frames |
| `Framing.ReadLines` | src/main/java/io/coinswap/net/Connection.java:91 | every line the reader returns is free of CR and LF |
| `Framing.ReadFrame` | src/main/java/io/coinswap/net/Connection.java:78-79 | a frame (text without terminators, then CR LF) is read back as exactly that one line, and reading continues right after the CR LF |
| `Framing.ReadFrames` | src/main/java/io/coinswap/net/Connection.java:78-79 | round trip: when no message holds a raw terminator, reading the frames of a sequence of messages gives back that sequence |
| `ReadLoop.Recipients` | src/main/java/io/coinswap/net/Connection.java:98-103 | the lookup `listeners.get((String) obj.get("channel"))` with the null test: the registered list for a registered string channel, and the empty list (no calls) when the channel is missing or not registered |
| `ReadLoop.NullIsEmptyList` | src/main/java/io/coinswap/net/Connection.java:98-103 | under the registry invariant, the list used is empty exactly when the lookup returns null, so treating null as the empty list loses nothing |
| `ReadLoop.Deliver` | src/main/java/io/coinswap/net/Connection.java:103-108 | the `for` loop over one list: it makes at most one call per entry; with no thrower it makes exactly one call per entry; a thrower is an entry of the list and did throw on the record |
| `ReadLoop.Step` | src/main/java/io/coinswap/net/Connection.java:92-108 | one iteration of the `while` loop, reading one line: a parse giving no object, or a channel that is not a string, gives `Malformed` with no calls; otherwise the calls are those of `Deliver` over `Recipients` for the record's channel, and the status is `ListenerThrew` of the thrower if one threw, else `NoFailure` |
| `ReadLoop.DeliverInOrder` | src/main/java/io/coinswap/net/Connection.java:103-108 | for one record, the list's entries are called in list order, once per entry; with no thrower, all are called and none threw; otherwise the calls stop at, and include, the first entry that throws |
| `ReadLoop.DeliverUnique` | src/main/java/io/coinswap/net/Connection.java:103-108 | the description in `DeliverInOrder` determines the calls and the thrower completely |
| `ReadLoop.Dispatch` | src/main/java/io/coinswap/net/Connection.java:91-110 | the loop reads at most all the lines; it reads all of them when it ends at end of input; when it ends in a failure it has read at least one line |
| `ReadLoop.OnlyRegisteredInvoked` | src/main/java/io/coinswap/net/Connection.java:95-106 | every call goes to a listener on the list registered for the channel named in the record it receives |
| `ReadLoop.DispatchAppend` | src/main/java/io/coinswap/net/Connection.java:91-110 | lines are handled in input order: running over `a + b` runs over `a` and, only if that ended without failure, continues over `b` |
| `ReadLoop.FailureIsFinal` | src/main/java/io/coinswap/net/Connection.java:91-112 | after a failure no later line is dispatched: appending lines changes neither the calls nor the line count nor the status |
| `ReadLoop.FailingLine` | src/main/java/io/coinswap/net/Connection.java:91-112 | when the loop stops early, the last line read is the one that failed: every earlier line went through, that line's step failed, and the result is exactly those earlier lines followed by that step |
| `ReadLoop.DispatchOneRecord` | src/main/java/io/coinswap/net/Connection.java:98-108 | a record on a channel whose listeners do not throw calls each entry of the channel's list once, in list order, and the loop goes on |
| `ReadLoop.UnregisteredChannelSkipped` | src/main/java/io/coinswap/net/Connection.java:98-109 | a record whose channel has no listeners calls nothing, and the loop moves on to the next line with the rest of the input handled as usual |
| `ReadLoop.DispatchFollowsRegistration` | src/main/java/io/coinswap/net/Connection.java:103-107 | after registering a sequence of listeners on a new channel, a record on it reaches them in registration order, once per registration |
| `ReadLoop.RegisterThenUnregisterNeverInvoked` | src/main/java/io/coinswap/net/Connection.java:62-66 | a listener registered and then removed again is never called for a message on that channel, whatever lines arrive |
| `Net.Connection.constructor` | src/main/java/io/coinswap/net/Connection.java:29-39 | a new connection has an empty registry and has written nothing |
| `Net.Connection.OnMessage` | src/main/java/io/coinswap/net/Connection.java:41-57 | the registry becomes `Register` of the old registry, so the `Register` properties hold of the field; the class invariant holds |
| `Net.Connection.RemoveMessageListener` | src/main/java/io/coinswap/net/Connection.java:59-70 | the registry becomes `Unregister` of the old registry, so the `Unregister` properties hold of the field; the class invariant holds |
| `Net.Connection.Write` | src/main/java/io/coinswap/net/Connection.java:72-86 | the output grows by exactly the serialised message followed by CR LF and nothing else; the registry is not touched; the output stays the frames of all messages sent, in order |
| `Net.Connection.Run` | src/main/java/io/coinswap/net/Connection.java:88-112 | the calls made, the number of lines read and the reason for stopping are exactly those `Dispatch` gives for the current registry |
| `Net.Connection.Notify` | src/main/java/io/coinswap/net/Connection.java:103-108 | the calls made and the listener that threw, if any, are exactly those of `Deliver` |
| `Net.PeerReadsWhatWasWritten` | src/main/java/io/coinswap/net/Connection.java:78-79 | a peer splitting this connection's output into lines reads exactly the messages written, in order, when no message holds a raw terminator |
| `Net.WrittenRecordReachesListener` | src/main/java/io/coinswap/net/Connection.java:72-108 | end to end: a record written on a channel where the peer has one listener reaches that listener exactly once with the same record, and the peer's loop goes on |

## Left out

- Threads and the lock (`ReentrantLock`, `Thread`). The operations are
  taken one at a time. `Run` reads a registry that does not change while it
  runs. So the model does not cover registrations by other threads while a
  line is dispatched. It also does not cover a listener that re-enters
  `onMessage` or `removeMessageListener`. In the source, line 98 hands out
  the live list, so such a change is seen during iteration, or the `for`
  loop throws `ConcurrentModificationException`.
- `Net.Connection.Run`: the lines come in as a finite sequence. Blocking
  reads, I/O errors on read, and `socket.isConnected()` are not modelled.
  A read error ends the loop just as the end of the input does.
- The socket, the `BufferedReader` and `BufferedWriter` objects, `flush`,
  and the `close` calls in the `finally` block. The model does not track
  whether the connection is closed after `run` ends.
- `Net.Connection.Write`: I/O errors inside `write` are not modelled. The
  source catches and logs them, and the output may then hold part of a line.
  The `(JSONObject)` cast on the argument is not modelled either.
- JSON parsing and serialisation (json-smart). They are the parameters
  `parse` and `serialize`. The model does not prove that serialised text has
  no raw line terminators: the framing round trip takes that as a
  precondition.
- Registry.UnregisterTwice: requires that the listener is on the channel at
  most once, because the source's removal is not idempotent with duplicates:
  after a listener is registered twice, a second `removeMessageListener`
  (Connection.java:65) removes the second copy.
- Registry.RegisterThenUnregister: requires that the listener was not already
  on the channel, because `List.remove` takes out the first (oldest) equal
  entry: registering a listener that is already on the channel and then
  removing it removes the older entry and keeps the new one at the end of
  the list, so the registry is not restored and the listener is still called. The same precondition is on
  ReadLoop.RegisterThenUnregisterNeverInvoked.
- A listener is modelled as a `throws` predicate. It is not a callback with
  its own state, so a listener cannot throw on some calls and not on others
  for the same record.
- A `null` channel name passed to `onMessage`: channel names here are
  strings, so no registration matches the `null` lookup of a message without
  a `channel` field.
- Logging, `printStackTrace`, `PORT` and `getSocket`: they carry no logic.
