/**
 * The channel -> listener registry of a connection, as values: the
 * `HashMap<String, List<ReceiveListener>>` of Connection.java and the two
 * operations that mutate it (`onMessage`, `removeMessageListener`).
 * The class in connection.dfy holds one of these maps and is specified
 * by the functions here.
 */
module Registry {

  /** A channel name: the routing key carried in every message. */
  type Channel = string

  /**
   * A ReceiveListener reference. Java's default `equals` is identity, so a
   * listener is modelled by an opaque identity compared with `==`.
   */
  type Listener = nat

  type Listeners = map<Channel, seq<Listener>>

  /** The registry invariant: a channel that is present has at least one listener. */
  ghost predicate NonEmptyLists(m: Listeners)
  {
    forall c :: c in m ==> m[c] != []
  }

  /** The list registered for `c`, or the empty list when `c` is absent. */
  function ListFor(m: Listeners, c: Channel): seq<Listener>
  {
    if c in m then m[c] else []
  }

  /** Number of times `x` occurs in `s`. */
  function Count(s: seq<Listener>, x: Listener): nat
  {
    multiset(s)[x]
  }

  /** Position of the first occurrence of `x` in `s`. */
  function FirstIndex(s: seq<Listener>, x: Listener): (i: nat)
    requires x in s
    ensures i < |s| && s[i] == x
    ensures x !in s[..i]
  {
    if s[0] == x then 0
    else
      assert x in s[1..] by { var k :| 0 <= k < |s| && s[k] == x; assert s[1..][k - 1] == x; }
      var j := FirstIndex(s[1..], x);
      assert s[..j + 1] == [s[0]] + s[1..][..j];
      j + 1
  }

  /**
   * `List.remove(Object)` on the listener list: drops the first element equal
   * to `x`; a list without `x` is returned unchanged.
   */
  function RemoveFirst(s: seq<Listener>, x: Listener): (r: seq<Listener>)
    ensures x !in s ==> r == s
    ensures |r| == if x in s then |s| - 1 else |s|
  {
    if s == [] then []
    else if s[0] == x then s[1..]
    else
      assert x in s ==> x in s[1..];
      [s[0]] + RemoveFirst(s[1..], x)
  }

  /** Exactly one copy of `x` goes, and every other listener stays. */
  lemma {:induction false} RemoveFirstMultiset(s: seq<Listener>, x: Listener)
    ensures multiset(RemoveFirst(s, x)) == multiset(s) - multiset{x}
  {
    if s != [] {
      assert s == [s[0]] + s[1..];
      if s[0] != x {
        RemoveFirstMultiset(s[1..], x);
      }
    }
  }

  /**
   * The element removed is the FIRST occurrence, and the order of the others
   * is kept: the result is the list with position `FirstIndex(s, x)` cut out.
   */
  lemma {:induction false} RemoveFirstCutsFirstIndex(s: seq<Listener>, x: Listener)
    requires x in s
    ensures RemoveFirst(s, x) == s[..FirstIndex(s, x)] + s[FirstIndex(s, x) + 1..]
  {
    if s[0] != x {
      assert x in s[1..] by { var k :| 0 <= k < |s| && s[k] == x; assert s[1..][k - 1] == x; }
      RemoveFirstCutsFirstIndex(s[1..], x);
      var i, j := FirstIndex(s, x), FirstIndex(s[1..], x);
      assert i == j + 1;
      assert s[..i] == [s[0]] + s[1..][..j];
      assert s[i + 1..] == s[1..][j + 1..];
      assert RemoveFirst(s, x) == [s[0]] + RemoveFirst(s[1..], x);
    }
  }

  /**
   * `onMessage(channel, listener)`: the listener is appended at the end of the
   * channel's list, which is created when the channel was absent; no other
   * channel changes.
   */
  function Register(m: Listeners, c: Channel, l: Listener): (r: Listeners)
    ensures r.Keys == m.Keys + {c}
    ensures r[c] == ListFor(m, c) + [l]
    ensures forall d :: d in m && d != c ==> r[d] == m[d]
    ensures NonEmptyLists(m) ==> NonEmptyLists(r)
  {
    m[c := ListFor(m, c) + [l]]
  }

  /**
   * `removeMessageListener(channel, listener)`: an unknown channel is left
   * alone; otherwise the first equal listener is removed from the channel's
   * list and the channel disappears when its list becomes empty; no other
   * channel changes.
   */
  function Unregister(m: Listeners, c: Channel, l: Listener): (r: Listeners)
    ensures c !in m ==> r == m
    ensures c in m && l !in m[c] && m[c] != [] ==> r == m
    ensures c in m ==> (c in r <==> RemoveFirst(m[c], l) != [])
    ensures c in r ==> r[c] == RemoveFirst(m[c], l)
    ensures r.Keys <= m.Keys
    ensures forall d :: d in m && d != c ==> d in r && r[d] == m[d]
    ensures NonEmptyLists(m) ==> NonEmptyLists(r)
  {
    if c !in m then m
    else
      var rest := RemoveFirst(m[c], l);
      if rest == [] then m - {c} else m[c := rest]
  }

  /** Registering each of `ls` in turn on channel `c`. */
  function RegisterEach(m: Listeners, c: Channel, ls: seq<Listener>): Listeners
    decreases |ls|
  {
    if ls == [] then m
    else RegisterEach(Register(m, c, ls[0]), c, ls[1..])
  }

  /**
   * Dispatch order is registration order: registering `ls` one after another
   * on a channel leaves exactly `ls`, in that order and with repetitions,
   * after whatever the channel held before.
   */
  lemma {:induction false} RegistrationOrder(m: Listeners, c: Channel, ls: seq<Listener>)
    decreases |ls|
    ensures ListFor(RegisterEach(m, c, ls), c) == ListFor(m, c) + ls
    ensures forall d :: d in m && d != c ==> d in RegisterEach(m, c, ls) && RegisterEach(m, c, ls)[d] == m[d]
  {
    if ls != [] {
      var m' := Register(m, c, ls[0]);
      RegistrationOrder(m', c, ls[1..]);
      assert ListFor(m', c) + ls[1..] == ListFor(m, c) + ls by {
        assert ls == [ls[0]] + ls[1..];
      }
    }
  }

  /** Removing what was just appended gives the list back. */
  lemma RemoveFirstAppended(s: seq<Listener>, l: Listener)
    requires l !in s
    ensures RemoveFirst(s + [l], l) == s
  {
    var t := s + [l];
    assert t[|s|] == l;
    assert t[..|s|] == s;
    assert FirstIndex(t, l) == |s|;
    RemoveFirstCutsFirstIndex(t, l);
  }

  /**
   * Registering a listener that is not already on channel `c` and then
   * removing it restores the registry exactly, including the absence of a
   * channel that was created by the registration.
   */
  lemma RegisterThenUnregister(m: Listeners, c: Channel, l: Listener)
    requires NonEmptyLists(m)
    requires l !in ListFor(m, c)
    ensures Unregister(Register(m, c, l), c, l) == m
  {
    var r := Register(m, c, l);
    RemoveFirstAppended(ListFor(m, c), l);
    var u := Unregister(r, c, l);
    assert u.Keys == m.Keys;
    forall d | d in m ensures u[d] == m[d] { }
  }

  /**
   * Removal is a no-op once the listener is gone: when `l` appears at most
   * once on `c`, a second removal changes nothing.
   */
  lemma UnregisterTwice(m: Listeners, c: Channel, l: Listener)
    requires c in m ==> Count(m[c], l) <= 1
    ensures Unregister(Unregister(m, c, l), c, l) == Unregister(m, c, l)
  {
    var u := Unregister(m, c, l);
    if c in u {
      var r := RemoveFirst(m[c], l);
      RemoveFirstMultiset(m[c], l);
      assert Count(r, l) == 0;
      assert l !in r;
    }
  }
}
