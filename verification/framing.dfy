/**
 * Line framing on the wire. `write` emits each serialised message followed
 * by CR LF; the peer's read loop splits the byte stream back into lines with
 * `BufferedReader.readLine`, which ends a line at LF, at CR, or at CR LF.
 */
module Framing {

  /** The terminator `write` puts after every message. */
  const CRLF: string := "\r\n"

  predicate IsLineBreak(ch: char)
  {
    ch == '\r' || ch == '\n'
  }

  /** Text that holds no line terminator, so it travels as one line. */
  predicate SingleLine(s: string)
  {
    forall i :: 0 <= i < |s| ==> !IsLineBreak(s[i])
  }

  /** What `write` puts on the wire for one serialised message. */
  function Frame(data: string): (line: string)
    ensures |line| == |data| + 2
    ensures line[..|data|] == data && line[|data|..] == CRLF
  {
    data + CRLF
  }

  /** What a sequence of `write` calls puts on the wire, in call order. */
  function Frames(ds: seq<string>): (wire: string)
    ensures ds == [] <==> wire == []
    ensures ds != [] ==> |wire| >= 2 && wire[|wire| - 2..] == CRLF
  {
    if ds == [] then [] else Frame(ds[0]) + Frames(ds[1..])
  }

  /** Writing one more message extends the wire text by exactly its frame. */
  lemma {:induction false} FramesSnoc(ds: seq<string>, d: string)
    ensures Frames(ds + [d]) == Frames(ds) + Frame(d)
  {
    if ds != [] {
      assert (ds + [d])[1..] == ds[1..] + [d];
      FramesSnoc(ds[1..], d);
    }
  }

  /** Length of the line at the head of `s`: the position of the first terminator, or |s|. */
  function LineEnd(s: string): (i: nat)
    ensures i <= |s|
    ensures SingleLine(s[..i])
    ensures i < |s| ==> IsLineBreak(s[i])
  {
    if s == [] || IsLineBreak(s[0]) then 0
    else
      var j := LineEnd(s[1..]);
      assert s[..j + 1] == [s[0]] + s[1..][..j];
      j + 1
  }

  /**
   * The lines `readLine` returns, one call after another, until it returns
   * null at the end of the stream. A terminator is CR, LF or CR LF; a last
   * line without a terminator is still returned.
   */
  function ReadLines(s: string): (lines: seq<string>)
    ensures forall k :: 0 <= k < |lines| ==> SingleLine(lines[k])
    decreases |s|
  {
    if s == [] then []
    else
      var i := LineEnd(s);
      var next :=
        if i == |s| then |s|
        else if s[i] == '\r' && i + 1 < |s| && s[i + 1] == '\n' then i + 2
        else i + 1;
      [s[..i]] + ReadLines(s[next..])
  }

  /** A frame is read back as exactly the one line it carries. */
  lemma ReadFrame(d: string, rest: string)
    requires SingleLine(d)
    ensures ReadLines(Frame(d) + rest) == [d] + ReadLines(rest)
  {
    var s := Frame(d) + rest;
    assert s[..|d|] == d;
    assert s[|d|] == '\r' && s[|d| + 1] == '\n';
    assert LineEnd(s) == |d|;
    assert s[|d| + 2..] == rest;
  }

  /**
   * The framing round trip: when no message holds a raw terminator, the
   * peer reads back exactly the messages written, in order, one per line.
   */
  lemma {:induction false} ReadFrames(ds: seq<string>)
    requires forall k :: 0 <= k < |ds| ==> SingleLine(ds[k])
    ensures ReadLines(Frames(ds)) == ds
  {
    if ds != [] {
      ReadFrames(ds[1..]);
      ReadFrame(ds[0], Frames(ds[1..]));
    }
  }
}
