/**
 * The TCP framer (tinysip/transport.py): bytes arrive in chunks of any size and complete
 * messages leave, cut after the header block plus the length it announces.
 */
module TcpFraming {
  import opened Text
  import opened Utf8

  const DELIM: seq<Byte> := [13, 10, 13, 10]
  const LENGTH_TAG: string := "content-length:"

  // ---------- What one header block announces ----------

  predicate IsLengthLine(line: string) {
    |line| >= |LENGTH_TAG| && Lower(line[..|LENGTH_TAG|]) == LENGTH_TAG
  }

  /** The first Content-Length line whose value reads as an integer decides; none means 0. */
  function LengthOf(lines: seq<string>): int {
    if lines == [] then 0
    else if IsLengthLine(lines[0]) && ParseInt(lines[0][|LENGTH_TAG|..]).Some? then
      ParseInt(lines[0][|LENGTH_TAG|..]).value
    else LengthOf(lines[1..])
  }

  /** Where the message at the front of the buffer ends, once its header block is complete. */
  function Extent(buf: seq<Byte>): Option<int> {
    var i := Find(buf, DELIM);
    if i < 0 then None
    else Some(i + 4 + LengthOf(SplitOn(Decode(buf[..i + 4]), CRLF)))
  }

  // ---------- One round of the loop ----------

  /** Python's `buf[:n]` and `buf[n:]` split at this index. */
  function SliceIndex(len: nat, n: int): (k: nat)
    ensures k <= len
  {
    if n < 0 then (if len + n < 0 then 0 else len + n) else if n < len then n else len
  }

  /** The message cut off the front and what is left, or None when more bytes are needed. */
  function Cut(buf: seq<Byte>): (r: Option<(seq<Byte>, seq<Byte>)>)
    ensures r.Some? ==> r.value.0 + r.value.1 == buf
  {
    var e := Extent(buf);
    if e.None? || |buf| < e.value then None
    else
      var k := SliceIndex(|buf|, e.value);
      Some((buf[..k], buf[k..]))
  }

  /** The loop ends: every round that cuts something off leaves fewer bytes. */
  predicate Ends(buf: seq<Byte>)
    decreases |buf|
  {
    var c := Cut(buf);
    c.Some? ==> |c.value.1| < |buf| && Ends(c.value.1)
  }

  /** Every message cut from the buffer announces a length of at least zero. */
  predicate Framable(buf: seq<Byte>): (r: bool)
    ensures r ==> Ends(buf)
    decreases |buf|
  {
    var c := Cut(buf);
    c.Some? ==> |c.value.1| < |buf| && Find(buf, DELIM) + 4 <= Extent(buf).value && Framable(c.value.1)
  }

  /** All messages the loop cuts from the buffer, and the bytes it keeps. */
  function Frames(buf: seq<Byte>): (r: (seq<seq<Byte>>, seq<Byte>))
    requires Ends(buf)
    decreases |buf|
  {
    var c := Cut(buf);
    if c.None? then ([], buf)
    else
      var rest := Frames(c.value.1);
      ([c.value.0] + rest.0, rest.1)
  }

  function Concat(parts: seq<seq<Byte>>): seq<Byte> {
    if parts == [] then [] else parts[0] + Concat(parts[1..])
  }

  lemma FramesStep(buf: seq<Byte>)
    requires Ends(buf)
    ensures Cut(buf).None? ==> Frames(buf) == ([], buf)
    ensures Cut(buf).Some? ==>
              && Ends(Cut(buf).value.1)
              && |Cut(buf).value.1| < |buf|
              && Frames(buf) == ([Cut(buf).value.0] + Frames(Cut(buf).value.1).0, Frames(Cut(buf).value.1).1)
  {
    hide Cut, Extent, Find;
  }

  // ---------- The protocol object ----------

  method ContentLength(head: string) returns (n: int)
    ensures n == LengthOf(SplitOn(head, CRLF))
  {
    var lines := SplitOn(head, CRLF);
    n := 0;
    assert lines[0..] == lines;
    for i := 0 to |lines|
      invariant n == 0 && LengthOf(lines) == LengthOf(lines[i..])
    {
      assert lines[i..][0] == lines[i] && lines[i..][1..] == lines[i + 1..];
      if IsLengthLine(lines[i]) {
        var v := ParseInt(lines[i][|LENGTH_TAG|..]);
        if v.Some? { return v.value; }
      }
    }
  }

  class TcpProtocol {
    var buffer: seq<Byte>
    var delivered: seq<seq<Byte>>

    constructor ()
      ensures buffer == [] && delivered == []
    {
      buffer, delivered := [], [];
    }

    /** One chunk from the socket, if the loop over it ends: every complete message is handed on, in order. */
    method DataReceived(data: seq<Byte>)
      requires Ends(buffer + data)
      modifies this
      ensures delivered == old(delivered) + Frames(old(buffer) + data).0
      ensures buffer == Frames(old(buffer) + data).1
    {
      hide Find, LengthOf, SplitOn, Decode, SliceIndex, Ends, Frames;
      buffer := buffer + data;
      ghost var all := buffer;
      while Find(buffer, DELIM) >= 0
        invariant Ends(buffer)
        invariant delivered + Frames(buffer).0 == old(delivered) + Frames(all).0
        invariant Frames(buffer).1 == Frames(all).1
        decreases |buffer|
      {
        FramesStep(buffer);
        var headerEnd := Find(buffer, DELIM) + 4;
        var length := ContentLength(Decode(buffer[..headerEnd]));
        var total := headerEnd + length;
        if |buffer| < total { break; }
        var k := SliceIndex(|buffer|, total);
        var message, rest := buffer[..k], buffer[k..];
        assert Cut(buffer) == Some((message, rest));
        ghost var later := Frames(rest).0;
        assert delivered + ([message] + later) == (delivered + [message]) + later;
        delivered := delivered + [message];
        buffer := rest;
      }
      FramesStep(buffer);
      assert delivered + [] == delivered;
    }
  }
}
