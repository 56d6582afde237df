/** What the TCP framer guarantees over a whole stream, however it was chunked. */
module TcpStream {
  import opened Text
  import opened Utf8
  import opened TcpFraming

  lemma {:induction false} FindPrefix<T>(a: seq<T>, b: seq<T>, p: seq<T>)
    requires p != [] && Find(a, p) >= 0
    ensures Find(a + b, p) == Find(a, p)
    decreases |a|
  {
    if !(p <= a) {
      assert (a + b)[1..] == a[1..] + b;
      FindPrefix(a[1..], b, p);
    }
    assert p <= a + b <==> p <= a;
  }

  // ---------- One round ----------

  /** Bytes that arrive later do not change where a complete header block says its message ends. */
  lemma ExtentPrefix(p: seq<Byte>, q: seq<Byte>)
    requires Extent(p).Some?
    ensures Extent(p + q) == Extent(p) && Find(p + q, DELIM) == Find(p, DELIM)
  {
    hide Decode, SplitOn, LengthOf;
    FindPrefix(p, q, DELIM);
    var i := Find(p, DELIM);
    assert (p + q)[..i + 4] == p[..i + 4];
  }

  /** A round either leaves fewer bytes or leaves the buffer as it was, and then it would never end. */
  lemma CutProgress(buf: seq<Byte>)
    requires Cut(buf).Some?
    ensures |Cut(buf).value.1| < |buf| <==> Extent(buf).value > 0 || 0 < -Extent(buf).value < |buf|
    ensures Cut(buf) == Some(([], buf)) <==> Extent(buf).value == 0 || -Extent(buf).value >= |buf|
  {
    hide Extent;
    var e := Extent(buf).value;
    var k := SliceIndex(|buf|, e);
    assert Extent(buf).Some? ==> buf != [] by { ExtentNonempty(buf); }
    assert buf[..k] == [] <==> k == 0;
    assert k == 0 ==> buf[k..] == buf;
  }

  lemma ExtentNonempty(buf: seq<Byte>)
    ensures Extent(buf).Some? ==> |buf| >= 4
  {
    hide Decode, SplitOn, LengthOf;
  }

  /** With a length of at least zero the message cut off is exactly the announced one. */
  lemma CutExact(buf: seq<Byte>)
    requires Extent(buf).Some? && Find(buf, DELIM) + 4 <= Extent(buf).value <= |buf|
    ensures Cut(buf) == Some((buf[..Extent(buf).value], buf[Extent(buf).value..]))
  {
    hide Extent;
  }

  lemma FramableCut(buf: seq<Byte>)
    requires Framable(buf) && Cut(buf).Some?
    ensures Extent(buf).Some? && Find(buf, DELIM) + 4 <= Extent(buf).value <= |buf| && Framable(Cut(buf).value.1)
  {
    hide Extent, Find;
  }

  lemma CutPrefix(p: seq<Byte>, q: seq<Byte>)
    requires Extent(p).Some? && Find(p, DELIM) + 4 <= Extent(p).value <= |p|
    ensures Cut(p).Some? && Cut(p + q) == Some((Cut(p).value.0, Cut(p).value.1 + q))
  {
    hide Extent, Find, Cut;
    ExtentPrefix(p, q);
    CutExact(p);
    CutExact(p + q);
    var e := Extent(p).value;
    assert (p + q)[..e] == p[..e];
    assert (p + q)[e..] == p[e..] + q;
  }

  lemma FramableStep(buf: seq<Byte>)
    requires Extent(buf).Some? && Find(buf, DELIM) + 4 <= Extent(buf).value <= |buf|
    requires Cut(buf).Some? && Framable(Cut(buf).value.1)
    ensures Framable(buf)
  {
    CutExact(buf);
    assert Find(buf, DELIM) >= -1;
    hide Extent, Find, Cut;
  }

  // ---------- When the loop ends ----------

  /** The buffer after n rounds; None once the loop has stopped. */
  function AfterRounds(buf: seq<Byte>, n: nat): Option<seq<Byte>>
    decreases n
  {
    if n == 0 then Some(buf)
    else
      var c :- Cut(buf);
      AfterRounds(c.1, n - 1)
  }

  lemma {:induction false} Stuck(buf: seq<Byte>, n: nat)
    requires Cut(buf).Some? && Cut(buf).value.1 == buf
    ensures AfterRounds(buf, n) == Some(buf)
    decreases n
  {
    hide Cut;
    if n > 0 { Stuck(buf, n - 1); }
  }

  lemma {:induction false} EndsStops(buf: seq<Byte>) returns (n: nat)
    requires Ends(buf)
    ensures AfterRounds(buf, n) == None
    decreases |buf|
  {
    hide Cut;
    if Cut(buf).None? {
      n := 1;
    } else {
      var m := EndsStops(Cut(buf).value.1);
      n := m + 1;
    }
  }

  lemma {:induction false} StopsEnds(buf: seq<Byte>, n: nat)
    requires AfterRounds(buf, n) == None
    ensures Ends(buf)
    decreases n
  {
    hide Cut;
    if Cut(buf).Some? {
      ShrinksOrStays(buf);
      StopsEnds(Cut(buf).value.1, n - 1);
      if Cut(buf).value.1 == buf {
        Stuck(buf, n);
        assert false;
      }
    }
  }

  lemma ShrinksOrStays(buf: seq<Byte>)
    requires Cut(buf).Some?
    ensures |Cut(buf).value.1| < |buf| || Cut(buf).value.1 == buf
  {
    hide Cut, Extent;
    CutProgress(buf);
  }

  /** The loop stops after some round exactly when every round shrinks the buffer. */
  lemma EndsExact(buf: seq<Byte>)
    ensures Ends(buf) <==> exists n: nat :: AfterRounds(buf, n) == None
  {
    hide Cut, Ends;
    if Ends(buf) { var n := EndsStops(buf); }
    if n: nat :| AfterRounds(buf, n) == None { StopsEnds(buf, n); }
  }

  // ---------- The whole buffer ----------

  /** No byte is lost, invented or reordered. */
  lemma {:induction false} FramesConserve(buf: seq<Byte>)
    requires Ends(buf)
    ensures Concat(Frames(buf).0) + Frames(buf).1 == buf
    decreases |buf|
  {
    hide Ends, Frames, Cut;
    FramesStep(buf);
    if Cut(buf).Some? {
      var m, rest := Cut(buf).value.0, Cut(buf).value.1;
      CutConserves(buf);
      FramesConserve(rest);
      var fs := Frames(rest).0;
      assert ([m] + fs)[0] == m && ([m] + fs)[1..] == fs;
      assert (m + Concat(fs)) + Frames(rest).1 == m + (Concat(fs) + Frames(rest).1);
    }
  }

  lemma CutConserves(buf: seq<Byte>)
    requires Cut(buf).Some?
    ensures Cut(buf).value.0 + Cut(buf).value.1 == buf
  {
    hide Extent;
  }

  /** Framing what has arrived and then the rest is framing everything at once. */
  lemma {:induction false} FramesConcat(p: seq<Byte>, q: seq<Byte>)
    requires Framable(p + q)
    ensures Framable(p) && Framable(Frames(p).1 + q)
    ensures Frames(p + q) == (Frames(p).0 + Frames(Frames(p).1 + q).0, Frames(Frames(p).1 + q).1)
    decreases |p|
  {
    hide Framable, Frames, Cut, Extent, Find;
    var c := Cut(p);
    if c.None? {
      FramableNone(p);
      FramesStep(p);
      assert [] + Frames(p + q).0 == Frames(p + q).0;
    } else {
      var m, rest := c.value.0, c.value.1;
      CutSome(p);
      ExtentPrefix(p, q);
      CutSome(p + q);
      FramableCut(p + q);
      CutPrefix(p, q);
      FramesStep(p + q);
      CutExact(p);
      FramesConcat(rest, q);
      FramableStep(p);
      FramesStep(p);
      var later := Frames(Frames(rest).1 + q).0;
      assert [m] + (Frames(rest).0 + later) == ([m] + Frames(rest).0) + later;
    }
  }

  lemma CutSome(buf: seq<Byte>)
    ensures Cut(buf).Some? <==> Extent(buf).Some? && Extent(buf).value <= |buf|
  {
    hide Extent;
  }

  lemma FramableNone(buf: seq<Byte>)
    requires Cut(buf).None?
    ensures Framable(buf)
  {
    hide Cut;
  }

  // ---------- Any sequence of chunks ----------

  /** The protocol object fed one chunk after the other: all deliveries and the final buffer. */
  function Deliver(residue: seq<Byte>, chunks: seq<seq<Byte>>): (r: (seq<seq<Byte>>, seq<Byte>))
    requires Framable(residue + Concat(chunks))
    decreases |chunks|
  {
    if chunks == [] then ([], residue)
    else
      DeliverStep(residue, chunks);
      var now := Frames(residue + chunks[0]);
      var later := Deliver(now.1, chunks[1..]);
      (now.0 + later.0, later.1)
  }

  lemma DeliverStep(residue: seq<Byte>, chunks: seq<seq<Byte>>)
    requires chunks != [] && Framable(residue + Concat(chunks))
    ensures Framable(residue + chunks[0])
    ensures Framable(Frames(residue + chunks[0]).1 + Concat(chunks[1..]))
  {
    var p, q := residue + chunks[0], Concat(chunks[1..]);
    assert residue + Concat(chunks) == p + q;
    hide Framable, Frames, Concat;
    FramesConcat(p, q);
  }

  /** The messages delivered depend on the bytes alone, not on how they were chunked. */
  lemma {:induction false} ChunkingIrrelevant(residue: seq<Byte>, chunks: seq<seq<Byte>>)
    requires Settled(residue)
    requires Framable(residue + Concat(chunks))
    ensures Deliver(residue, chunks) == Frames(residue + Concat(chunks))
    decreases |chunks|
  {
    if chunks == [] {
      assert residue + Concat(chunks) == residue;
      hide Cut;
      assert Frames(residue) == ([], residue);
    } else {
      var p, q := residue + chunks[0], Concat(chunks[1..]);
      assert residue + Concat(chunks) == p + q;
      DeliverStep(residue, chunks);
      assert Deliver(residue, chunks)
        == (Frames(p).0 + Deliver(Frames(p).1, chunks[1..]).0, Deliver(Frames(p).1, chunks[1..]).1);
      hide Framable, Frames, Concat, Cut, Deliver;
      FramesConcat(p, q);
      ResidueSettled(p);
      ChunkingIrrelevant(Frames(p).1, chunks[1..]);
    }
  }

  /** A buffer with no complete message in it, as the loop leaves it. */
  predicate Settled(buf: seq<Byte>) { Cut(buf).None? }

  lemma {:induction false} ResidueSettled(buf: seq<Byte>)
    requires Ends(buf)
    ensures Settled(Frames(buf).1)
    decreases |buf|
  {
    hide Ends, Frames, Cut;
    FramesStep(buf);
    if Cut(buf).Some? { ResidueSettled(Cut(buf).value.1); }
  }
}
