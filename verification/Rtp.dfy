/** RTP packets and the sender's sequence numbers and timestamps (tinysip/media/rtp.py). */
module Rtp {
  import opened Text
  import opened Utf8

  /** Fields are Python integers; masking with 2^k - 1 is the remainder modulo 2^k. */
  datatype Header = Header(
    version: int, padding: int, extension: int, csrcCount: int, marker: int, payloadType: int,
    sequenceNumber: int, timestamp: int, ssrc: int)

  datatype Packet = Packet(header: Header, payload: seq<Byte>)

  const HEADER_SIZE: nat := 12
  const SEQ_MODULUS: nat := 0x1_0000
  const TS_MODULUS: nat := 0x1_0000_0000

  // ---------- Big-endian numbers ----------

  function Be(n: nat, k: nat): (r: seq<Byte>)
    ensures |r| == k
  {
    if k == 0 then [] else Be(n / 256, k - 1) + [n % 256]
  }

  function FromBe(b: seq<Byte>): nat {
    if b == [] then 0 else FromBe(b[..|b| - 1]) * 256 + b[|b| - 1]
  }

  function Pow256(k: nat): nat { if k == 0 then 1 else 256 * Pow256(k - 1) }

  lemma {:induction false} FromBeBe(n: nat, k: nat)
    requires n < Pow256(k)
    ensures FromBe(Be(n, k)) == n
    decreases k
  {
    if k > 0 {
      FromBeBe(n / 256, k - 1);
      var front := Be(n / 256, k - 1);
      assert (front + [n % 256])[..|front|] == front;
    }
  }

  lemma {:induction false} BeFromBe(b: seq<Byte>)
    ensures FromBe(b) < Pow256(|b|) && Be(FromBe(b), |b|) == b
    decreases |b|
  {
    if b != [] {
      var front, last := b[..|b| - 1], b[|b| - 1];
      BeFromBe(front);
      assert FromBe(b) / 256 == FromBe(front) && FromBe(b) % 256 == last;
      assert b == front + [last];
    }
  }

  lemma Powers()
    ensures Pow256(2) == SEQ_MODULUS && Pow256(4) == TS_MODULUS
  {
    assert Pow256(1) == 256 && Pow256(3) == 256 * Pow256(2);
  }

  // ---------- The wire format ----------

  function Flags(h: Header): Byte {
    h.version % 4 * 64 + h.padding % 2 * 32 + h.extension % 2 * 16 + h.csrcCount % 16
  }

  function Kind(h: Header): Byte { h.marker % 2 * 128 + h.payloadType % 128 }

  function Pack(h: Header): (r: seq<Byte>)
    ensures |r| == HEADER_SIZE
  {
    [Flags(h), Kind(h)]
    + (Be(h.sequenceNumber % SEQ_MODULUS, 2) + (Be(h.timestamp % TS_MODULUS, 4) + Be(h.ssrc % TS_MODULUS, 4)))
  }

  /** None is the ValueError of a buffer below twelve bytes. */
  function Unpack(b: seq<Byte>): Option<Header> {
    if |b| < HEADER_SIZE then None
    else
      Some(Header(b[0] as int / 64 % 4, b[0] as int / 32 % 2, b[0] as int / 16 % 2, b[0] as int % 16,
                  b[1] as int / 128 % 2, b[1] as int % 128, FromBe(b[2..4]), FromBe(b[4..8]), FromBe(b[8..12])))
  }

  function ToBytes(p: Packet): seq<Byte> { Pack(p.header) + p.payload }

  function FromBytes(b: seq<Byte>): Option<Packet> {
    var h :- Unpack(b);
    var start := HEADER_SIZE + 4 * h.csrcCount;
    Some(Packet(h, if 0 <= start <= |b| then b[start..] else []))
  }

  /** A header with every field cut to its width. */
  function Reduced(h: Header): Header {
    Header(h.version % 4, h.padding % 2, h.extension % 2, h.csrcCount % 16, h.marker % 2, h.payloadType % 128,
           h.sequenceNumber % SEQ_MODULUS, h.timestamp % TS_MODULUS, h.ssrc % TS_MODULUS)
  }

  lemma FlagsRead(h: Header)
    ensures var f := Flags(h) as int;
      f / 64 % 4 == h.version % 4 && f / 32 % 2 == h.padding % 2 && f / 16 % 2 == h.extension % 2
        && f % 16 == h.csrcCount % 16
  {
    BitsRead(h.version % 4, h.padding % 2, h.extension % 2, h.csrcCount % 16);
  }

  lemma BitsRead(v: int, p: int, x: int, c: int)
    requires 0 <= v < 4 && 0 <= p < 2 && 0 <= x < 2 && 0 <= c < 16
    ensures var f := v * 64 + p * 32 + x * 16 + c;
      f / 64 == v && f / 32 == v * 2 + p && f / 16 == v * 4 + p * 2 + x && f % 16 == c
  {
  }

  lemma FlagsWritten(b: Byte)
    ensures b as int / 64 % 4 * 64 + b as int / 32 % 2 * 32 + b as int / 16 % 2 * 16 + b as int % 16 == b
    ensures b as int / 128 % 2 * 128 + b as int % 128 == b
  {
  }

  lemma KindRead(h: Header)
    ensures Kind(h) as int / 128 % 2 == h.marker % 2 && Kind(h) as int % 128 == h.payloadType % 128
  {
  }

  lemma Part(x: seq<Byte>, y: seq<Byte>, z: seq<Byte>)
    ensures var s := x + (y + z);
      s[..|x|] == x && s[|x|..|x| + |y|] == y && s[|x| + |y|..] == z
  {
  }

  lemma Slices(a: seq<Byte>, b: seq<Byte>, c: seq<Byte>, d: seq<Byte>, rest: seq<Byte>)
    requires |a| == 2 && |b| == 2 && |c| == 4 && |d| == 4
    ensures var s := (a + (b + (c + d))) + rest;
      s[0] == a[0] && s[1] == a[1] && s[2..4] == b && s[4..8] == c && s[8..12] == d && s[12..] == rest
  {
    var s := (a + (b + (c + d))) + rest;
    var ab := a + b;
    var abc := ab + c;
    assert s == a + (b + (c + (d + rest)));
    Part(a, b, c + (d + rest));
    assert s == ab + (c + (d + rest));
    Part(ab, c, d + rest);
    assert s == abc + (d + rest);
    Part(abc, d, rest);
  }

  lemma PackedNumbers(h: Header)
    ensures FromBe(Be(h.sequenceNumber % SEQ_MODULUS, 2)) == h.sequenceNumber % SEQ_MODULUS
    ensures FromBe(Be(h.timestamp % TS_MODULUS, 4)) == h.timestamp % TS_MODULUS
    ensures FromBe(Be(h.ssrc % TS_MODULUS, 4)) == h.ssrc % TS_MODULUS
  {
    hide FromBe, Be, Pow256;
    Powers();
    FromBeBe(h.sequenceNumber % SEQ_MODULUS, 2);
    FromBeBe(h.timestamp % TS_MODULUS, 4);
    FromBeBe(h.ssrc % TS_MODULUS, 4);
  }

  /** Unpacking a packed header gives it back, each field cut to its width, whatever follows. */
  lemma UnpackPack(h: Header, rest: seq<Byte>)
    ensures Unpack(Pack(h) + rest) == Some(Reduced(h)) && (Pack(h) + rest)[HEADER_SIZE..] == rest
  {
    hide Flags, Kind, FromBe, Be, Pow256;
    var s, t, r := Be(h.sequenceNumber % SEQ_MODULUS, 2), Be(h.timestamp % TS_MODULUS, 4), Be(h.ssrc % TS_MODULUS, 4);
    var b := Pack(h) + rest;
    Slices([Flags(h), Kind(h)], s, t, r, rest);
    assert b[0] == Flags(h) && b[1] == Kind(h) && b[2..4] == s && b[4..8] == t && b[8..12] == r;
    PackedNumbers(h);
    FlagsRead(h);
    KindRead(h);
  }

  lemma UnpackedFlags(b: seq<Byte>)
    requires |b| >= HEADER_SIZE
    ensures Flags(Unpack(b).value) == b[0] && Kind(Unpack(b).value) == b[1]
  {
    hide FromBe;
    FlagsWritten(b[0]);
    FlagsWritten(b[1]);
  }

  lemma UnpackedNumbers(b: seq<Byte>)
    requires |b| >= HEADER_SIZE
    ensures var h := Unpack(b).value;
      && h.sequenceNumber % SEQ_MODULUS == FromBe(b[2..4])
      && h.timestamp % TS_MODULUS == FromBe(b[4..8]) && h.ssrc % TS_MODULUS == FromBe(b[8..12])
  {
    hide FromBe, Be, Pow256;
    Powers();
    BeFromBe(b[2..4]);
    BeFromBe(b[4..8]);
    BeFromBe(b[8..12]);
    SeqIs(FromBe(b[2..4]), 0, FromBe(b[2..4]));
    TsIs(FromBe(b[4..8]), 0, FromBe(b[4..8]));
    TsIs(FromBe(b[8..12]), 0, FromBe(b[8..12]));
  }

  /** Packing an unpacked header gives back the twelve bytes it was read from. */
  lemma PackUnpack(b: seq<Byte>)
    requires |b| >= HEADER_SIZE
    ensures Pack(Unpack(b).value) == b[..HEADER_SIZE]
  {
    assert Unpack(b).Some?;
    hide Flags, Kind, FromBe, Be, Pow256, Unpack;
    UnpackedFlags(b);
    UnpackedNumbers(b);
    BeFromBe(b[2..4]);
    BeFromBe(b[4..8]);
    BeFromBe(b[8..12]);
    assert b[..HEADER_SIZE] == [b[0], b[1]] + (b[2..4] + (b[4..8] + b[8..12]));
  }

  /** The payload survives exactly when the header announces no contributing sources or it is empty. */
  lemma PacketRoundTrip(p: Packet)
    ensures var q := FromBytes(ToBytes(p));
      q.Some? && q.value.header == Reduced(p.header)
      && (q.value.payload == p.payload <==> p.header.csrcCount % 16 == 0 || p.payload == [])
  {
    UnpackPack(p.header, p.payload);
    hide Pack, Unpack;
    var b, k := ToBytes(p), 4 * (p.header.csrcCount % 16);
    if k <= |p.payload| {
      assert b[HEADER_SIZE + k..] == b[HEADER_SIZE..][k..];
      assert |p.payload[k..]| == |p.payload| - k;
      assert k == 0 ==> p.payload[k..] == p.payload;
    }
  }

  // ---------- The sender ----------

  datatype Send = Send(payload: seq<Byte>, marker: int, increment: int)

  datatype Session = Session(ssrc: int, payloadType: int, next: int, ts: int)

  function PacketOf(s: Session, x: Send): Packet {
    Packet(Header(2, 0, 0, 0, x.marker, s.payloadType, s.next, s.ts, s.ssrc), x.payload)
  }

  function Advance(s: Session, x: Send): Session {
    s.(next := (s.next + 1) % SEQ_MODULUS, ts := (s.ts + x.increment) % TS_MODULUS)
  }

  /** The datagrams of a series of sends. */
  function Datagrams(s: Session, xs: seq<Send>): (r: seq<seq<Byte>>)
    ensures |r| == |xs|
    decreases |xs|
  {
    if xs == [] then [] else [ToBytes(PacketOf(s, xs[0]))] + Datagrams(Advance(s, xs[0]), xs[1..])
  }

  class RtpSession {
    const ssrc: int
    const payloadType: int
    var next: int
    var ts: int
    var bound: bool
    var sent: seq<seq<Byte>>

    ghost function View(): Session
      reads this
    {
      Session(ssrc, payloadType, next, ts)
    }

    constructor (ssrc: int, payloadType: int)
      ensures View() == Session(ssrc, payloadType, 0, 0) && !bound && sent == []
    {
      this.ssrc, this.payloadType := ssrc, payloadType;
      next, ts, bound, sent := 0, 0, false, [];
    }

    method Bind()
      modifies this`bound
      ensures bound
    {
      bound := true;
    }

    /** False is the RuntimeError of a session that is not bound. */
    method SendPacket(x: Send) returns (ok: bool)
      modifies this
      ensures ok == old(bound) && bound == old(bound)
      ensures ok ==> sent == old(sent) + [ToBytes(PacketOf(old(View()), x))] && View() == Advance(old(View()), x)
      ensures !ok ==> sent == old(sent) && View() == old(View())
    {
      if !bound { return false; }
      var header := Header(2, 0, 0, 0, x.marker, payloadType, next, ts, ssrc);
      sent := sent + [ToBytes(Packet(header, x.payload))];
      next := (next + 1) % SEQ_MODULUS;
      ts := (ts + x.increment) % TS_MODULUS;
      ok := true;
    }
  }

  // ---------- Whole series ----------

  function Elapsed(xs: seq<Send>, k: nat): int
    requires k <= |xs|
  {
    if k == 0 then 0 else Elapsed(xs, k - 1) + xs[k - 1].increment
  }

  lemma {:induction false} ElapsedTail(xs: seq<Send>, k: nat)
    requires 1 <= k <= |xs|
    ensures Elapsed(xs, k) == xs[0].increment + Elapsed(xs[1..], k - 1)
    decreases k
  {
    if k > 1 { ElapsedTail(xs, k - 1); }
  }

  lemma SeqIs(x: int, q: int, r: int)
    requires x == q * SEQ_MODULUS + r && 0 <= r < SEQ_MODULUS
    ensures x % SEQ_MODULUS == r
  {
  }

  lemma TsIs(x: int, q: int, r: int)
    requires x == q * TS_MODULUS + r && 0 <= r < TS_MODULUS
    ensures x % TS_MODULUS == r
  {
  }

  lemma AddSeq(a: int, b: int)
    ensures (a % SEQ_MODULUS + b) % SEQ_MODULUS == (a + b) % SEQ_MODULUS
  {
    var s := a % SEQ_MODULUS + b;
    SeqIs(a + b, a / SEQ_MODULUS + s / SEQ_MODULUS, s % SEQ_MODULUS);
  }

  lemma AddTs(a: int, b: int)
    ensures (a % TS_MODULUS + b) % TS_MODULUS == (a + b) % TS_MODULUS
  {
    var s := a % TS_MODULUS + b;
    TsIs(a + b, a / TS_MODULUS + s / TS_MODULUS, s % TS_MODULUS);
  }

  /** The k-th datagram carries the k-th sequence number and the sum of the increments before it. */
  lemma {:induction false} SeriesExact(s: Session, xs: seq<Send>, k: nat)
    requires k < |xs|
    ensures FromBytes(Datagrams(s, xs)[k])
         == Some(Packet(Header(2, 0, 0, 0, xs[k].marker % 2, s.payloadType % 128, (s.next + k) % SEQ_MODULUS,
                               (s.ts + Elapsed(xs, k)) % TS_MODULUS, s.ssrc % TS_MODULUS), xs[k].payload))
    decreases |xs|
  {
    hide FromBytes, ToBytes, Reduced;
    if k == 0 {
      var p := PacketOf(s, xs[0]);
      PacketRoundTrip(p);
      ReducedIs(p.header);
    } else {
      var t := Advance(s, xs[0]);
      SeriesExact(t, xs[1..], k - 1);
      ElapsedTail(xs, k);
      AddSeq(s.next + 1, k - 1);
      AddTs(s.ts + xs[0].increment, Elapsed(xs[1..], k - 1));
    }
  }

  lemma ReducedIs(h: Header)
    requires h.version == 2 && h.padding == h.extension == h.csrcCount == 0
    ensures Reduced(h) == Header(2, 0, 0, 0, h.marker % 2, h.payloadType % 128,
                                 h.sequenceNumber % SEQ_MODULUS, h.timestamp % TS_MODULUS, h.ssrc % TS_MODULUS)
  {
  }

  lemma SameRemainder(a: int, b: int)
    ensures a % SEQ_MODULUS == b % SEQ_MODULUS <==> (b - a) % SEQ_MODULUS == 0
  {
    var r, e := a % SEQ_MODULUS, (b - a) % SEQ_MODULUS;
    var q := a / SEQ_MODULUS + (b - a) / SEQ_MODULUS;
    assert b == q * SEQ_MODULUS + (r + e);
    if r + e < SEQ_MODULUS { SeqIs(b, q, r + e); } else { SeqIs(b, q + 1, r + e - SEQ_MODULUS); }
  }

  /** Two packets of a series share a sequence number exactly when they are a multiple of 65536 apart. */
  lemma SequenceNumbersDistinct(s: Session, xs: seq<Send>, i: nat, j: nat)
    requires i <= j < |xs|
    ensures var a, b := FromBytes(Datagrams(s, xs)[i]), FromBytes(Datagrams(s, xs)[j]);
      && a.Some? && b.Some?
      && (a.value.header.sequenceNumber == b.value.header.sequenceNumber <==> (j - i) % SEQ_MODULUS == 0)
  {
    hide FromBytes, Datagrams;
    SeriesExact(s, xs, i);
    SeriesExact(s, xs, j);
    SameRemainder(s.next + i, s.next + j);
  }
}
