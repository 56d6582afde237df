/** UTF-8: `str.encode("utf-8")` and `bytes.decode("utf-8", errors="ignore")`. */
module Utf8 {
  import opened Text

  type Byte = b: int | 0 <= b < 256

  function EncodeChar(c: char): (r: seq<Byte>)
    ensures 1 <= |r| <= 4
  {
    var n := c as int;
    var m := n / 64;
    var k := m / 64;
    if n < 0x80 then [n]
    else if n < 0x800 then [0xC0 + m, 0x80 + n % 64]
    else if n < 0x10000 then [0xE0 + k, 0x80 + m % 64, 0x80 + n % 64]
    else [0xF0 + k / 64, 0x80 + k % 64, 0x80 + m % 64, 0x80 + n % 64]
  }

  function Encode(s: string): seq<Byte> {
    if s == "" then [] else EncodeChar(s[0]) + Encode(s[1..])
  }

  predicate IsContinuation(b: Byte) { 0x80 <= b < 0xC0 }

  /** Six more bits below `high`. */
  function Shift(high: int, b: Byte): int { high * 64 + (b as int - 0x80) }

  /** The code point of a lead byte and its continuation bytes, before range checks. */
  function CodePoint(lead: int, tail: seq<Byte>): int {
    if tail == [] then lead else Shift(CodePoint(lead, tail[..|tail| - 1]), tail[|tail| - 1])
  }

  predicate IsScalar(n: int) { 0 <= n < 0xD800 || 0xE000 <= n < 0x110000 }

  /** The character a well-formed sequence at the front denotes, and how many bytes it takes. */
  function DecodeHead(b: seq<Byte>): (r: Option<(char, nat)>)
    ensures r.Some? ==> 1 <= r.value.1 <= |b|
  {
    if b == [] then None
    else if b[0] < 0x80 then Some((b[0] as char, 1))
    else if b[0] < 0xE0 then DecodeLong(b, b[0] as int - 0xC0, 2, 0x80)
    else if b[0] < 0xF0 then DecodeLong(b, b[0] as int - 0xE0, 3, 0x800)
    else DecodeLong(b, b[0] as int - 0xF0, 4, 0x10000)
  }

  /** A sequence of `k` bytes whose value is a scalar of at least `low`. */
  function DecodeLong(b: seq<Byte>, lead: int, k: nat, low: nat): (r: Option<(char, nat)>)
    requires 2 <= k
    ensures r.Some? ==> r.value.1 == k <= |b|
  {
    if |b| < k || (exists i :: 1 <= i < k && !IsContinuation(b[i])) then None
    else
      var n := CodePoint(lead, b[1..k]);
      if low <= n && IsScalar(n) then Some((n as char, k)) else None
  }

  /** Decoding that drops what is not well formed, one byte at a time. */
  function Decode(b: seq<Byte>): string
    decreases |b|
  {
    if b == [] then ""
    else
      var h := DecodeHead(b);
      if h.Some? then [h.value.0] + Decode(b[h.value.1..]) else Decode(b[1..])
  }

  lemma CodePoints(lead: int, x: Byte, y: Byte, z: Byte)
    ensures CodePoint(lead, [x]) == Shift(lead, x)
    ensures CodePoint(lead, [x, y]) == Shift(Shift(lead, x), y)
    ensures CodePoint(lead, [x, y, z]) == Shift(Shift(Shift(lead, x), y), z)
  {
    assert [x][..0] == [];
    assert [x, y][..1] == [x];
    assert [x, y, z][..2] == [x, y];
  }

  lemma DecodeHeadEncode(c: char, rest: seq<Byte>)
    ensures DecodeHead(EncodeChar(c) + rest) == Some((c, |EncodeChar(c)|))
  {
    var n := c as int;
    var e := EncodeChar(c);
    var b := e + rest;
    assert forall i :: 0 <= i < |e| ==> b[i] == e[i];
    if n >= 0x80 {
      assert b[1..|e|] == e[1..];
      var x, y, z := e[1], if |e| > 2 then e[2] else 0, if |e| > 3 then e[3] else 0;
      CodePoints(if |e| == 2 then e[0] as int - 0xC0 else if |e| == 3 then e[0] as int - 0xE0
                 else e[0] as int - 0xF0, x, y, z);
      assert e[1..] == if |e| == 2 then [x] else if |e| == 3 then [x, y] else [x, y, z];
    }
  }

  lemma DecodeChar(c: char, rest: seq<Byte>)
    ensures Decode(EncodeChar(c) + rest) == [c] + Decode(rest)
  {
    hide DecodeHead, EncodeChar;
    var h := EncodeChar(c);
    var b := h + rest;
    DecodeHeadEncode(c, rest);
    assert b[|h|..] == rest;
  }

  /** Decoding inverts encoding, whatever follows. */
  lemma {:induction false} DecodeEncode(s: string, rest: seq<Byte>)
    ensures Decode(Encode(s) + rest) == s + Decode(rest)
    decreases |s|
  {
    hide Decode, DecodeHead, EncodeChar;
    if s == "" {
      assert Encode(s) + rest == rest;
    } else {
      var h, t := EncodeChar(s[0]), Encode(s[1..]);
      assert Encode(s) + rest == h + (t + rest);
      DecodeChar(s[0], t + rest);
      DecodeEncode(s[1..], rest);
      assert s == [s[0]] + s[1..];
      assert [s[0]] + (s[1..] + Decode(rest)) == s + Decode(rest);
    }
  }

  lemma RoundTrip(s: string)
    ensures Decode(Encode(s)) == s
  {
    hide Decode, Encode;
    DecodeEncode(s, []);
    assert Encode(s) + [] == Encode(s);
    DecodeEmpty();
  }

  lemma DecodeEmpty()
    ensures Decode([]) == ""
  {
  }

  lemma {:induction false} EncodeConcat(a: string, b: string)
    ensures Encode(a + b) == Encode(a) + Encode(b)
    decreases |a|
  {
    hide EncodeChar;
    if a == "" {
      assert a + b == b;
    } else {
      assert (a + b)[0] == a[0] && (a + b)[1..] == a[1..] + b;
      EncodeConcat(a[1..], b);
    }
  }

  /** ASCII bytes only come from ASCII characters. */
  lemma {:induction false} AsciiAbsent(s: string, c: char)
    requires c as int < 0x80 && c !in s
    ensures (c as int) as Byte !in Encode(s)
    decreases |s|
  {
    if s != "" {
      AsciiAbsent(s[1..], c);
      assert s[0] != c;
      assert (c as int) as Byte !in EncodeChar(s[0]);
    }
  }
}
