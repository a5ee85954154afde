/** UTF-8 as the scanner decodes it, and its agreement with the grammar of section 4 of RFC 3629. */
module Utf8 {
  import opened Ordering
  import opened Bytes

  // ---- the grammar ------------------------------------------------------------------------------

  predicate Tail(b: byte) { 0x80 <= b <= 0xBF }

  predicate One(c: seq<byte>) { |c| == 1 && c[0] <= 0x7F }

  predicate Two(c: seq<byte>) { |c| == 2 && 0xC2 <= c[0] <= 0xDF && Tail(c[1]) }

  predicate Three(c: seq<byte>) {
    && |c| == 3 && Tail(c[2])
    && ( || (c[0] == 0xE0 && 0xA0 <= c[1] <= 0xBF)
         || (0xE1 <= c[0] <= 0xEC && Tail(c[1]))
         || (c[0] == 0xED && 0x80 <= c[1] <= 0x9F)
         || (0xEE <= c[0] <= 0xEF && Tail(c[1])))
  }

  predicate Four(c: seq<byte>) {
    && |c| == 4 && Tail(c[2]) && Tail(c[3])
    && ( || (c[0] == 0xF0 && 0x90 <= c[1] <= 0xBF)
         || (0xF1 <= c[0] <= 0xF3 && Tail(c[1]))
         || (c[0] == 0xF4 && 0x80 <= c[1] <= 0x8F))
  }

  /** One UTF8-char of the grammar. */
  predicate Char(c: seq<byte>) { One(c) || Two(c) || Three(c) || Four(c) }

  /** UTF8-octets: any number of UTF8-chars. */
  ghost predicate Octets(d: seq<byte>)
    decreases |d|
  {
    d == [] || exists n :: 1 <= n <= 4 && n <= |d| && Char(d[..n]) && Octets(d[n..])
  }

  // ---- the decoder ------------------------------------------------------------------------------

  /** Bytes a first byte announces; none for a byte that cannot be first. */
  function Announced(b: byte): nat {
    if b <= 0x7F then 1
    else if 0xC2 <= b <= 0xDF then 2
    else if 0xE0 <= b <= 0xEF then 3
    else if 0xF0 <= b <= 0xF4 then 4
    else 0
  }

  /** The accepted range of the second byte depends on the first. */
  predicate SecondFits(first: byte, second: byte) {
    if first == 0xE0 then 0xA0 <= second <= 0xBF
    else if first == 0xED then 0x80 <= second <= 0x9F
    else if first == 0xF0 then 0x90 <= second <= 0xBF
    else if first == 0xF4 then 0x80 <= second <= 0x8F
    else Tail(second)
  }

  /** Width of the rune at the front; None for an encoding error. */
  function Decode(d: seq<byte>): (width: Option<nat>)
    requires d != []
    ensures width.Some? ==> 1 <= width.value <= 4 && width.value <= |d|
  {
    var n := Announced(d[0]);
    if n == 0 || |d| < n then None
    else if n >= 2 && !SecondFits(d[0], d[1]) then None
    else if n >= 3 && !Tail(d[2]) then None
    else if n >= 4 && !Tail(d[3]) then None
    else Some(n)
  }

  /** An encoding error is passed over as one byte. */
  function Width(d: seq<byte>): (w: nat)
    requires d != []
    ensures 1 <= w <= |d|
  {
    if Decode(d).Some? then Decode(d).value else 1
  }

  /** Whether more bytes could not change what is decoded at the front. */
  predicate FullRune(d: seq<byte>) {
    d != [] &&
    var n := Announced(d[0]);
    || n == 0 || |d| >= n
    || (|d| > 1 && !SecondFits(d[0], d[1]))
    || (|d| > 2 && !Tail(d[2]))
  }

  predicate RuneStart(b: byte) { !Tail(b) }

  function Valid(d: seq<byte>): bool
    decreases |d|
  {
    d == [] || (Decode(d).Some? && Valid(d[Decode(d).value..]))
  }

  function RuneCount(d: seq<byte>): nat
    decreases |d|
  {
    if d == [] then 0 else 1 + RuneCount(d[Width(d)..])
  }

  // ---- agreement --------------------------------------------------------------------------------

  lemma DecodeIsChar(d: seq<byte>, n: nat)
    requires d != [] && 1 <= n <= |d|
    ensures Decode(d) == Some(n) <==> Char(d[..n])
  {
    var c := d[..n];
    assert c[0] == d[0] && (n > 1 ==> c[1] == d[1]) && (n > 2 ==> c[2] == d[2]) && (n > 3 ==> c[3] == d[3]);
  }

  /** The decoder accepts exactly the octets of the grammar. */
  lemma {:induction false} ValidIsOctets(d: seq<byte>)
    ensures Valid(d) <==> Octets(d)
    decreases |d|
  {
    if d != [] {
      if Decode(d).Some? {
        var n := Decode(d).value;
        DecodeIsChar(d, n);
        ValidIsOctets(d[n..]);
      }
      forall n | 1 <= n <= 4 && n <= |d| && Char(d[..n]) ensures Decode(d) == Some(n) {
        DecodeIsChar(d, n);
      }
    }
  }

  /** What is decoded from a full rune does not depend on what follows. */
  lemma FullRuneIsFinal(d: seq<byte>, e: seq<byte>)
    requires FullRune(d)
    ensures Decode(d + e) == Decode(d)
  {
  }

  lemma PartRuneIsInvalid(d: seq<byte>)
    requires d != [] && !FullRune(d)
    ensures Decode(d).None?
  {
  }

  lemma DecodePrefix(d: seq<byte>, e: seq<byte>)
    requires d != [] && Decode(d).Some?
    ensures Decode(d + e) == Decode(d)
  {
  }

  lemma {:induction false} ValidConcat(d: seq<byte>, e: seq<byte>)
    requires Valid(d)
    ensures Valid(d + e) == Valid(e)
    ensures RuneCount(d + e) == RuneCount(d) + RuneCount(e)
    decreases |d|
  {
    if d == [] {
      assert d + e == e;
    } else {
      var n := Decode(d).value;
      DecodePrefix(d, e);
      assert (d + e)[n..] == d[n..] + e;
      ValidConcat(d[n..], e);
    }
  }

  /** Inside a rune every byte but the first is a continuation. */
  lemma InsideRune(d: seq<byte>, k: nat)
    requires d != [] && Decode(d).Some? && k < Decode(d).value
    ensures RuneStart(d[k]) <==> k == 0
  {
  }

  /** A valid text may be cut before any rune start. */
  lemma {:induction false} CutAtStart(a: seq<byte>, b: seq<byte>)
    requires Valid(a + b) && (b == [] || RuneStart(b[0]))
    ensures Valid(a) && Valid(b)
    decreases |a|
  {
    if a == [] {
      assert a + b == b;
    } else {
      var d := a + b;
      var n := Decode(d).value;
      if |a| < n {
        assert d[|a|] == b[0];
        InsideRune(d, |a|);
      }
      assert d[..n] == a[..n] && d[n..] == a[n..] + b;
      DecodeIsChar(d, n);
      DecodeIsChar(a, n);
      CutAtStart(a[n..], b);
    }
  }
}
