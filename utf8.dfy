/**
 * UTF-8 as defined by RFC 3629: the encoding `unescape(encodeURIComponent(s))`
 * produces before `btoa`, and the strict decoding `decodeURIComponent(escape(b))`
 * performs after `atob` (it rejects overlong forms, surrogates and code points
 * above U+10FFFF, which is what lets `readFile` fall back to the raw bytes).
 */
module Utf8 {
  import opened Text

  type Byte = b: int | 0 <= b < 256

  predicate IsContinuation(b: Byte)
  {
    0x80 <= b <= 0xBF
  }

  /** The UTF-8 form of one scalar value (section 3 of RFC 3629). */
  function EncodeChar(c: char): (r: seq<Byte>)
    ensures 1 <= |r| <= 4
  {
    var n := c as int;
    if n < 0x80 then [n]
    else if n < 0x800 then [0xC0 + n / 64, 0x80 + n % 64]
    else if n < 0x10000 then [0xE0 + n / 4096, 0x80 + (n / 64) % 64, 0x80 + n % 64]
    else [0xF0 + n / 262144, 0x80 + (n / 4096) % 64, 0x80 + (n / 64) % 64, 0x80 + n % 64]
  }

  function Encode(s: string): (r: seq<Byte>)
    ensures |s| <= |r| <= 4 * |s|
  {
    if s == [] then [] else EncodeChar(s[0]) + Encode(s[1..])
  }

  lemma EncodeAppend(a: string, b: string)
    ensures Encode(a + b) == Encode(a) + Encode(b)
  {
    if a == [] {
      assert a + b == b;
    } else {
      assert (a + b)[1..] == a[1..] + b;
      EncodeAppend(a[1..], b);
    }
  }

  /** A code point in the range a `char` can hold. */
  predicate IsScalar(n: int)
  {
    (0 <= n < 0xD800) || (0xE000 <= n < 0x110000)
  }

  /**
   * Decode the first character of `b`: the character and the number of bytes
   * it took, or `None` when `b` does not start with a well-formed sequence
   * (the byte ranges of the table in section 4 of RFC 3629).
   */
  function DecodeFirst(b: seq<Byte>): (r: Option<(char, nat)>)
    requires |b| > 0
    ensures r.Some? ==> 1 <= r.value.1 <= |b| && r.value.1 <= 4
  {
    var b0: int := b[0];
    if b0 < 0x80 then Some((b0 as char, 1))
    else if 0xC2 <= b0 <= 0xDF then
      if |b| >= 2 && IsContinuation(b[1]) then
        Some((((b0 - 0xC0) * 64 + (b[1] as int - 0x80)) as char, 2))
      else None
    else if 0xE0 <= b0 <= 0xEF then
      if |b| >= 3 && IsContinuation(b[1]) && IsContinuation(b[2])
        && (b0 != 0xE0 || b[1] >= 0xA0) && (b0 != 0xED || b[1] <= 0x9F) then
        var n := (b0 - 0xE0) * 4096 + (b[1] as int - 0x80) * 64 + (b[2] as int - 0x80);
        assert IsScalar(n);
        Some((n as char, 3))
      else None
    else if 0xF0 <= b0 <= 0xF4 then
      if |b| >= 4 && IsContinuation(b[1]) && IsContinuation(b[2]) && IsContinuation(b[3])
        && (b0 != 0xF0 || b[1] >= 0x90) && (b0 != 0xF4 || b[1] <= 0x8F) then
        var n := (b0 - 0xF0) * 262144 + (b[1] as int - 0x80) * 4096 + (b[2] as int - 0x80) * 64 + (b[3] as int - 0x80);
        assert IsScalar(n);
        Some((n as char, 4))
      else None
    else None
  }

  /** Strict decoding of a whole byte sequence; `None` if any part is malformed. */
  function Decode(b: seq<Byte>): Option<string>
    decreases |b|
  {
    if b == [] then Some([])
    else match DecodeFirst(b)
      case None => None
      case Some((c, k)) =>
        match Decode(b[k..])
        case None => None
        case Some(rest) => Some([c] + rest)
  }

  /** Each character's encoding decodes back to that character, whatever follows. */
  lemma DecodeFirstOfEncodeChar(c: char, rest: seq<Byte>)
    ensures DecodeFirst(EncodeChar(c) + rest) == Some((c, |EncodeChar(c)|))
  {
    var n := c as int;
    if n < 0x80 {
    } else if n < 0x800 {
      DecodeFirstOfTwo(c, rest);
    } else if n < 0x10000 {
      DecodeFirstOfThree(c, rest);
    } else {
      DecodeFirstOfFour(c, rest);
    }
  }

  lemma DecodeFirstOfTwo(c: char, rest: seq<Byte>)
    requires 0x80 <= c as int < 0x800
    ensures DecodeFirst(EncodeChar(c) + rest) == Some((c, |EncodeChar(c)|))
  {
    var n := c as int;
    var b := EncodeChar(c) + rest;
    assert b[0] == 0xC0 + n / 64 && b[1] == 0x80 + n % 64;
    assert (n / 64) * 64 + n % 64 == n;
  }

  lemma DecodeFirstOfThree(c: char, rest: seq<Byte>)
    requires 0x800 <= c as int < 0x10000
    ensures DecodeFirst(EncodeChar(c) + rest) == Some((c, |EncodeChar(c)|))
  {
    var n := c as int;
    var b := EncodeChar(c) + rest;
    var q := n / 64;
    assert b[0] == 0xE0 + n / 4096 && b[1] == 0x80 + q % 64 && b[2] == 0x80 + n % 64;
    assert n / 4096 == q / 64;
    assert (q / 64) * 64 + q % 64 == q;
    assert q * 64 + n % 64 == n;
  }

  lemma DecodeFirstOfFour(c: char, rest: seq<Byte>)
    requires 0x10000 <= c as int
    ensures DecodeFirst(EncodeChar(c) + rest) == Some((c, |EncodeChar(c)|))
  {
    var n := c as int;
    var b := EncodeChar(c) + rest;
    var q := n / 64;
    var p := q / 64;
    assert b[0] == 0xF0 + n / 262144 && b[1] == 0x80 + (n / 4096) % 64;
    assert b[2] == 0x80 + q % 64 && b[3] == 0x80 + n % 64;
    assert n / 4096 == p;
    assert n / 262144 == p / 64;
    assert (p / 64) * 64 + p % 64 == p;
    assert p * 64 + q % 64 == q;
    assert q * 64 + n % 64 == n;
  }

  /** Decoding inverts encoding (round trip, text to bytes to text). */
  lemma {:induction false} DecodeEncode(s: string)
    ensures Decode(Encode(s)) == Some(s)
  {
    if s != [] {
      var e := EncodeChar(s[0]);
      DecodeFirstOfEncodeChar(s[0], Encode(s[1..]));
      var b := Encode(s);
      assert b == e + Encode(s[1..]);
      assert b[|e|..] == Encode(s[1..]);
      DecodeEncode(s[1..]);
      assert Decode(b) == Some([s[0]] + s[1..]);
      assert [s[0]] + s[1..] == s;
    }
  }

  /** A well-formed first character is encoded exactly by the bytes it was decoded from. */
  lemma EncodeCharOfDecodeFirst(b: seq<Byte>)
    requires |b| > 0 && DecodeFirst(b).Some?
    ensures EncodeChar(DecodeFirst(b).value.0) == b[..DecodeFirst(b).value.1]
  {
    var b0: int := b[0];
    if b0 < 0x80 {
    } else if b0 <= 0xDF {
      var n := (b0 - 0xC0) * 64 + (b[1] as int - 0x80);
      assert n / 64 == b0 - 0xC0 && n % 64 == b[1] as int - 0x80;
    } else if b0 <= 0xEF {
      var n := (b0 - 0xE0) * 4096 + (b[1] as int - 0x80) * 64 + (b[2] as int - 0x80);
      var q := (b0 - 0xE0) * 64 + (b[1] as int - 0x80);
      assert n == q * 64 + (b[2] as int - 0x80);
      assert n / 64 == q && n % 64 == b[2] as int - 0x80;
      assert q / 64 == b0 - 0xE0 && q % 64 == b[1] as int - 0x80;
      assert n / 4096 == q / 64;
    } else {
      var n := (b0 - 0xF0) * 262144 + (b[1] as int - 0x80) * 4096 + (b[2] as int - 0x80) * 64 + (b[3] as int - 0x80);
      var p := (b0 - 0xF0) * 64 + (b[1] as int - 0x80);
      var q := p * 64 + (b[2] as int - 0x80);
      assert n == q * 64 + (b[3] as int - 0x80);
      assert n / 64 == q && n % 64 == b[3] as int - 0x80;
      assert q / 64 == p && q % 64 == b[2] as int - 0x80;
      assert p / 64 == b0 - 0xF0 && p % 64 == b[1] as int - 0x80;
      assert n / 4096 == p;
      assert n / 262144 == p / 64;
    }
  }

  /** Encoding inverts successful decoding: well-formed UTF-8 has one reading. */
  lemma {:induction false} EncodeDecode(b: seq<Byte>)
    requires Decode(b).Some?
    ensures Encode(Decode(b).value) == b
    decreases |b|
  {
    if b != [] {
      var (c, k) := DecodeFirst(b).value;
      var tail := Decode(b[k..]).value;
      var s := Decode(b).value;
      assert s == [c] + tail;
      assert Encode(s) == EncodeChar(c) + Encode(tail) by {
        assert s[1..] == tail;
      }
      assert EncodeChar(c) == b[..k] by {
        EncodeCharOfDecodeFirst(b);
      }
      assert Encode(tail) == b[k..] by {
        EncodeDecode(b[k..]);
      }
      assert b == b[..k] + b[k..];
    }
  }

  /** ASCII text is its own UTF-8 form. */
  lemma EncodeAscii(s: string)
    requires forall i :: 0 <= i < |s| ==> s[i] as int < 0x80
    ensures |Encode(s)| == |s|
    ensures forall i :: 0 <= i < |s| ==> Encode(s)[i] == s[i] as int
  {
  }
}
