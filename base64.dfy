/**
 * Base64 as in section 4 of RFC 4648: `btoa` (padded encoding of a byte
 * string) and `atob`, whose "forgiving" decoding drops ASCII white space,
 * accepts the text with or without its `=` padding, ignores the unused low
 * bits of the last character, and fails on any other character or on a
 * length of 4k+1 symbols.
 */
module Base64 {
  import opened Text
  import opened Utf8

  /** The 64-character alphabet of Table 1 of RFC 4648. */
  function Symbol(v: nat): (c: char)
    requires v < 64
  {
    if v < 26 then ('A' as int + v) as char
    else if v < 52 then ('a' as int + (v - 26)) as char
    else if v < 62 then ('0' as int + (v - 52)) as char
    else if v == 62 then '+'
    else '/'
  }

  predicate IsSymbol(c: char)
  {
    ('A' <= c <= 'Z') || ('a' <= c <= 'z') || ('0' <= c <= '9') || c == '+' || c == '/'
  }

  /** The 6-bit value of an alphabet character. */
  function SymbolValue(c: char): (v: nat)
    requires IsSymbol(c)
    ensures v < 64
  {
    if 'A' <= c <= 'Z' then c as int - 'A' as int
    else if 'a' <= c <= 'z' then c as int - 'a' as int + 26
    else if '0' <= c <= '9' then c as int - '0' as int + 52
    else if c == '+' then 62
    else 63
  }

  lemma SymbolRoundTrip(v: nat)
    requires v < 64
    ensures IsSymbol(Symbol(v)) && SymbolValue(Symbol(v)) == v
  {
  }

  predicate AllSymbols(s: string)
  {
    forall i :: 0 <= i < |s| ==> IsSymbol(s[i])
  }

  /** Three bytes as four symbols. */
  function EncodeGroup(x: Byte, y: Byte, z: Byte): (r: string)
    ensures |r| == 4 && AllSymbols(r)
  {
    [Symbol(x / 4), Symbol((x % 4) * 16 + y / 16), Symbol((y % 16) * 4 + z / 64), Symbol(z % 64)]
  }

  /** The symbols of the encoding without its padding. */
  function EncodeUnpadded(b: seq<Byte>): (r: string)
    ensures AllSymbols(r)
    ensures |r| % 4 == [0, 2, 3][|b| % 3]
    decreases |b|
  {
    if |b| == 0 then []
    else if |b| == 1 then [Symbol(b[0] / 4), Symbol((b[0] % 4) * 16)]
    else if |b| == 2 then
      [Symbol(b[0] / 4), Symbol((b[0] % 4) * 16 + b[1] / 16), Symbol((b[1] % 16) * 4)]
    else
      var rest := EncodeUnpadded(b[3..]);
      LengthMod3(|b| - 3);
      LengthMod4(|rest|);
      EncodeGroup(b[0], b[1], b[2]) + rest
  }

  lemma LengthMod3(n: nat)
    ensures (n + 3) % 3 == n % 3
  {
  }

  /** `btoa`: the padded encoding. */
  function Encode(b: seq<Byte>): (r: string)
    ensures |r| % 4 == 0
  {
    EncodeUnpadded(b) + (if |b| % 3 == 1 then "==" else if |b| % 3 == 2 then "=" else "")
  }

  /** ASCII white space as the forgiving decoder strips it. */
  predicate IsAsciiSpace(c: char)
  {
    c == '\t' || c == '\n' || c == '\U{000C}' || c == '\r' || c == ' '
  }

  /** The text with its ASCII white space removed. */
  function RemoveAsciiSpace(s: string): (r: string)
    ensures forall i :: 0 <= i < |r| ==> !IsAsciiSpace(r[i])
  {
    if s == [] then []
    else (if IsAsciiSpace(s[0]) then [] else [s[0]]) + RemoveAsciiSpace(s[1..])
  }

  lemma RemoveAsciiSpaceAppend(a: string, b: string)
    ensures RemoveAsciiSpace(a + b) == RemoveAsciiSpace(a) + RemoveAsciiSpace(b)
  {
    if a == [] {
      assert a + b == b;
    } else {
      assert (a + b)[1..] == a[1..] + b;
      RemoveAsciiSpaceAppend(a[1..], b);
    }
  }

  lemma RemoveAllSpace(w: string)
    requires forall i :: 0 <= i < |w| ==> IsAsciiSpace(w[i])
    ensures RemoveAsciiSpace(w) == []
  {
  }

  /** Drop one or two trailing `=` from a text whose length is a multiple of four. */
  function StripPadding(s: string): string
  {
    if |s| % 4 == 0 && |s| >= 2 && s[|s| - 1] == '=' && s[|s| - 2] == '=' then s[..|s| - 2]
    else if |s| % 4 == 0 && |s| >= 1 && s[|s| - 1] == '=' then s[..|s| - 1]
    else s
  }

  /** The first, second and third byte carried by a group of 6-bit values. */
  function FirstByte(a: nat, b: nat): Byte
    requires a < 64 && b < 64
  {
    a * 4 + b / 16
  }

  function SecondByte(b: nat, c: nat): Byte
    requires b < 64 && c < 64
  {
    (b % 16) * 16 + c / 4
  }

  function ThirdByte(c: nat, d: nat): Byte
    requires c < 64 && d < 64
  {
    (c % 4) * 64 + d
  }

  lemma LengthMod4(n: nat)
    ensures (n + 4) % 4 == n % 4
  {
  }

  /** Decode symbols whose count is not 4k+1. */
  function DecodeSymbols(s: string): (r: seq<Byte>)
    requires AllSymbols(s) && |s| % 4 != 1
    decreases |s|
  {
    if |s| == 0 then []
    else if |s| == 2 then
      [FirstByte(SymbolValue(s[0]), SymbolValue(s[1]))]
    else if |s| == 3 then
      [FirstByte(SymbolValue(s[0]), SymbolValue(s[1])), SecondByte(SymbolValue(s[1]), SymbolValue(s[2]))]
    else
      LengthMod4(|s| - 4);
      var a, b, c, d := SymbolValue(s[0]), SymbolValue(s[1]), SymbolValue(s[2]), SymbolValue(s[3]);
      [FirstByte(a, b), SecondByte(b, c), ThirdByte(c, d)] + DecodeSymbols(s[4..])
  }

  /** `atob`: `None` where the browser throws an InvalidCharacterError. */
  function Decode(text: string): (r: Option<seq<Byte>>)
  {
    var s := StripPadding(RemoveAsciiSpace(text));
    if |s| % 4 == 1 || !AllSymbols(s) then None
    else Some(DecodeSymbols(s))
  }

  lemma GroupArithmetic(x: Byte, y: Byte, z: Byte)
    ensures FirstByte(x / 4, (x % 4) * 16 + y / 16) == x
    ensures SecondByte((x % 4) * 16 + y / 16, (y % 16) * 4 + z / 64) == y
    ensures ThirdByte((y % 16) * 4 + z / 64, z % 64) == z
  {
    var b := (x % 4) * 16 + y / 16;
    assert b / 16 == x % 4 && b % 16 == y / 16;
    var c := (y % 16) * 4 + z / 64;
    assert c / 4 == y % 16 && c % 4 == z / 64;
  }

  lemma DecodeGroup(x: Byte, y: Byte, z: Byte, rest: string)
    requires AllSymbols(rest) && |rest| % 4 != 1
    ensures DecodeSymbols(EncodeGroup(x, y, z) + rest) == [x, y, z] + DecodeSymbols(rest)
  {
    var g := EncodeGroup(x, y, z);
    var s := g + rest;
    assert AllSymbols(s) by {
      forall i | 0 <= i < |s| ensures IsSymbol(s[i]) {
        if i < 4 { assert s[i] == g[i]; } else { assert s[i] == rest[i - 4]; }
      }
    }
    LengthMod4(|rest|);
    assert s[4..] == rest;
    SymbolRoundTrip(x / 4);
    SymbolRoundTrip((x % 4) * 16 + y / 16);
    SymbolRoundTrip((y % 16) * 4 + z / 64);
    SymbolRoundTrip(z % 64);
    var a, b, c, d := SymbolValue(s[0]), SymbolValue(s[1]), SymbolValue(s[2]), SymbolValue(s[3]);
    assert a == x / 4 && b == (x % 4) * 16 + y / 16;
    assert c == (y % 16) * 4 + z / 64 && d == z % 64;
    GroupArithmetic(x, y, z);
    DecodeSymbolsStep(s);
  }

  lemma DecodeSymbolsStep(s: string)
    requires AllSymbols(s) && |s| % 4 != 1 && |s| >= 4
    ensures AllSymbols(s[4..]) && |s[4..]| % 4 != 1
    ensures DecodeSymbols(s) ==
      [FirstByte(SymbolValue(s[0]), SymbolValue(s[1])),
       SecondByte(SymbolValue(s[1]), SymbolValue(s[2])),
       ThirdByte(SymbolValue(s[2]), SymbolValue(s[3]))] + DecodeSymbols(s[4..])
  {
    LengthMod4(|s| - 4);
  }

  lemma {:induction false} DecodeUnpadded(b: seq<Byte>)
    ensures DecodeSymbols(EncodeUnpadded(b)) == b
    decreases |b|
  {
    if |b| == 1 {
      DecodeOneByte(b);
    } else if |b| == 2 {
      DecodeTwoBytes(b);
    } else if |b| >= 3 {
      DecodeGroup(b[0], b[1], b[2], EncodeUnpadded(b[3..]));
      DecodeUnpadded(b[3..]);
      HeadAndTail(b);
    }
  }

  lemma HeadAndTail(b: seq<Byte>)
    requires |b| >= 3
    ensures b == [b[0], b[1], b[2]] + b[3..]
  {
    assert b[..3] == [b[0], b[1], b[2]];
    assert b == b[..3] + b[3..];
  }

  /** A final single byte is written as two symbols and read back from them. */
  lemma DecodeOneByte(b: seq<Byte>)
    requires |b| == 1
    ensures DecodeSymbols(EncodeUnpadded(b)) == b
  {
    SymbolRoundTrip(b[0] / 4);
    SymbolRoundTrip((b[0] % 4) * 16);
    GroupArithmetic(b[0], 0, 0);
  }

  /** Two final bytes are written as three symbols and read back from them. */
  lemma DecodeTwoBytes(b: seq<Byte>)
    requires |b| == 2
    ensures DecodeSymbols(EncodeUnpadded(b)) == b
  {
    SymbolRoundTrip(b[0] / 4);
    SymbolRoundTrip((b[0] % 4) * 16 + b[1] / 16);
    SymbolRoundTrip((b[1] % 16) * 4);
    GroupArithmetic(b[0], b[1], 0);
  }

  lemma RemoveNoSpace(s: string)
    requires forall i :: 0 <= i < |s| ==> !IsAsciiSpace(s[i])
    ensures RemoveAsciiSpace(s) == s
  {
    if s != [] {
      RemoveNoSpace(s[1..]);
      assert [s[0]] + s[1..] == s;
    }
  }

  lemma EncodeHasNoSpace(b: seq<Byte>)
    ensures RemoveAsciiSpace(Encode(b)) == Encode(b)
  {
    var e := Encode(b);
    assert forall i :: 0 <= i < |e| ==> IsSymbol(e[i]) || e[i] == '=';
    RemoveNoSpace(e);
  }

  lemma StripPaddingOfEncode(b: seq<Byte>)
    ensures StripPadding(Encode(b)) == EncodeUnpadded(b)
  {
    var e := Encode(b);
    var u := EncodeUnpadded(b);
    if |b| % 3 == 1 {
      assert e == u + "==";
      assert e[|e| - 1] == '=' && e[|e| - 2] == '=';
      assert e[..|e| - 2] == u;
    } else if |b| % 3 == 2 {
      assert e == u + "=";
      assert e[|e| - 1] == '=';
      assert e[|e| - 2] == u[|u| - 1];
      assert IsSymbol(u[|u| - 1]);
      assert e[..|e| - 1] == u;
    } else {
      assert e == u;
      assert u != [] ==> IsSymbol(u[|u| - 1]);
    }
  }

  /** `atob(btoa(b)) == b` */
  lemma DecodeEncode(b: seq<Byte>)
    ensures Decode(Encode(b)) == Some(b)
  {
    EncodeHasNoSpace(b);
    StripPaddingOfEncode(b);
    DecodeUnpadded(b);
  }

  /** ASCII white space anywhere in the text does not change what `atob` yields. */
  lemma DecodeIgnoresSpace(x: string, w: string, y: string)
    requires forall i :: 0 <= i < |w| ==> IsAsciiSpace(w[i])
    ensures Decode(x + w + y) == Decode(x + y)
  {
    RemoveAsciiSpaceAppend(x + w, y);
    RemoveAsciiSpaceAppend(x, w);
    RemoveAsciiSpaceAppend(x, y);
    RemoveAllSpace(w);
    assert RemoveAsciiSpace(x + w + y) == RemoveAsciiSpace(x + y);
  }
}
