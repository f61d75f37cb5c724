/**
 * The repository-contents path that `readFile` and `writeFile` request
 * (app.js:60, app.js:86): `'contents/' + encodeURIComponent(path)` with every
 * `%2F` turned back into `/`. `encodeURIComponent` percent-encodes the UTF-8
 * bytes of the path as in section 2.1 of RFC 3986, leaving alone the
 * unreserved characters of section 2.3 and the marks `! * ' ( )`.
 */
module Uri {
  import opened Text
  import opened Utf8

  /** The bytes `encodeURIComponent` copies unescaped. */
  predicate IsUnescaped(b: Byte)
  {
    || ('A' as int <= b <= 'Z' as int) || ('a' as int <= b <= 'z' as int) || ('0' as int <= b <= '9' as int)
    || b == '-' as int || b == '_' as int || b == '.' as int || b == '!' as int
    || b == '~' as int || b == '*' as int || b == '\'' as int || b == '(' as int || b == ')' as int
  }

  /** Upper-case hexadecimal digit, as `encodeURIComponent` writes them. */
  function HexDigit(v: nat): (c: char)
    requires v < 16
    ensures c != '%'
  {
    if v < 10 then ('0' as int + v) as char else ('A' as int + (v - 10)) as char
  }

  predicate IsHexDigit(c: char)
  {
    ('0' <= c <= '9') || ('A' <= c <= 'F') || ('a' <= c <= 'f')
  }

  function HexValue(c: char): (v: nat)
    requires IsHexDigit(c)
    ensures v < 16
  {
    if '0' <= c <= '9' then c as int - '0' as int
    else if 'A' <= c <= 'F' then c as int - 'A' as int + 10
    else c as int - 'a' as int + 10
  }

  /** The text one byte becomes: itself, or `%` and two hexadecimal digits. */
  function EscapeByte(b: Byte): (r: string)
  {
    if IsUnescaped(b) then [b as char] else ['%', HexDigit(b / 16), HexDigit(b % 16)]
  }

  function PercentEncode(b: seq<Byte>): string
  {
    if b == [] then [] else EscapeByte(b[0]) + PercentEncode(b[1..])
  }

  /** `encodeURIComponent(s)` */
  function EncodeUriComponent(s: string): string
  {
    PercentEncode(Encode(s))
  }

  /** `.replace(/%2F/g, '/')`: every non-overlapping `%2F`, left to right. */
  function RestoreSlashes(s: string): string
  {
    if |s| >= 3 && s[0] == '%' && s[1] == '2' && s[2] == 'F' then "/" + RestoreSlashes(s[3..])
    else if s == [] then []
    else [s[0]] + RestoreSlashes(s[1..])
  }

  /** The repository-relative API path of a vault file. */
  function ContentsPath(path: string): string
  {
    "contents/" + RestoreSlashes(EncodeUriComponent(path))
  }

  /** Per-byte view of the restored encoding: as `EscapeByte`, but `/` stays a slash. */
  function EscapeByteKeepSlash(b: Byte): string
  {
    if b == '/' as int then "/" else EscapeByte(b)
  }

  function PercentEncodeKeepSlash(b: seq<Byte>): string
  {
    if b == [] then [] else EscapeByteKeepSlash(b[0]) + PercentEncodeKeepSlash(b[1..])
  }

  /**
   * Percent-decoding (section 2.1 of RFC 3986) to the octets a server sees:
   * `%` with two hexadecimal digits is one octet, any other ASCII character
   * is its own octet; a stray `%` or a non-ASCII character is malformed.
   */
  function PercentDecode(s: string): Option<seq<Byte>>
  {
    if s == [] then Some([])
    else if s[0] == '%' then
      if |s| >= 3 && IsHexDigit(s[1]) && IsHexDigit(s[2]) then
        match PercentDecode(s[3..])
        case None => None
        case Some(rest) => Some([HexValue(s[1]) * 16 + HexValue(s[2])] + rest)
      else None
    else if s[0] as int < 0x80 then
      match PercentDecode(s[1..])
      case None => None
      case Some(rest) => Some([s[0] as int] + rest)
    else None
  }

  /** Turning `%2F` back into `/` acts on the escape of the byte `/` and nothing else. */
  lemma {:induction false} RestoreSlashesOfEncoding(b: seq<Byte>)
    ensures RestoreSlashes(PercentEncode(b)) == PercentEncodeKeepSlash(b)
  {
    if b != [] {
      RestoreSlashesOfEscape(b[0], PercentEncode(b[1..]));
      RestoreSlashesOfEncoding(b[1..]);
    }
  }

  /** Restoring slashes after the escape of one byte restores that escape alone when it is `%2F`. */
  lemma RestoreSlashesOfEscape(x: Byte, rest: string)
    ensures RestoreSlashes(EscapeByte(x) + rest) == EscapeByteKeepSlash(x) + RestoreSlashes(rest)
  {
    if IsUnescaped(x) {
      RestoreSlashesKeepsChar(x as char, rest);
    } else if x == '/' as int {
      var s := EscapeByte(x) + rest;
      assert s[..3] == "%2F";
      assert s[3..] == rest;
    } else {
      var h, l := HexDigit(x / 16), HexDigit(x % 16);
      assert !(h == '2' && l == 'F');
      RestoreSlashesKeepsEscape(h, l, rest);
    }
  }

  /** A character that does not start an escape passes through. */
  lemma RestoreSlashesKeepsChar(c: char, rest: string)
    requires c != '%'
    ensures RestoreSlashes([c] + rest) == [c] + RestoreSlashes(rest)
  {
    assert ([c] + rest)[1..] == rest;
  }

  /** An escape other than `%2F` passes through. */
  lemma RestoreSlashesKeepsEscape(h: char, l: char, rest: string)
    requires h != '%' && l != '%' && !(h == '2' && l == 'F')
    ensures RestoreSlashes(['%', h, l] + rest) == ['%', h, l] + RestoreSlashes(rest)
  {
    var s := ['%', h, l] + rest;
    assert s[1..] == [h] + ([l] + rest);
    RestoreSlashesKeepsChar(l, rest);
    RestoreSlashesKeepsChar(h, [l] + rest);
  }

  lemma EscapeByteKeepSlashDecodes(b: Byte, rest: string)
    requires PercentDecode(rest).Some?
    ensures PercentDecode(EscapeByteKeepSlash(b) + rest) == Some([b] + PercentDecode(rest).value)
  {
    var s := EscapeByteKeepSlash(b) + rest;
    if b == '/' as int || IsUnescaped(b) {
      assert s[1..] == rest;
    } else {
      assert s[3..] == rest;
      assert HexValue(HexDigit(b / 16)) == b / 16;
      assert HexValue(HexDigit(b % 16)) == b % 16;
    }
  }

  lemma {:induction false} PercentDecodeKeepSlash(b: seq<Byte>)
    ensures PercentDecode(PercentEncodeKeepSlash(b)) == Some(b)
  {
    if b != [] {
      PercentDecodeKeepSlash(b[1..]);
      EscapeByteKeepSlashDecodes(b[0], PercentEncodeKeepSlash(b[1..]));
      assert [b[0]] + b[1..] == b;
    }
  }

  /**
   * The path part of the request names the file exactly: percent-decoding it
   * and reading the octets as UTF-8 gives back the vault path.
   */
  lemma ContentsPathNamesFile(path: string)
    ensures StartsWith(ContentsPath(path), "contents/")
    ensures var rest := ContentsPath(path)[9..];
      PercentDecode(rest) == Some(Encode(path)) && Decode(PercentDecode(rest).value) == Some(path)
  {
    RestoreSlashesOfEncoding(Encode(path));
    PercentDecodeKeepSlash(Encode(path));
    DecodeEncode(path);
    assert ContentsPath(path)[9..] == RestoreSlashes(EncodeUriComponent(path));
  }
}
