/**
 * How file text travels through the contents API. `writeFile` sends
 * `btoa(unescape(encodeURIComponent(text)))`, the Base64 of the UTF-8 bytes
 * (app.js:87). `readFile` removes every white-space character from the
 * returned `content` (GitHub wraps it in lines), decodes the Base64 and reads
 * the bytes as UTF-8; when they are not valid UTF-8 it returns the bytes as a
 * one-character-per-byte string instead (app.js:70-72, app.js:76-82).
 */
module ContentCodec {
  import opened Text
  import opened Utf8
  import Base64

  datatype ReadError = InvalidCharacter

  datatype Decoded = Ok(text: string) | Err(error: ReadError)

  /** Each byte as the character with that code (what `atob` returns). */
  function ByteString(b: seq<Byte>): (r: string)
    ensures |r| == |b|
    ensures forall i :: 0 <= i < |b| ==> r[i] as int == b[i]
  {
    if b == [] then [] else [b[0] as char] + ByteString(b[1..])
  }

  /** The `content` field `writeFile` sends for `text`. */
  function EncodeContent(text: string): string
  {
    Base64.Encode(Encode(text))
  }

  /** What `readFile` returns for a `content` field; `Err` where `atob` throws twice. */
  function DecodeContent(content: string): Decoded
  {
    match Base64.Decode(RemoveSpace(content))
    case None => Err(InvalidCharacter)
    case Some(bytes) =>
      match Decode(bytes)
      case Some(text) => Ok(text)
      case None => Ok(ByteString(bytes))
  }

  /** Reading back what was written yields the text, for every text. */
  lemma ReadAfterWrite(text: string)
    ensures DecodeContent(EncodeContent(text)) == Ok(text)
  {
    var e := EncodeContent(text);
    Base64.EncodeHasNoSpace(Encode(text));
    assert forall i :: 0 <= i < |e| ==> Base64.IsSymbol(e[i]) || e[i] == '=';
    RemoveSpaceOfNoSpace(e);
    Base64.DecodeEncode(Encode(text));
    DecodeEncode(text);
  }

  /** White space anywhere in the Base64 text (GitHub's line breaks) changes nothing. */
  lemma SpaceInsensitive(x: string, w: string, y: string)
    requires AllSpace(w)
    ensures DecodeContent(x + w + y) == DecodeContent(x + y)
  {
    RemoveSpaceAppend(x + w, y);
    RemoveSpaceAppend(x, w);
    RemoveSpaceAppend(x, y);
    RemoveSpaceOfSpace(w);
    assert RemoveSpace(x + w + y) == RemoveSpace(x + y);
  }

  /**
   * Writing back a text that was read as valid UTF-8 sends exactly the bytes
   * that were read: an unmodified read-modify-write does not change the file.
   */
  lemma WriteAfterRead(content: string)
    requires Base64.Decode(RemoveSpace(content)).Some?
    requires Decode(Base64.Decode(RemoveSpace(content)).value).Some?
    ensures DecodeContent(content).Ok?
    ensures Base64.Decode(EncodeContent(DecodeContent(content).text)) == Base64.Decode(RemoveSpace(content))
  {
    var bytes := Base64.Decode(RemoveSpace(content)).value;
    EncodeDecode(bytes);
    Base64.DecodeEncode(bytes);
  }

  /**
   * When the bytes are not UTF-8 the fallback string has one character per
   * byte, so writing it back re-encodes every byte from 0x80 up as two bytes.
   */
  lemma FallbackWriteBackGrows(content: string)
    requires Base64.Decode(RemoveSpace(content)).Some?
    requires Decode(Base64.Decode(RemoveSpace(content)).value).None?
    ensures var bytes := Base64.Decode(RemoveSpace(content)).value;
      DecodeContent(content) == Ok(ByteString(bytes))
      && |Encode(DecodeContent(content).text)| > |bytes|
  {
    var bytes := Base64.Decode(RemoveSpace(content)).value;
    var s := ByteString(bytes);
    if forall i :: 0 <= i < |s| ==> s[i] as int < 0x80 {
      EncodeAscii(s);
      assert Encode(s) == bytes;
      EncodeDecodeAscii(bytes);
      assert false;
    }
    var i :| 0 <= i < |s| && s[i] as int >= 0x80;
    EncodeLongerWithHighChar(s, i);
  }

  /** ASCII bytes are valid UTF-8. */
  lemma {:induction false} EncodeDecodeAscii(b: seq<Byte>)
    requires forall i :: 0 <= i < |b| ==> b[i] < 0x80
    ensures Decode(b) == Some(ByteString(b))
  {
    if b != [] {
      EncodeDecodeAscii(b[1..]);
    }
  }

  lemma {:induction false} EncodeLongerWithHighChar(s: string, i: nat)
    requires i < |s| && s[i] as int >= 0x80
    ensures |Encode(s)| > |s|
  {
    if i > 0 {
      EncodeLongerWithHighChar(s[1..], i - 1);
    }
  }
}
