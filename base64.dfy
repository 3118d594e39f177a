/**
 * `Buffer.from(data).toString('base64')`: the Base64 encoding of section 4 of RFC 4648 (the
 * standard alphabet, `=` padding), with a decoder as its inverse, and the `data:` URL of
 * section 3 of RFC 2397 that `imageToBase64` builds around it.
 */
module Base64 {
  import opened Wrappers
  import opened Strings
  import opened PdfPage

  /** The character of the Base64 alphabet (RFC 4648, Table 1) for the 6-bit value `v`. */
  function Char(v: nat): (c: char)
    requires v < 64
    ensures IsAlphabet(c)
  {
    if v < 26 then ('A' as int + v) as char
    else if v < 52 then ('a' as int + v - 26) as char
    else if v < 62 then ('0' as int + v - 52) as char
    else if v == 62 then '+'
    else '/'
  }

  /** `c` belongs to the Base64 alphabet. */
  predicate IsAlphabet(c: char) {
    'A' <= c <= 'Z' || 'a' <= c <= 'z' || '0' <= c <= '9' || c == '+' || c == '/'
  }

  /** The 6-bit value of an alphabet character. */
  function Value(c: char): (v: nat)
    requires IsAlphabet(c)
    ensures v < 64
  {
    if 'A' <= c <= 'Z' then c as int - 'A' as int
    else if 'a' <= c <= 'z' then c as int - 'a' as int + 26
    else if '0' <= c <= '9' then c as int - '0' as int + 52
    else if c == '+' then 62
    else 63
  }

  /** Each 6-bit value is read back from its character. */
  lemma {:induction false} ValueChar(v: nat)
    requires v < 64
    ensures Value(Char(v)) == v
  {
  }

  /** Three bytes become four characters, six bits each, most significant first. */
  function EncodeGroup(a: uint8, b: uint8, c: uint8): string {
    [Char(a as int / 4), Char(a as int % 4 * 16 + b as int / 16), Char(b as int % 16 * 4 + c as int / 64),
     Char(c as int % 64)]
  }

  /** The Base64 text of `data`: full groups, then a final group padded with `=` to four characters. */
  function Encode(data: seq<uint8>): (r: string)
    ensures |r| == (|data| + 2) / 3 * 4
  {
    if |data| == 0 then ""
    else if |data| == 1 then [Char(data[0] as int / 4), Char(data[0] as int % 4 * 16), '=', '=']
    else if |data| == 2 then
      [Char(data[0] as int / 4), Char(data[0] as int % 4 * 16 + data[1] as int / 16), Char(data[1] as int % 16 * 4), '=']
    else EncodeGroup(data[0], data[1], data[2]) + Encode(data[3..])
  }

  /** Decode Base64 text back into bytes; `None` for text that is not a padded Base64 string. */
  function Decode(s: string): (r: Option<seq<uint8>>)
    decreases |s|
  {
    if |s| == 0 then Some([])
    else if |s| < 4 || !IsAlphabet(s[0]) || !IsAlphabet(s[1]) then None
    else
      var v0, v1 := Value(s[0]), Value(s[1]);
      var a := (v0 * 4 + v1 / 16) as uint8;
      if |s| == 4 && s[2] == '=' && s[3] == '=' then Some([a])
      else if !IsAlphabet(s[2]) then None
      else
        var v2 := Value(s[2]);
        var b := (v1 % 16 * 16 + v2 / 4) as uint8;
        if |s| == 4 && s[3] == '=' then Some([a, b])
        else if !IsAlphabet(s[3]) then None
        else
          var c := (v2 % 4 * 64 + Value(s[3])) as uint8;
          match Decode(s[4..])
          case None => None
          case Some(rest) => Some([a, b, c] + rest)
  }

  /** Splitting three bytes into four 6-bit values and joining them again gives the bytes back. */
  lemma {:induction false} GroupBits(a: int, b: int, c: int)
    requires 0 <= a < 256 && 0 <= b < 256 && 0 <= c < 256
    ensures var v0, v1, v2 := a / 4, a % 4 * 16 + b / 16, b % 16 * 4 + c / 64;
            v0 * 4 + v1 / 16 == a && v1 % 16 * 16 + v2 / 4 == b && v2 % 4 * 64 + c % 64 == c
  {
    var v1, v2 := a % 4 * 16 + b / 16, b % 16 * 4 + c / 64;
    assert v1 / 16 == a % 4 && v1 % 16 == b / 16;
    assert v2 / 4 == b % 16 && v2 % 4 == c / 64;
  }

  /** A full group of four alphabet characters decodes to its three bytes, then the rest. */
  lemma {:induction false} DecodeGroup(data: seq<uint8>, rest: string)
    requires |data| == 3
    ensures Decode(EncodeGroup(data[0], data[1], data[2]) + rest) ==
            match Decode(rest) case None => None case Some(r) => Some(data + r)
  {
    var a, b, c := data[0], data[1], data[2];
    var s := EncodeGroup(a, b, c) + rest;
    GroupBits(a as int, b as int, c as int);
    assert s[4..] == rest;
    ValueChar(a as int / 4);
    ValueChar(a as int % 4 * 16 + b as int / 16);
    ValueChar(b as int % 16 * 4 + c as int / 64);
    ValueChar(c as int % 64);
    assert [a, b, c] == data;
  }

  /** Three bytes followed by the rest of the data decode from their encoding when the rest does. */
  lemma {:induction false} DecodeEncodeStep(data: seq<uint8>)
    requires |data| >= 3 && Decode(Encode(data[3..])) == Some(data[3..])
    ensures Decode(Encode(data)) == Some(data)
  {
    DecodeGroup(data[..3], Encode(data[3..]));
    assert data[..3] + data[3..] == data;
  }

  /** A final group holding one byte, padded with `==`, decodes to that byte. */
  lemma {:induction false} DecodeOne(a: uint8)
    ensures Decode([Char(a as int / 4), Char(a as int % 4 * 16), '=', '=']) == Some([a])
  {
    GroupBits(a as int, 0, 0);
    ValueChar(a as int / 4);
    ValueChar(a as int % 4 * 16);
  }

  /** A final group holding two bytes, padded with `=`, decodes to those bytes. */
  lemma {:induction false} DecodeTwo(a: uint8, b: uint8)
    ensures Decode([Char(a as int / 4), Char(a as int % 4 * 16 + b as int / 16), Char(b as int % 16 * 4), '='])
            == Some([a, b])
  {
    GroupBits(a as int, b as int, 0);
    ValueChar(a as int / 4);
    ValueChar(a as int % 4 * 16 + b as int / 16);
    ValueChar(b as int % 16 * 4);
  }

  /** Decoding undoes encoding, for every byte sequence. */
  lemma {:induction false} DecodeEncode(data: seq<uint8>)
    ensures Decode(Encode(data)) == Some(data)
    decreases |data|
  {
    if |data| == 1 {
      DecodeOne(data[0]);
      assert [data[0]] == data;
    } else if |data| == 2 {
      DecodeTwo(data[0], data[1]);
      assert [data[0], data[1]] == data;
    } else if |data| >= 3 {
      DecodeEncode(data[3..]);
      DecodeEncodeStep(data);
    }
  }

  /** `imageToBase64(data, type)` of `src/lib/extract-pdf-images.js`: a `data:` URL with media type `image/<type>` and Base64 payload. */
  function DataUrl(data: seq<uint8>, imageType: string): string {
    "data:image/" + imageType + ";base64," + Encode(data)
  }

  /** Read a `data:image/<type>;base64,<payload>` URL back into its type and bytes. */
  function ParseDataUrl(url: string): Option<(string, seq<uint8>)> {
    if !StartsWith(url, "data:image/") then None
    else
      var rest := url[11..];
      match IndexOf(rest, ";")
      case None => None
      case Some(k) =>
        if !StartsWith(rest[k..], ";base64,") then None
        else match Decode(rest[k + 8..])
          case None => None
          case Some(bytes) => Some((rest[..k], bytes))
  }

  /** The data URL carries the type and the bytes: parsing it gives both back, for a type without `;`. */
  lemma {:induction false} ParseDataUrlInverse(data: seq<uint8>, imageType: string)
    requires ';' !in imageType
    ensures ParseDataUrl(DataUrl(data, imageType)) == Some((imageType, data))
  {
    var url := DataUrl(data, imageType);
    var rest := url[11..];
    assert url[..11] == "data:image/";
    assert rest == imageType + ";base64," + Encode(data);
    var k := |imageType|;
    assert OccursAt(rest, ";", k);
    forall j | 0 <= j < k
      ensures !OccursAt(rest, ";", j)
    {
      assert rest[j] == imageType[j];
    }
    assert IndexOf(rest, ";") == Some(k);
    assert rest[k..][..8] == ";base64,";
    assert rest[k + 8..] == Encode(data);
    assert rest[..k] == imageType;
    DecodeEncode(data);
  }
}
