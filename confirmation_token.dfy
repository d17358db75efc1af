/** `generateConfirmationToken()`: sixteen random bytes, hex-encoded, with
    an expiry one hour after the current time. The random source and the
    clock are parameters. */
module ConfirmationToken {
  import opened Wrappers

  newtype byte = x: int | 0 <= x < 256

  /** `3600 * 1000` milliseconds. */
  const TokenLifetimeMs: int := 3600 * 1000

  /** Node's `Buffer.toString('hex')` alphabet: `0-9a-f`, lower case. */
  predicate IsHexDigit(c: char) {
    '0' <= c <= '9' || 'a' <= c <= 'f'
  }

  /** The digit for a nibble. */
  function HexDigit(v: int): (c: char)
    requires 0 <= v < 16
    ensures IsHexDigit(c)
  {
    if v < 10 then ('0' as int + v) as char else ('a' as int + v - 10) as char
  }

  /** The value of a hex digit; it undoes `HexDigit`. */
  function HexValue(c: char): (v: int)
    requires IsHexDigit(c)
    ensures 0 <= v < 16 && HexDigit(v) == c
  {
    if '0' <= c <= '9' then c as int - '0' as int else c as int - 'a' as int + 10
  }

  /** Two hex digits per byte, high nibble first. */
  function HexEncode(bytes: seq<byte>): (s: string)
    ensures |s| == 2 * |bytes|
    ensures forall i | 0 <= i < |s| :: IsHexDigit(s[i])
  {
    if bytes == [] then []
    else
      var v := bytes[0] as int;
      [HexDigit(v / 16), HexDigit(v % 16)] + HexEncode(bytes[1..])
  }

  /** The inverse reading: `None` for odd length or a non-hex character. */
  function HexDecode(s: string): Option<seq<byte>>
  {
    if s == [] then Some([])
    else if |s| == 1 || !IsHexDigit(s[0]) || !IsHexDigit(s[1]) then None
    else match HexDecode(s[2..])
      case None => None
      case Some(rest) => Some([(HexValue(s[0]) * 16 + HexValue(s[1])) as byte] + rest)
  }

  lemma DigitValue(v: int)
    requires 0 <= v < 16
    ensures HexValue(HexDigit(v)) == v
  {
  }

  lemma NibblesJoin(v: int)
    requires 0 <= v < 256
    ensures 0 <= v / 16 < 16 && 0 <= v % 16 < 16 && (v / 16) * 16 + v % 16 == v
  {
  }

  lemma NibblesSplit(h: int, l: int)
    requires 0 <= h < 16 && 0 <= l < 16
    ensures (h * 16 + l) / 16 == h && (h * 16 + l) % 16 == l
  {
  }

  /** Decoding an encoding gives the bytes back. */
  lemma {:induction false} DecodeEncode(bytes: seq<byte>)
    ensures HexDecode(HexEncode(bytes)) == Some(bytes)
  {
    if bytes != [] {
      var s := HexEncode(bytes);
      assert s[2..] == HexEncode(bytes[1..]);
      DecodeEncode(bytes[1..]);
      var v := bytes[0] as int;
      NibblesJoin(v);
      DigitValue(v / 16);
      DigitValue(v % 16);
      assert HexValue(s[0]) == v / 16 && HexValue(s[1]) == v % 16;
      assert HexDecode(s) == Some([bytes[0]] + bytes[1..]);
      assert [bytes[0]] + bytes[1..] == bytes;
    }
  }

  /** Encoding a decoding gives the text back: every string that decodes is
      an encoding. */
  lemma {:induction false} EncodeDecode(s: string)
    requires HexDecode(s).Some?
    ensures HexEncode(HexDecode(s).value) == s
  {
    if s != [] {
      EncodeDecode(s[2..]);
      var h, l := HexValue(s[0]), HexValue(s[1]);
      NibblesSplit(h, l);
      assert HexDecode(s).value[1..] == HexDecode(s[2..]).value;
    }
  }

  /** Distinct byte strings give distinct tokens. */
  lemma EncodeInjective(a: seq<byte>, b: seq<byte>)
    requires HexEncode(a) == HexEncode(b)
    ensures a == b
  {
    DecodeEncode(a);
    DecodeEncode(b);
  }

  datatype Token = Token(token: string, tokenExpiration: int)

  /** The token is 32 lower-case hex characters carrying the sixteen random
      bytes, and it expires exactly one hour after `now`. */
  function GenerateConfirmationToken(random: seq<byte>, now: int): (t: Token)
    requires |random| == 16
    ensures |t.token| == 32
    ensures forall i | 0 <= i < |t.token| :: IsHexDigit(t.token[i])
    ensures HexDecode(t.token) == Some(random)
    ensures t.tokenExpiration == now + 3_600_000
  {
    DecodeEncode(random);
    Token(HexEncode(random), now + TokenLifetimeMs)
  }
}
