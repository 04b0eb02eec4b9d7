/**
  The hexadecimal helpers of the native wrapper: `to_hex`, which spells a byte
  string in lowercase hexadecimal, and `hex_to_sha1`, which turns 40 hexadecimal
  characters back into a 20-byte SHA-1 digest one `std::stoul` call per pair.
 */
module Hex {
  import opened Wrappers

  /** An unsigned char. */
  type byte = x: int | 0 <= x < 256

  /** An `lt::sha1_hash`: exactly 20 bytes. */
  type Digest = s: seq<byte> | |s| == 20
    witness [0, 0, 0, 0, 0, 0, 0, 0, 0, 0, 0, 0, 0, 0, 0, 0, 0, 0, 0, 0]

  /** The digit table `to_hex` indexes with a nibble. */
  const HexChars: string := "0123456789abcdef"

  /** The two characters `to_hex` pushes for one byte: its high nibble, then its low nibble. */
  function EncodeByte(b: byte): string
  {
    [HexChars[b / 16], HexChars[b % 16]]
  }

  /** The string `to_hex` has built once it has consumed all of `s`. */
  function Encode(s: seq<byte>): (r: string)
    ensures |r| == 2 * |s|
    decreases |s|
  {
    if s == [] then [] else Encode(s[..|s| - 1]) + EncodeByte(s[|s| - 1])
  }

  /** `to_hex`: the loop that pushes two digits per input byte. */
  method ToHex(input: seq<byte>) returns (output: string)
    ensures output == Encode(input)
  {
    output := [];
    for i := 0 to |input|
      invariant output == Encode(input[..i])
    {
      var c := input[i];
      output := output + [HexChars[c / 16]];
      output := output + [HexChars[c % 16]];
      assert input[..i + 1][..i] == input[..i];
    }
    assert input[..|input|] == input;
  }

  /** Byte `i` of the input becomes its high and low nibble digits at positions `2i` and `2i+1`. */
  lemma {:induction false} EncodeAt(s: seq<byte>, i: nat)
    requires i < |s|
    ensures Encode(s)[2 * i] == HexChars[s[i] / 16]
    ensures Encode(s)[2 * i + 1] == HexChars[s[i] % 16]
    decreases |s|
  {
    if i < |s| - 1 {
      EncodeAt(s[..|s| - 1], i);
      assert s[..|s| - 1][i] == s[i];
    }
  }

  /** Every character `to_hex` produces is one of `0123456789abcdef`. */
  lemma EncodeIsLowerHex(s: seq<byte>)
    ensures forall k :: 0 <= k < |Encode(s)| ==> Encode(s)[k] in HexChars
  {
    forall k | 0 <= k < |Encode(s)|
      ensures Encode(s)[k] in HexChars
    {
      EncodeAt(s, k / 2);
    }
  }

  /** A hexadecimal digit in either letter case, as `strtoul` with base 16 accepts it. */
  predicate IsHexDigit(c: char)
  {
    '0' <= c <= '9' || 'a' <= c <= 'f' || 'A' <= c <= 'F'
  }

  /** The value of a hexadecimal digit. */
  function DigitValue(c: char): (v: nat)
    requires IsHexDigit(c)
    ensures v < 16
  {
    if '0' <= c <= '9' then c as int - '0' as int
    else if 'a' <= c <= 'f' then c as int - 'a' as int + 10
    else c as int - 'A' as int + 10
  }

  /** The white space `strtoul` skips in the C locale. */
  predicate IsSpace(c: char)
  {
    c == ' ' || c == '\t' || c == '\n' || c == '\r' || c == '\U{B}' || c == '\U{C}'
  }

  /**
    `std::stoul(pair, nullptr, 16)` on the two-character string `c0 c1`, cast to
    `unsigned char`; `None` where `stoul` throws because no digit was converted.
    Like `strtoul` it skips leading white space, takes a sign, and stops at the
    first non-digit (so `"0x"` converts the `0`); a `-` negates in unsigned
    arithmetic, which the cast reduces modulo 256.
   */
  function ParsePair(c0: char, c1: char): (r: Option<byte>)
    ensures r.Some? <==> IsHexDigit(c0) || ((IsSpace(c0) || c0 == '+' || c0 == '-') && IsHexDigit(c1))
  {
    if IsHexDigit(c0) then
      if IsHexDigit(c1) then Some(16 * DigitValue(c0) + DigitValue(c1)) else Some(DigitValue(c0))
    else if (IsSpace(c0) || c0 == '+') && IsHexDigit(c1) then Some(DigitValue(c1))
    else if c0 == '-' && IsHexDigit(c1) then Some((256 - DigitValue(c1)) % 256)
    else None
  }

  /** The first `n` bytes `hex_to_sha1` fills, or `None` once a pair has thrown. */
  function DecodePrefix(hex: string, n: nat): (r: Option<seq<byte>>)
    requires 2 * n <= |hex|
    ensures r.Some? ==> |r.value| == n
  {
    if n == 0 then Some([])
    else
      match DecodePrefix(hex, n - 1)
      case None => None
      case Some(prefix) =>
        match ParsePair(hex[2 * n - 2], hex[2 * n - 1])
        case None => None
        case Some(b) => Some(prefix + [b])
  }

  /** What `hex_to_sha1` returns, with `None` for either of the exceptions it throws. */
  function Decode(hex: string): (r: Option<Digest>)
    ensures r.Some? ==> |hex| == 40
  {
    if |hex| != 40 then None
    else
      match DecodePrefix(hex, 20)
      case None => None
      case Some(h) => Some(h)
  }

  /** `hex_to_sha1`: the length check, then one `stoul` per pair into a 20-byte array. */
  method HexToSha1(hex: string) returns (r: Option<Digest>)
    ensures r == Decode(hex)
  {
    if |hex| != 40 {
      return None;
    }
    var hash := new byte[20];
    for i := 0 to 20
      invariant DecodePrefix(hex, i) == Some(hash[..i])
    {
      var b := ParsePair(hex[2 * i], hex[2 * i + 1]);
      if b.None? {
        DecodePrefixIff(hex, 20);
        return None;
      }
      hash[i] := b.value;
      assert hash[..i + 1] == hash[..i] + [b.value];
    }
    r := Some(hash[..]);
    assert hash[..] == hash[..20];
  }

  /** The first `n` pairs decode exactly when each of them does, each into its own byte. */
  lemma {:induction false} DecodePrefixIff(hex: string, n: nat)
    requires 2 * n <= |hex|
    ensures DecodePrefix(hex, n).Some? <==>
              forall i :: 0 <= i < n ==> ParsePair(hex[2 * i], hex[2 * i + 1]).Some?
    ensures DecodePrefix(hex, n).Some? ==>
              forall i :: 0 <= i < n ==> DecodePrefix(hex, n).value[i] == ParsePair(hex[2 * i], hex[2 * i + 1]).value
  {
    if n > 0 {
      DecodePrefixIff(hex, n - 1);
      var last := n - 1;
      assert 2 * last == 2 * n - 2 && 2 * last + 1 == 2 * n - 1;
      if forall i :: 0 <= i < n ==> ParsePair(hex[2 * i], hex[2 * i + 1]).Some? {
        assert ParsePair(hex[2 * last], hex[2 * last + 1]).Some?;
      }
    }
  }

  /**
    `hex_to_sha1` succeeds exactly on 40-character strings whose 20 pairs all
    convert, and byte `i` is then the conversion of characters `2i` and `2i+1`.
   */
  lemma DecodeIff(hex: string)
    ensures Decode(hex).Some? <==>
              |hex| == 40 && forall i :: 0 <= i < 20 ==> ParsePair(hex[2 * i], hex[2 * i + 1]).Some?
    ensures Decode(hex).Some? ==>
              forall i :: 0 <= i < 20 ==> Decode(hex).value[i] == ParsePair(hex[2 * i], hex[2 * i + 1]).value
  {
    if |hex| == 40 {
      DecodePrefixIff(hex, 20);
    }
  }

  /** On 40 hexadecimal digits of either case, byte `i` is the value of digits `2i` and `2i+1`. */
  lemma DecodeValidHex(hex: string)
    requires |hex| == 40
    requires forall k :: 0 <= k < |hex| ==> IsHexDigit(hex[k])
    ensures Decode(hex).Some?
    ensures forall i :: 0 <= i < 20 ==>
              Decode(hex).value[i] == 16 * DigitValue(hex[2 * i]) + DigitValue(hex[2 * i + 1])
  {
    DecodeIff(hex);
  }

  /** `strtoul` converts some pairs that are not two hexadecimal digits. */
  lemma ParsePairIsLenient()
    ensures ParsePair('1', 'g') == Some(1)
    ensures ParsePair('0', 'x') == Some(0)
    ensures ParsePair(' ', 'a') == Some(10)
    ensures ParsePair('+', 'F') == Some(15)
    ensures ParsePair('-', '1') == Some(255)
    ensures ParsePair('g', '0') == None
    ensures ParsePair('-', ' ') == None
  {
  }

  /** Each digit of the table is a hexadecimal digit whose value is its index. */
  lemma HexCharValue(k: nat)
    requires k < 16
    ensures IsHexDigit(HexChars[k]) && DigitValue(HexChars[k]) == k
  {
  }

  /** `hex_to_sha1(to_hex(h)) == h` for every digest. */
  lemma RoundTrip(h: Digest)
    ensures Decode(Encode(h)) == Some(h)
  {
    var e := Encode(h);
    forall i | 0 <= i < 20
      ensures ParsePair(e[2 * i], e[2 * i + 1]) == Some(h[i])
    {
      EncodeAt(h, i);
      HexCharValue(h[i] / 16);
      HexCharValue(h[i] % 16);
    }
    DecodeIff(e);
    assert Decode(e).value == h;
  }

  /** Distinct digests have distinct spellings. */
  lemma EncodeInjective(a: Digest, b: Digest)
    requires Encode(a) == Encode(b)
    ensures a == b
  {
    RoundTrip(a);
    RoundTrip(b);
  }
}
