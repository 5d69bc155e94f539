/** Big integers as bytes, hexadecimal text and base64url text, and the sampling width. */
module Codecs {
  import opened Wrappers
  import opened NumberTheory

  type Byte = b: int | 0 <= b < 256
  type Nibble = d: int | 0 <= d < 16
  type Sextet = s: int | 0 <= s < 64

  datatype RangeError = RangeError

  // ---- hexadecimal text ----------------------------------------------------------------------

  /** `n.toString(16)`, as digits. */
  function HexText(n: nat): seq<Nibble> {
    if n < 16 then [n] else HexText(n / 16) + [n % 16]
  }

  /** `BigInt('0x' + digits)`. */
  function FromHex(h: seq<Nibble>): nat {
    if h == [] then 0 else 16 * FromHex(h[..|h| - 1]) + h[|h| - 1]
  }

  function EvenHex(n: nat): (h: seq<Nibble>)
    ensures |h| % 2 == 0
  {
    if |HexText(n)| % 2 == 1 then [0] + HexText(n) else HexText(n)
  }

  function Octet(x: int): Byte
    requires 0 <= x < 256
  {
    x
  }

  /** `Buffer.from(digits, 'hex')`: whole pairs of digits, from the front. */
  function HexToBytes(h: seq<Nibble>): seq<Byte> {
    if |h| < 2 then [] else [Octet(16 * (h[0] as int) + h[1])] + HexToBytes(h[2..])
  }

  /** `buf.toString('hex')`. */
  function BytesToHex(bs: seq<Byte>): seq<Nibble> {
    if bs == [] then [] else BytesToHex(bs[..|bs| - 1]) + [bs[|bs| - 1] / 16, bs[|bs| - 1] % 16]
  }

  // ---- integers and octet strings ------------------------------------------------------------

  function BytesToBigInt(bs: seq<Byte>): nat {
    FromHex(if bs == [] then [0] else BytesToHex(bs))
  }

  function BigIntToBytes(n: nat, byteLength: nat): Result<seq<Byte>, RangeError> {
    var buf := HexToBytes(EvenHex(n));
    if |buf| > byteLength then Err(RangeError)
    else if |buf| == byteLength then Ok(buf)
    else Ok(Zeros(byteLength - |buf|) + buf)
  }

  function Zeros(k: nat): seq<Byte> {
    if k == 0 then [] else Zeros(k - 1) + [0]
  }

  /** OS2IP, section 4.2 of RFC 8017: the big-endian value of an octet string. */
  function Os2ip(bs: seq<Byte>): nat {
    if bs == [] then 0 else 256 * Os2ip(bs[..|bs| - 1]) + bs[|bs| - 1]
  }

  /** The shortest octet string for n, with one octet for zero. */
  function MinimalBytes(n: nat): (bs: seq<Byte>)
    ensures |bs| > 0
    ensures Os2ip(bs) == n
  {
    if n < 256 then [n] else
      var bs := MinimalBytes(n / 256) + [n % 256];
      assert bs[..|bs| - 1] == MinimalBytes(n / 256);
      bs
  }

  /** Reading the hexadecimal text is OS2IP. */
  lemma BytesToBigIntIsOs2ip(bs: seq<Byte>)
    ensures BytesToBigInt(bs) == Os2ip(bs)
  {
    HexIsOs2ip(bs);
    FromHexSnoc([], 0);
    assert [] + [0] == [0];
  }

  lemma {:induction false} HexIsOs2ip(bs: seq<Byte>)
    ensures FromHex(BytesToHex(bs)) == Os2ip(bs)
  {
    if bs != [] {
      var n := |bs| - 1;
      HexIsOs2ip(bs[..n]);
      var h := BytesToHex(bs[..n]);
      var hi, lo: Nibble := bs[n] / 16, bs[n] % 16;
      FromHexSnoc(h, hi);
      FromHexSnoc(h + [hi], lo);
      assert BytesToHex(bs) == h + [hi] + [lo];
    }
  }

  lemma FromHexSnoc(h: seq<Nibble>, d: Nibble)
    ensures FromHex(h + [d]) == 16 * FromHex(h) + d
  {
    assert (h + [d])[..|h|] == h;
  }

  lemma {:induction false} HexTextIsMinimal(n: nat)
    ensures HexToBytes(EvenHex(n)) == MinimalBytes(n)
    decreases n
  {
    if n < 256 {
      EvenHexBase(n);
      HexToBytesSnoc([], n / 16, n % 16);
      assert [] + [n / 16, n % 16] == EvenHex(n);
    } else {
      HexTextIsMinimal(n / 256);
      EvenHexStep(n);
      HexToBytesSnoc(EvenHex(n / 256), n / 16 % 16, n % 16);
    }
  }

  lemma HexToBytesFirst(d: Nibble, e: Nibble, rest: seq<Nibble>)
    ensures HexToBytes([d, e] + rest) == [Octet(16 * (d as int) + e)] + HexToBytes(rest)
  {
    assert ([d, e] + rest)[2..] == rest;
  }

  lemma {:induction false} HexToBytesSnoc(h: seq<Nibble>, hi: Nibble, lo: Nibble)
    requires |h| % 2 == 0
    ensures HexToBytes(h + [hi, lo]) == HexToBytes(h) + [Octet(16 * (hi as int) + lo)]
  {
    if h == [] {
      HexToBytesFirst(hi, lo, []);
      assert [] + [hi, lo] == [hi, lo] + [];
    } else {
      hide HexToBytes, Octet;
      var rest := h[2..];
      HexToBytesSnoc(rest, hi, lo);
      HexToBytesFirst(h[0], h[1], rest);
      HexToBytesFirst(h[0], h[1], rest + [hi, lo]);
      assert [h[0], h[1]] + rest == h && [h[0], h[1]] + (rest + [hi, lo]) == h + [hi, lo];
    }
  }

  lemma EvenHexBase(n: nat)
    requires n < 256
    ensures EvenHex(n) == [n / 16, n % 16]
  {
    if n >= 16 {
      assert HexText(n) == HexText(n / 16) + [n % 16];
    }
  }

  lemma EvenHexStep(n: nat)
    requires n >= 256
    ensures EvenHex(n) == EvenHex(n / 256) + [n / 16 % 16, n % 16]
    ensures 16 * (n / 16 % 16) + n % 16 == n % 256
  {
    var q := n / 16;
    assert q / 16 == n / 256;
    assert HexText(q) == HexText(q / 16) + [q % 16];
    assert HexText(n) == HexText(q) + [n % 16];
  }

  lemma {:induction false} MinimalFits(n: nat, byteLength: nat)
    requires byteLength > 0
    ensures |MinimalBytes(n)| <= byteLength <==> n < Pow(256, byteLength)
    decreases n
  {
    PowerPositive(256, byteLength - 1);
    if n >= 256 {
      if byteLength > 1 {
        MinimalFits(n / 256, byteLength - 1);
      } else {
        assert Pow(256, 1) == 256 * Pow(256, 0);
      }
    }
  }

  lemma {:induction false} PowerPositive(b: int, e: nat)
    requires b > 0
    ensures Pow(b, e) > 0
  {
    if e > 0 {
      PowerPositive(b, e - 1);
      MulOrder(b, Pow(b, e - 1));
    }
  }

  lemma {:induction false} Os2ipLeadingZeros(k: nat, bs: seq<Byte>)
    ensures |Zeros(k)| == k && Os2ip(Zeros(k) + bs) == Os2ip(bs)
    decreases k + |bs|
  {
    if bs == [] {
      if k > 0 {
        Os2ipLeadingZeros(k - 1, []);
        assert Zeros(k)[..k - 1] == Zeros(k - 1);
        assert Zeros(k - 1) + [] == Zeros(k - 1);
      }
      assert Zeros(k) + [] == Zeros(k);
    } else {
      Os2ipLeadingZeros(k, bs[..|bs| - 1]);
      var all := Zeros(k) + bs;
      assert all[..|all| - 1] == Zeros(k) + bs[..|bs| - 1];
    }
  }

  /**
   * I2OSP, section 4.1 of RFC 8017: the conversion succeeds exactly when the number fits, and then
   * gives an octet string of the asked length whose value is the number. (For a length of zero the
   * source always throws, although zero would fit.)
   */
  lemma EncodeDecode(n: nat, byteLength: nat)
    ensures BigIntToBytes(n, byteLength).Ok? <==> byteLength > 0 && n < Pow(256, byteLength)
    ensures BigIntToBytes(n, byteLength).Ok? ==>
              var bs := BigIntToBytes(n, byteLength).value;
              |bs| == byteLength && BytesToBigInt(bs) == n
  {
    HexTextIsMinimal(n);
    if byteLength > 0 {
      MinimalFits(n, byteLength);
    }
    var buf := MinimalBytes(n);
    if |buf| <= byteLength {
      Os2ipLeadingZeros(byteLength - |buf|, buf);
      BytesToBigIntIsOs2ip(buf);
      BytesToBigIntIsOs2ip(Zeros(byteLength - |buf|) + buf);
    }
  }

  lemma {:induction false} Os2ipInjective(a: seq<Byte>, b: seq<Byte>)
    requires |a| == |b| && Os2ip(a) == Os2ip(b)
    ensures a == b
  {
    if a != [] {
      var n := |a| - 1;
      assert a == a[..n] + [a[n]] && b == b[..n] + [b[n]];
      Os2ipInjective(a[..n], b[..n]);
    }
  }

  lemma {:induction false} Os2ipBound(bs: seq<Byte>)
    ensures Os2ip(bs) < Pow(256, |bs|)
  {
    if bs != [] {
      Os2ipBound(bs[..|bs| - 1]);
    }
  }

  /** Every octet string comes back from its value. */
  lemma DecodeEncode(bs: seq<Byte>)
    requires bs != []
    ensures BigIntToBytes(BytesToBigInt(bs), |bs|) == Ok(bs)
  {
    BytesToBigIntIsOs2ip(bs);
    Os2ipBound(bs);
    EncodeDecode(Os2ip(bs), |bs|);
    var back := BigIntToBytes(Os2ip(bs), |bs|).value;
    BytesToBigIntIsOs2ip(back);
    Os2ipInjective(back, bs);
  }

  // ---- base64url -----------------------------------------------------------------------------

  /** The bits of three octets as four sextets, and back. */
  function Sextet1(a: Byte): Sextet {
    a / 4
  }

  function Sextet2(a: Byte, b: Byte): Sextet {
    a % 4 * 16 + b / 16
  }

  function Sextet3(b: Byte, c: Byte): Sextet {
    b % 16 * 4 + c / 64
  }

  function Sextet4(c: Byte): Sextet {
    c % 64
  }

  function Octet1(x: Sextet, y: Sextet): Byte {
    x * 4 + y / 16
  }

  function Octet2(y: Sextet, z: Sextet): Byte {
    y % 16 * 16 + z / 4
  }

  function Octet3(z: Sextet, w: Sextet): Byte {
    z % 4 * 64 + w
  }

  lemma OctetsOfSextets(a: Byte, b: Byte, c: Byte)
    ensures Octet1(Sextet1(a), Sextet2(a, b)) == a
    ensures Octet2(Sextet2(a, b), Sextet3(b, c)) == b
    ensures Octet3(Sextet3(b, c), Sextet4(c)) == c
  {
  }

  /** Three octets at a time, without padding (section 5 of RFC 4648). */
  function ToSextets(bs: seq<Byte>): seq<Sextet> {
    if |bs| == 0 then []
    else if |bs| == 1 then [Sextet1(bs[0]), Sextet2(bs[0], 0)]
    else if |bs| == 2 then [Sextet1(bs[0]), Sextet2(bs[0], bs[1]), Sextet3(bs[1], 0)]
    else
      [Sextet1(bs[0]), Sextet2(bs[0], bs[1]), Sextet3(bs[1], bs[2]), Sextet4(bs[2])] + ToSextets(bs[3..])
  }

  function FromSextets(s: seq<Sextet>): seq<Byte> {
    if |s| <= 1 then []
    else if |s| == 2 then [Octet1(s[0], s[1])]
    else if |s| == 3 then [Octet1(s[0], s[1]), Octet2(s[1], s[2])]
    else [Octet1(s[0], s[1]), Octet2(s[1], s[2]), Octet3(s[2], s[3])] + FromSextets(s[4..])
  }

  function SextetChar(s: Sextet): char {
    if s < 26 then ('A' as int + s) as char
    else if s < 52 then ('a' as int + s - 26) as char
    else if s < 62 then ('0' as int + s - 52) as char
    else if s == 62 then '-'
    else '_'
  }

  /** The decoder also takes the plain base64 alphabet, and skips any other character. */
  function CharSextet(c: char): Option<Sextet> {
    if 'A' <= c <= 'Z' then Some(c as int - 'A' as int)
    else if 'a' <= c <= 'z' then Some(c as int - 'a' as int + 26)
    else if '0' <= c <= '9' then Some(c as int - '0' as int + 52)
    else if c == '-' || c == '+' then Some(62)
    else if c == '_' || c == '/' then Some(63)
    else None
  }

  function SextetText(s: seq<Sextet>): string {
    if s == [] then "" else [SextetChar(s[0])] + SextetText(s[1..])
  }

  function TextSextets(t: string): seq<Sextet> {
    if t == "" then []
    else
      var rest := TextSextets(t[1..]);
      if CharSextet(t[0]).Some? then [CharSextet(t[0]).value] + rest else rest
  }

  function ToBase64Url(bs: seq<Byte>): string {
    SextetText(ToSextets(bs))
  }

  function FromBase64Url(t: string): seq<Byte> {
    FromSextets(TextSextets(t))
  }

  /** The URL-safe alphabet of section 5 of RFC 4648: three runs of consecutive characters and two more. */
  lemma Alphabet(s: Sextet)
    ensures SextetChar(0) == 'A' && SextetChar(25) == 'Z' && SextetChar(26) == 'a' && SextetChar(51) == 'z'
    ensures SextetChar(52) == '0' && SextetChar(61) == '9' && SextetChar(62) == '-' && SextetChar(63) == '_'
    ensures s < 61 && s != 25 && s != 51 ==> SextetChar(s + 1) as int == SextetChar(s) as int + 1
  {
  }

  /** The decoder reads that alphabet, takes the plain one's last two characters as well, and no other. */
  lemma CharSextetExactly(c: char, s: Sextet)
    ensures CharSextet(c) == Some(s) <==> SextetChar(s) == c || (s == 62 && c == '+') || (s == 63 && c == '/')
  {
  }

  /** Six of the 24 bits of a number; k counts from the left. */
  function SixBits(n: nat, k: nat): Sextet
    requires n < 0x100_0000 && k < 4
  {
    if k == 0 then n / 262144 else if k == 1 then n / 4096 % 64 else if k == 2 then n / 64 % 64 else n % 64
  }

  function Bits(a: Byte, b: Byte, c: Byte): (n: nat)
    ensures n < 0x100_0000 && n == Os2ip([a, b, c])
  {
    assert [a, b, c][..2] == [a, b] && [a, b][..1] == [a] && [a][..0] == [];
    assert Os2ip([a]) == a && Os2ip([a, b]) == 256 * a + b;
    a * 65536 + b * 256 + c
  }

  lemma SixBitsOfOctets(a: Byte, b: Byte, c: Byte)
    ensures var n := Bits(a, b, c);
            && Sextet1(a) == SixBits(n, 0) && Sextet2(a, b) == SixBits(n, 1)
            && Sextet3(b, c) == SixBits(n, 2) && Sextet4(c) == SixBits(n, 3)
  {
    var n := a * 65536 + b * 256 + c;
    QuotientUnique(n, 262144, a / 4, a % 4 * 65536 + b * 256 + c);
    QuotientUnique(n, 4096, a * 16 + b / 16, b % 16 * 256 + c);
    QuotientUnique(a * 16 + b / 16, 64, a / 4, a % 4 * 16 + b / 16);
    QuotientUnique(n, 64, a * 1024 + b * 4 + c / 64, c % 64);
    QuotientUnique(a * 1024 + b * 4 + c / 64, 64, a * 16 + b / 16, b % 16 * 4 + c / 64);
  }

  /**
   * Every three octets become the four characters for their 24 bits; one or two at the end become the
   * two or three characters that hold their bits, with zeros after them and no padding.
   */
  lemma ToBase64UrlIs(a: Byte, b: Byte, c: Byte, rest: seq<Byte>)
    ensures var at := (k: nat) requires k < 4 => SextetChar(SixBits(Bits(a, b, c), k));
            ToBase64Url([a, b, c] + rest) == [at(0), at(1), at(2), at(3)] + ToBase64Url(rest)
    ensures var at := (k: nat) requires k < 4 => SextetChar(SixBits(Bits(a, b, 0), k));
            ToBase64Url([a, b]) == [at(0), at(1), at(2)]
    ensures var at := (k: nat) requires k < 4 => SextetChar(SixBits(Bits(a, 0, 0), k));
            ToBase64Url([a]) == [at(0), at(1)] && ToBase64Url([]) == []
  {
    hide SixBits, SextetChar, Sextet1, Sextet2, Sextet3, Sextet4, Bits, Os2ip;
    var zero: Byte := 0;
    SixBitsOfOctets(a, b, c);
    SixBitsOfOctets(a, b, zero);
    SixBitsOfOctets(a, zero, zero);
    var s := [Sextet1(a), Sextet2(a, b), Sextet3(b, c), Sextet4(c)];
    assert ([a, b, c] + rest)[3..] == rest;
    assert ToSextets([a, b, c] + rest) == s + ToSextets(rest);
    assert ToSextets([a, b]) == [Sextet1(a), Sextet2(a, b), Sextet3(b, zero)];
    assert ToSextets([a]) == [Sextet1(a), Sextet2(a, zero)];
    hide ToSextets;
    TextOfFour(s[0], s[1], s[2], s[3], ToSextets(rest));
    TextOfFew(Sextet1(a), Sextet2(a, b), Sextet3(b, zero));
    TextOfFew(Sextet1(a), Sextet2(a, zero), 0);
    assert ToSextets([]) == [] by { NoSextets(); }
  }

  lemma NoSextets()
    ensures ToSextets([]) == []
  {
  }

  lemma TextFirst(x: Sextet, rest: seq<Sextet>)
    ensures SextetText([x] + rest) == [SextetChar(x)] + SextetText(rest)
  {
    assert ([x] + rest)[1..] == rest;
  }

  lemma TextOfFour(x: Sextet, y: Sextet, z: Sextet, w: Sextet, rest: seq<Sextet>)
    ensures SextetText([x, y, z, w] + rest) ==
            [SextetChar(x), SextetChar(y), SextetChar(z), SextetChar(w)] + SextetText(rest)
  {
    TextFirst(w, rest);
    TextFirst(z, [w] + rest);
    TextFirst(y, [z] + ([w] + rest));
    TextFirst(x, [y] + ([z] + ([w] + rest)));
    hide SextetText, SextetChar;
    assert [x] + ([y] + ([z] + ([w] + rest))) == [x, y, z, w] + rest;
  }

  lemma TextOfFew(x: Sextet, y: Sextet, z: Sextet)
    ensures SextetText([]) == "" && SextetText([x, y]) == [SextetChar(x), SextetChar(y)]
    ensures SextetText([x, y, z]) == [SextetChar(x), SextetChar(y), SextetChar(z)]
  {
    TextFirst(z, []);
    TextFirst(y, []);
    TextFirst(y, [z]);
    TextFirst(x, [y]);
    TextFirst(x, [y, z]);
    assert [z] + [] == [z] && [y] + [] == [y] && [y] + [z] == [y, z];
    assert [x] + [y] == [x, y] && [x] + [y, z] == [x, y, z];
    hide SextetChar;
  }

  lemma CharRoundTrip(s: Sextet)
    ensures CharSextet(SextetChar(s)) == Some(s)
  {
  }

  lemma {:induction false} TextRoundTrip(s: seq<Sextet>)
    ensures TextSextets(SextetText(s)) == s
  {
    hide CharSextet, SextetChar;
    if s != [] {
      CharRoundTrip(s[0]);
      TextRoundTrip(s[1..]);
      assert SextetText(s)[1..] == SextetText(s[1..]);
      assert s == [s[0]] + s[1..];
    }
  }

  lemma OneOctet(a: Byte)
    ensures FromSextets(ToSextets([a])) == [a]
  {
    hide Sextet1, Sextet2, Sextet3, Sextet4, Octet1, Octet2, Octet3;
    var b: Byte := 0;
    OctetsOfSextets(a, b, b);
    var s := [Sextet1(a), Sextet2(a, b)];
    assert ToSextets([a]) == s;
    hide ToSextets;
    assert FromSextets(s) == [Octet1(Sextet1(a), Sextet2(a, b))];
  }

  lemma TwoOctets(a: Byte, b: Byte)
    ensures FromSextets(ToSextets([a, b])) == [a, b]
  {
    OctetsOfSextets(a, b, 0);
    hide Sextet1, Sextet2, Sextet3, Sextet4, Octet1, Octet2, Octet3;
  }

  lemma ThreeOctets(a: Byte, b: Byte, c: Byte, rest: seq<Byte>)
    ensures FromSextets(ToSextets([a, b, c] + rest)) == [a, b, c] + FromSextets(ToSextets(rest))
  {
    OctetsOfSextets(a, b, c);
    hide Sextet1, Sextet2, Sextet3, Sextet4, Octet1, Octet2, Octet3;
    var s := [Sextet1(a), Sextet2(a, b), Sextet3(b, c), Sextet4(c)] + ToSextets(rest);
    assert ([a, b, c] + rest)[3..] == rest;
    assert ToSextets([a, b, c] + rest) == s && s[4..] == ToSextets(rest);
  }

  lemma {:induction false} SextetRoundTrip(bs: seq<Byte>)
    ensures FromSextets(ToSextets(bs)) == bs
  {
    if |bs| == 1 {
      OneOctet(bs[0]);
      assert bs == [bs[0]];
    } else if |bs| == 2 {
      TwoOctets(bs[0], bs[1]);
      assert bs == [bs[0], bs[1]];
    } else if |bs| >= 3 {
      hide ToSextets, FromSextets;
      ThreeOctets(bs[0], bs[1], bs[2], bs[3..]);
      SextetRoundTrip(bs[3..]);
      assert bs == [bs[0], bs[1], bs[2]] + bs[3..];
    }
  }

  lemma Base64UrlRoundTrip(bs: seq<Byte>)
    ensures FromBase64Url(ToBase64Url(bs)) == bs
  {
    TextRoundTrip(ToSextets(bs));
    SextetRoundTrip(bs);
  }

  function BigIntToBase64Url(n: nat): string {
    ToBase64Url(HexToBytes(EvenHex(n)))
  }

  function Base64UrlToBigInt(t: string): nat {
    BytesToBigInt(FromBase64Url(t))
  }

  lemma BigIntBase64RoundTrip(n: nat)
    ensures Base64UrlToBigInt(BigIntToBase64Url(n)) == n
  {
    HexTextIsMinimal(n);
    Base64UrlRoundTrip(MinimalBytes(n));
    BytesToBigIntIsOs2ip(MinimalBytes(n));
  }

  // ---- widths and sampling -------------------------------------------------------------------

  /** `n.toString(2).length`. */
  function BitLength(n: nat): (k: nat)
    ensures k > 0
  {
    if n < 2 then 1 else 1 + BitLength(n / 2)
  }

  function ByteLength(n: nat): (k: nat)
    ensures k > 0
  {
    (BitLength(n) + 7) / 8
  }

  lemma {:induction false} BitLengthBounds(n: nat)
    ensures n < Pow(2, BitLength(n))
    ensures n > 0 ==> Pow(2, BitLength(n) - 1) <= n
  {
    if n >= 2 {
      BitLengthBounds(n / 2);
    } else {
      assert Pow(2, 1) == 2 * Pow(2, 0);
    }
  }

  lemma {:induction false} PowMonotone(i: nat, j: nat)
    requires i < j
    ensures Pow(2, i) < Pow(2, j)
    decreases j
  {
    PowerPositive(2, j - 1);
    if i < j - 1 {
      PowMonotone(i, j - 1);
    }
  }

  lemma Pow256(k: nat)
    ensures Pow(256, k) == Pow(2, 8 * k)
  {
    PowMul(2, 8, k);
    assert Pow(2, 8) == 256 by {
      assert Pow(2, 4) == 16;
      PowAdd(2, 4, 4);
    }
  }

  /** Every number fits its own byte length. */
  lemma FitsByteLength(n: nat)
    ensures n < Pow(256, ByteLength(n))
  {
    BitLengthBounds(n);
    Pow256(ByteLength(n));
    if BitLength(n) < 8 * ByteLength(n) {
      PowMonotone(BitLength(n), 8 * ByteLength(n));
    }
  }

  /**
   * The draws cover the range at most 256 times over. The promised "at least about one half" holds
   * exactly when the bit length is a multiple of eight.
   */
  lemma SamplingWidth(max: nat)
    requires max > 0
    ensures max < Pow(256, ByteLength(max)) <= 256 * max
    ensures Pow(256, ByteLength(max)) <= 2 * max <==> BitLength(max) % 8 == 0
  {
    hide *;
    FitsByteLength(max);
    BitLengthBounds(max);
    Pow256(ByteLength(max));
    ByteWidth(max);
    WidthPowers(BitLength(max), 8 * ByteLength(max));
  }

  lemma ByteWidth(n: nat)
    ensures BitLength(n) <= 8 * ByteLength(n) <= BitLength(n) + 7
    ensures 8 * ByteLength(n) == BitLength(n) <==> BitLength(n) % 8 == 0
  {
  }

  lemma WidthPowers(k: nat, w: nat)
    requires 0 < k <= w <= k + 7
    ensures Pow(2, w) <= 256 * Pow(2, k - 1)
    ensures if w == k then Pow(2, w) == 2 * Pow(2, k - 1) else Pow(2, w) >= 2 * Pow(2, k)
  {
    PowAdd(2, k - 1, w - k + 1);
    var i := w - k + 1;
    SmallPowers(i);
    PowerPositive(2, k - 1);
    MulDistributes(Pow(2, k - 1), 256, Pow(2, i));
    MulSigns(Pow(2, k - 1), 256 - Pow(2, i));
    MulDistributes(Pow(2, k - 1), Pow(2, i), 4);
    if i > 1 {
      MulSigns(Pow(2, k - 1), Pow(2, i) - 4);
    }
  }

  lemma MulSigns(x: nat, y: nat)
    ensures x * y >= 0
  {
  }

  lemma SmallPowers(i: nat)
    requires 1 <= i <= 8
    ensures i == 1 ==> Pow(2, i) == 2
    ensures i > 1 ==> 4 <= Pow(2, i) <= 256
  {
    assert Pow(2, 1) == 2 * Pow(2, 0);
    assert Pow(2, 2) == 2 * Pow(2, 1);
    assert Pow(2, 4) == 2 * Pow(2, 3);
    assert Pow(2, 6) == 2 * Pow(2, 5);
    assert Pow(2, 8) == 2 * Pow(2, 7);
  }

  /** For the bound 256 fewer than one draw in 256 is accepted: 254 of 65536. */
  lemma SamplingCanBeSlow()
    ensures ByteLength(256) == 2 && Pow(256, 2) == 65536 > 257 * (256 - 2)
  {
    assert BitLength(16) == 5 && BitLength(256) == 4 + BitLength(16);
    assert Pow(256, 2) == 256 * Pow(256, 1) && Pow(256, 1) == 256 * Pow(256, 0);
  }

  /** Rejection sampling over the random byte strings drawn, in order. */
  method RandomBigIntBelow(max: nat, draws: seq<seq<Byte>>) returns (r: Option<nat>, used: nat)
    requires forall d | d in draws :: |d| == ByteLength(max)
    ensures used <= |draws|
    ensures forall i | 0 <= i < used - (if r.Some? then 1 else 0) :: !(2 <= Os2ip(draws[i]) < max)
    ensures r.Some? ==> used > 0 && r.value == Os2ip(draws[used - 1]) && 2 <= r.value < max
    ensures r.None? ==> used == |draws|
  {
    used := 0;
    while used < |draws|
      invariant used <= |draws|
      invariant forall i | 0 <= i < used :: !(2 <= Os2ip(draws[i]) < max)
    {
      var candidate := BytesToBigInt(draws[used]);
      BytesToBigIntIsOs2ip(draws[used]);
      used := used + 1;
      if candidate >= 2 && candidate < max {
        return Some(candidate), used;
      }
    }
    r := None;
  }

  /** Uniformity: each value in range is the value of exactly one draw. */
  lemma OneDrawPerValue(max: nat, v: nat, d: seq<Byte>)
    requires 2 <= v < max && |d| == ByteLength(max)
    ensures BigIntToBytes(v, ByteLength(max)).Ok?
    ensures Os2ip(d) == v <==> d == BigIntToBytes(v, ByteLength(max)).value
  {
    FitsByteLength(max);
    EncodeDecode(v, ByteLength(max));
    var only := BigIntToBytes(v, ByteLength(max)).value;
    BytesToBigIntIsOs2ip(only);
    if Os2ip(d) == v {
      Os2ipInjective(d, only);
    }
  }
}
