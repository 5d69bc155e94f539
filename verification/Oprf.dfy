/**
 * The RSA oblivious pseudo-random function: blind, evaluate, unblind, the server's direct path, and
 * the stored form of its key. SHA-256 and MGF1 are arbitrary functions.
 */
module Oprf {
  import opened Wrappers
  import opened NumberTheory
  import opened Bignum
  import opened Codecs

  datatype Key = Key(n: nat, e: nat, d: nat, nByteLength: nat, version: int)
  datatype KeyRecord = KeyRecord(n: string, e: string, d: string, version: int)

  /** `expand` is MGF1 over the seeded digest of the input; `tokenDigest` the final SHA-256. */
  datatype Hashes = Hashes(expand: (string, nat) -> seq<Byte>, tokenDigest: seq<Byte> -> string)

  datatype ProtocolError = ValueTooLong | NoInverse

  // ---- the protocol --------------------------------------------------------------------------

  function HashToBigInt(input: string, n: nat, nByteLength: nat, hash: Hashes): nat
    requires n > 0
  {
    BytesToBigInt(hash.expand(input, nByteLength)) % n
  }

  /** `r` is the client's random draw from [2, n). */
  function Blind(input: string, key: Key, r: nat, hash: Hashes): nat
    requires key.n > 0
  {
    MulMod(HashToBigInt(input, key.n, key.nByteLength, hash), ModExp(r, key.e, key.n), key.n)
  }

  function MulMod(a: nat, b: nat, n: nat): (r: nat)
    requires n > 0
  {
    MulNonNegative(a, b);
    a * b % n
  }

  lemma MulNonNegative(a: nat, b: nat)
    ensures a * b >= 0
  {
  }

  function EvaluateBlinded(blinded: nat, key: Key): nat
    requires key.n > 0
  {
    ModExp(blinded, key.d, key.n)
  }

  function Token(unblinded: nat, key: Key, hash: Hashes): Result<string, ProtocolError>
    requires key.n > 0
  {
    match BigIntToBytes(unblinded % key.n, key.nByteLength)
    case Err(_) => Err(ValueTooLong)
    case Ok(bs) => Ok(hash.tokenDigest(bs))
  }

  function Unblind(evaluated: nat, r: nat, key: Key, hash: Hashes): Result<string, ProtocolError>
    requires key.n > 0
  {
    match ModInverse(r, key.n)
    case Err(_) => Err(NoInverse)
    case Ok(rInv) => Token(evaluated * rInv % key.n, key, hash)
  }

  function DirectToken(input: string, key: Key, hash: Hashes): Result<string, ProtocolError>
    requires key.n > 0
  {
    Token(ModExp(HashToBigInt(input, key.n, key.nByteLength, hash), key.d, key.n), key, hash)
  }

  // ---- what makes a key valid ----------------------------------------------------------------

  /** Two distinct primes, and exponents inverse to each other below each (section 3.2 of RFC 8017). */
  ghost predicate RsaFactors(n: nat, e: nat, d: nat, p: int, q: int) {
    Prime(p) && Prime(q) && p != q && n == p * q &&
    e > 0 && d > 0 && InverseExponents(e, d, p) && InverseExponents(e, d, q)
  }

  ghost predicate InverseExponents(e: nat, d: nat, p: int)
    requires p > 1
  {
    Congruent(e * d, 1, p - 1)
  }

  ghost predicate ValidKey(key: Key) {
    (exists p, q :: RsaFactors(key.n, key.e, key.d, p, q)) && key.nByteLength == ByteLength(key.n)
  }

  // ---- raising to e * d is the identity ------------------------------------------------------

  lemma PrimeUnit(a: int, p: int)
    requires Prime(p) && !Divides(p, a)
    ensures Unit(a, p)
  {
    var r := a % p;
    DividesIsZeroMod(p, a);
    UnitIffCoprime(r, p);
    forall d: int | d > 0 && Divides(d, r) && Divides(d, p)
      ensures d == 1
    {
      DividesIsSmall(d, r);
    }
    assert a == p * (a / p) + r;
    UnitShift(r, a, p, a / p);
  }

  lemma UnitShift(r: int, a: int, p: int, q: int)
    requires Unit(r, p) && a == p * q + r
    ensures Unit(a, p)
  {
    var x, y :| r * x + p * y == 1;
    MulDistributes(x, p * q, r);
    MulAssoc(p, q, x);
    MulDistributes(p, y, q * x);
    assert a * x + p * (y - q * x) == 1;
  }

  lemma FermatPrime(a: int, p: int)
    requires Prime(p) && !Divides(p, a)
    ensures Congruent(Pow(a, p - 1), 1, p)
  {
    PrimeUnit(a, p);
    forall i | 1 <= i <= p - 1
      ensures Unit(i, p)
    {
      if Divides(p, i) {
        DividesIsSmall(p, i);
      }
      PrimeUnit(i, p);
    }
    Fermat(a, p);
  }

  lemma MulPositive(a: nat, b: nat)
    ensures a * b >= 0
    ensures a > 0 && b > 0 ==> a * b > 0
  {
  }

  lemma IdentityModPrime(x: int, w: nat, p: int)
    requires Prime(p) && w > 0 && Congruent(w, 1, p - 1)
    ensures Congruent(Pow(x, w), x, p)
  {
    if Divides(p, x) {
      DividesProduct(p, x, Pow(x, w - 1));
      DividesSum(p, Pow(x, w), x);
    } else {
      var k :| w - 1 == (p - 1) * k;
      MulOrder(p - 1, k);
      assert k >= 0;
      FermatPrime(x, p);
      PowMul(x, p - 1, k);
      CongruentPow(Pow(x, p - 1), 1, k, p);
      PowOfOne(k);
      CongruentRefl(x, p);
      CongruentMul(x, x, Pow(x, w - 1), 1, p);
    }
  }

  /** Chinese remaindering: what two distinct primes divide, their product divides. */
  lemma DividesByBoth(p: int, q: int, z: int)
    requires Prime(p) && Prime(q) && p != q && Divides(p, z) && Divides(q, z)
    ensures Divides(p * q, z)
  {
    var u :| z == p * u;
    assert !Divides(q, p);
    PrimeUnit(p, q);
    EuclidLemma(p, u, q);
    var v :| u == q * v;
    MulAssoc(p, q, v);
    DividesIntro(p * q, z, v);
  }

  lemma RsaIdentity(x: int, n: nat, e: nat, d: nat, p: int, q: int)
    requires RsaFactors(n, e, d, p, q)
    ensures e * d >= 0 && Congruent(Pow(x, e * d), x, n)
  {
    MulPositive(e, d);
    IdentityModPrime(x, e * d, p);
    IdentityModPrime(x, e * d, q);
    DividesByBoth(p, q, Pow(x, e * d) - x);
  }

  // ---- blind, evaluate, unblind = direct -----------------------------------------------------

  lemma ExpCongruent(b: int, e: nat, n: nat)
    requires n > 0
    ensures Congruent(ModExp(b, e, n), Pow(b, e), n)
  {
    CongruentMod(Pow(b, e), 0, n);
  }

  /** Signing the blinded message gives m^d * r, up to the modulus. */
  lemma SignedBlinding(m: nat, r: nat, n: nat, e: nat, d: nat, p: int, q: int)
    requires RsaFactors(n, e, d, p, q) && n > 0
    ensures Congruent(ModExp(MulMod(m, ModExp(r, e, n), n), d, n), Pow(m, d) * r, n)
  {
    var re := ModExp(r, e, n);
    var blinded := MulMod(m, re, n);
    ExpCongruent(r, e, n);
    CongruentRefl(m, n);
    CongruentMul(m, m, re, Pow(r, e), n);
    CongruentMod(m * re, 0, n);
    CongruentTrans(blinded, m * re, m * Pow(r, e), n);
    CongruentPow(blinded, m * Pow(r, e), d, n);
    PowOfProduct(m, Pow(r, e), d);
    PowMul(r, e, d);
    RsaIdentity(r, n, e, d, p, q);
    CongruentRefl(Pow(m, d), n);
    CongruentMul(Pow(m, d), Pow(m, d), Pow(r, e * d), r, n);
    ExpCongruent(blinded, d, n);
    CongruentTrans(ModExp(blinded, d, n), Pow(blinded, d), Pow(m, d) * Pow(r, e * d), n);
    CongruentTrans(ModExp(blinded, d, n), Pow(m, d) * Pow(r, e * d), Pow(m, d) * r, n);
  }

  lemma RemoveBlinding(evaluated: nat, md: int, r: int, rInv: int, n: nat)
    requires n > 0 && Congruent(evaluated, md * r, n) && Congruent(r * rInv, 1, n)
    ensures evaluated * rInv % n == md % n
  {
    CongruentRefl(rInv, n);
    CongruentMul(evaluated, md * r, rInv, rInv, n);
    MulAssoc(md, r, rInv);
    CongruentRefl(md, n);
    CongruentMul(md, md, r * rInv, 1, n);
    CongruentTrans(evaluated * rInv, md * (r * rInv), md, n);
    CongruentMod(evaluated * rInv, md, n);
  }

  /**
   * For every key made from two primes p and q, every input and every r, the client's three steps
   * yield exactly the server's direct token when r is coprime to the modulus, and fail to unblind
   * otherwise.
   */
  lemma ObliviousEqualsDirect(input: string, r: nat, key: Key, hash: Hashes, p: int, q: int)
    requires RsaFactors(key.n, key.e, key.d, p, q) && key.n > 0
    ensures var evaluated := EvaluateBlinded(Blind(input, key, r, hash), key);
            Unblind(evaluated, r, key, hash) ==
            if Coprime(r, key.n) then DirectToken(input, key, hash) else Err(NoInverse)
  {
    ModInverseExists(r, key.n);
    if Coprime(r, key.n) {
      var m := HashToBigInt(input, key.n, key.nByteLength, hash);
      var evaluated := EvaluateBlinded(Blind(input, key, r, hash), key);
      SignedBlinding(m, r, key.n, key.e, key.d, p, q);
      RemoveBlinding(evaluated, Pow(m, key.d), r, ModInverse(r, key.n).value, key.n);
    }
  }

  /**
   * With the byte length of its modulus, as in every valid key, the token is the digest of the
   * fixed-width octets that stand for m^d mod n, where m is the big-endian value of the input's
   * expansion to that length, modulo n: no token ever fails for length.
   */
  lemma DirectTokenSucceeds(input: string, key: Key, hash: Hashes)
    requires key.n > 0 && key.nByteLength == ByteLength(key.n)
    ensures var m := Os2ip(hash.expand(input, key.nByteLength)) % key.n;
            exists bs: seq<Byte> ::
              |bs| == key.nByteLength && Os2ip(bs) == Pow(m, key.d) % key.n &&
              DirectToken(input, key, hash) == Ok(hash.tokenDigest(bs))
  {
    FitsByteLength(key.n);
    BytesToBigIntIsOs2ip(hash.expand(input, key.nByteLength));
    var v := ModExp(HashToBigInt(input, key.n, key.nByteLength, hash), key.d, key.n);
    QuotientUnique(v, key.n, 0, v);
    EncodeDecode(v, key.nByteLength);
    var bs := BigIntToBytes(v, key.nByteLength).value;
    BytesToBigIntIsOs2ip(bs);
    assert DirectToken(input, key, hash) == Ok(hash.tokenDigest(bs));
  }

  /** What goes over the wire: m * r^e mod n to the server, and its d-th power back. */
  lemma OnTheWire(input: string, r: nat, key: Key, hash: Hashes, blinded: nat)
    requires key.n > 0
    ensures var m := Os2ip(hash.expand(input, key.nByteLength)) % key.n;
            Blind(input, key, r, hash) == m * Pow(r, key.e) % key.n
    ensures EvaluateBlinded(blinded, key) == Pow(blinded, key.d) % key.n
  {
    BytesToBigIntIsOs2ip(hash.expand(input, key.nByteLength));
    var m := HashToBigInt(input, key.n, key.nByteLength, hash);
    var re := ModExp(r, key.e, key.n);
    ExpCongruent(r, key.e, key.n);
    CongruentRefl(m, key.n);
    CongruentMul(m, m, re, Pow(r, key.e), key.n);
    CongruentMod(m * re, m * Pow(r, key.e), key.n);
  }

  // ---- storing a key -------------------------------------------------------------------------

  function SerializeKey(k: Key): KeyRecord {
    KeyRecord(BigIntToBase64Url(k.n), BigIntToBase64Url(k.e), BigIntToBase64Url(k.d), k.version)
  }

  function DeserializeKey(r: KeyRecord): Key {
    var n := Base64UrlToBigInt(r.n);
    Key(n, Base64UrlToBigInt(r.e), Base64UrlToBigInt(r.d), ByteLength(n), r.version)
  }

  /** A stored key comes back unchanged exactly when its byte length is that of its modulus. */
  lemma KeyRoundTrip(k: Key)
    ensures DeserializeKey(SerializeKey(k)) == k <==> k.nByteLength == ByteLength(k.n)
    ensures ValidKey(k) ==> DeserializeKey(SerializeKey(k)) == k
    ensures var stored := SerializeKey(k);
            && Base64UrlToBigInt(stored.n) == k.n && Base64UrlToBigInt(stored.e) == k.e
            && Base64UrlToBigInt(stored.d) == k.d && stored.version == k.version
  {
    BigIntBase64RoundTrip(k.n);
    BigIntBase64RoundTrip(k.e);
    BigIntBase64RoundTrip(k.d);
  }
}
