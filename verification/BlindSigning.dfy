/**
 Raw RSA blind signing (src/crypto/crypto.service.ts).

 Byte strings are read big-endian, as OS2IP and I2OSP do (RFC 8017, sections 4.1 and 4.2); the two raw RSA
 primitives are those of sections 5.2.1 and 5.2.2. The model starts after base64 decoding and key parsing.
 */
module Bytes {
  import opened NumberTheory

  type Byte = x: int | 0 <= x < 256
  type Buffer = seq<Byte>

  /** OS2IP */
  function ToInt(b: Buffer): nat {
    if b == [] then 0 else 256 * ToInt(b[..|b| - 1]) + b[|b| - 1]
  }

  /** I2OSP, for a value below 256^k */
  function FromInt(v: nat, k: nat): (b: Buffer)
    ensures |b| == k
  {
    if k == 0 then [] else FromInt(v / 256, k - 1) + [v % 256]
  }

  /** 256^k, one more than the largest integer that k bytes hold. */
  function Capacity(k: nat): (c: nat)
    ensures c > 0
  {
    if k == 0 then 1 else 256 * Capacity(k - 1)
  }

  function Zeros(k: nat): Buffer {
    seq(k, _ => 0)
  }

  /** Buffer.subarray / Buffer.concat: keep the last k bytes, or pad with leading zeros. */
  function Normalize(b: Buffer, k: nat): (r: Buffer)
    ensures |r| == k
    ensures |b| == k ==> r == b
  {
    if |b| > k then b[|b| - k..] else Zeros(k - |b|) + b
  }

  lemma {:induction false} ToIntBound(b: Buffer)
    ensures ToInt(b) < Capacity(|b|)
  {
    if b == [] {
    } else {
      ToIntBound(b[..|b| - 1]);
    }
  }

  lemma ShiftByByte(x: int, w: int, y: int, last: int)
    ensures 256 * (x * w + y) + last == x * (256 * w) + (256 * y + last)
  {
  }

  lemma {:induction false} ToIntConcat(a: Buffer, b: Buffer)
    ensures ToInt(a + b) == ToInt(a) * Capacity(|b|) + ToInt(b)
  {
    if b == [] {
      assert a + b == a;
    } else {
      var init, last := b[..|b| - 1], b[|b| - 1];
      assert (a + b)[..|a + b| - 1] == a + init;
      ToIntConcat(a, init);
      ShiftByByte(ToInt(a), Capacity(|init|), ToInt(init), last);
    }
  }

  lemma {:induction false} ToIntZeros(k: nat)
    ensures ToInt(Zeros(k)) == 0
  {
    if k == 0 {
    } else {
      assert Zeros(k)[..k - 1] == Zeros(k - 1);
      ToIntZeros(k - 1);
    }
  }

  /** Padding and truncation both keep the integer modulo 256^k. */
  lemma NormalizeKeepsResidue(b: Buffer, k: nat)
    ensures ToInt(Normalize(b, k)) == ToInt(b) % Capacity(k)
  {
    var r := Normalize(b, k);
    ToIntBound(r);
    var head := if |b| > k then b[..|b| - k] else [];
    if |b| > k {
      assert b == head + r;
      ToIntConcat(head, r);
    } else {
      ToIntConcat(Zeros(k - |b|), b);
      ToIntZeros(k - |b|);
    }
    Remainder(ToInt(head), Capacity(k), ToInt(r));
  }

  lemma {:induction false} ToIntInjective(a: Buffer, b: Buffer)
    requires |a| == |b| && ToInt(a) == ToInt(b)
    ensures a == b
  {
    if a == [] {
    } else {
      ToIntInjective(a[..|a| - 1], b[..|b| - 1]);
      assert a == a[..|a| - 1] + [a[|a| - 1]];
      assert b == b[..|b| - 1] + [b[|b| - 1]];
    }
  }

  lemma {:induction false} FromIntRoundTrip(v: nat, k: nat)
    requires v < Capacity(k)
    ensures ToInt(FromInt(v, k)) == v
  {
    if k == 0 {
    } else {
      FromIntRoundTrip(v / 256, k - 1);
      assert FromInt(v, k)[..k - 1] == FromInt(v / 256, k - 1);
    }
  }
}

module BlindSigning {
  import opened NumberTheory
  import opened Bytes

  datatype Result<T> = Success(value: T) | BadRequest

  /** The parsed key: modulus, public and private exponent, and the modulus length in bytes. */
  datatype Key = Key(n: nat, e: nat, d: nat, k: nat)

  /** An RSA key: n is a product of two distinct primes that fits in k bytes, and e*d - 1 is a common multiple of
      p-1 and q-1, that is, e*d = 1 modulo their least common multiple. */
  ghost predicate ValidKey(key: Key, p: int, q: int) {
    && Prime(p) && Prime(q) && p != q
    && key.n == p * q && 1 < key.n < Capacity(key.k)
    && key.e * key.d >= 1
    && (key.e * key.d - 1) % (p - 1) == 0 && (key.e * key.d - 1) % (q - 1) == 0
  }

  /** privateEncrypt and publicDecrypt without padding: the input must be exactly k bytes and below the modulus. */
  function RawRsa(key: Key, exponent: nat, input: Buffer): Result<Buffer>
    requires key.n > 0
  {
    if |input| != key.k || ToInt(input) >= key.n then BadRequest
    else Success(FromInt(Pow(ToInt(input), exponent) % key.n, key.k))
  }

  function SignBlindedToken(key: Key, blinded: Buffer): Result<Buffer>
    requires key.n > 0
  {
    if |blinded| < 32 || |blinded| > 4096 then BadRequest
    else if |blinded| != key.k then RawRsa(key, key.d, Normalize(blinded, key.k))
    else RawRsa(key, key.d, blinded)
  }

  predicate VerifyBlindSignedToken(key: Key, token: Buffer, signature: Buffer)
    requires key.n > 0
  {
    if |signature| != key.k then
      match RawRsa(key, key.e, Normalize(signature, key.k))
      case BadRequest => false
      case Success(decrypted) =>
        decrypted == (if |token| < key.k then Zeros(key.k - |token|) + token
                      else if |token| > key.k then token[|token| - key.k..]
                      else token)
    else
      match RawRsa(key, key.e, signature)
      case BadRequest => false
      case Success(decrypted) => decrypted == Normalize(token, key.k)
  }

  /** The integer that a buffer of any length stands for once it is padded or truncated to the key size. */
  function Residue(key: Key, b: Buffer): nat {
    ToInt(b) % Capacity(key.k)
  }

  lemma ResidueIsNormalized(key: Key, b: Buffer)
    ensures Residue(key, b) == ToInt(Normalize(b, key.k))
  {
    NormalizeKeepsResidue(b, key.k);
  }

  lemma {:induction false} PowNonNegative(b: int, e: nat)
    requires b >= 0
    ensures Pow(b, e) >= 0
  {
    if e == 0 {
    } else {
      PowNonNegative(b, e - 1);
    }
  }

  /** What RawRsa computes, on integers. */
  lemma RawRsaMeaning(key: Key, exponent: nat, input: Buffer)
    requires 0 < key.n <= Capacity(key.k) && |input| == key.k
    ensures RawRsa(key, exponent, input).Success? <==> ToInt(input) < key.n
    ensures ToInt(input) < key.n ==>
              var out := RawRsa(key, exponent, input).value;
              |out| == key.k && ToInt(out) == Pow(ToInt(input), exponent) % key.n
  {
    FromIntRoundTrip(Pow(ToInt(input), exponent) % key.n, key.k);
  }

  /** Signing accepts exactly the buffers of 32 to 4096 bytes whose residue is below the modulus, and returns the
      k-byte form of residue^d mod n. */
  lemma SignMeaning(key: Key, blinded: Buffer)
    requires 0 < key.n <= Capacity(key.k)
    ensures SignBlindedToken(key, blinded).Success? <==>
              32 <= |blinded| <= 4096 && Residue(key, blinded) < key.n
    ensures SignBlindedToken(key, blinded).Success? ==>
              var s := SignBlindedToken(key, blinded).value;
              |s| == key.k && ToInt(s) == Pow(Residue(key, blinded), key.d) % key.n
  {
    ResidueIsNormalized(key, blinded);
    RawRsaMeaning(key, key.d, Normalize(blinded, key.k));
  }

  /** Both branches of verification decide one predicate, for tokens and signatures of every length. */
  lemma VerifyMeaning(key: Key, token: Buffer, signature: Buffer)
    requires 0 < key.n <= Capacity(key.k)
    ensures VerifyBlindSignedToken(key, token, signature) <==>
              && Residue(key, signature) < key.n
              && Pow(Residue(key, signature), key.e) % key.n == Residue(key, token)
  {
    var s, t := Normalize(signature, key.k), Normalize(token, key.k);
    ResidueIsNormalized(key, signature);
    ResidueIsNormalized(key, token);
    RawRsaMeaning(key, key.e, s);
    if ToInt(s) < key.n && ToInt(RawRsa(key, key.e, s).value) == ToInt(t) {
      ToIntInjective(RawRsa(key, key.e, s).value, t);
    }
    assert |token| == key.k ==> t == token;
  }

  /** Encrypting and decrypting undo each other on residues, in either order. */
  lemma ExponentsCancel(key: Key, p: int, q: int, x: nat, a: nat, b: nat)
    requires ValidKey(key, p, q) && x < key.n
    requires (a == key.e && b == key.d) || (a == key.d && b == key.e)
    ensures Pow(Pow(x, a) % key.n, b) % key.n == x
  {
    var n := key.n;
    assert a * b == key.e * key.d;
    PowerIsIdentity(p, q, x, a * b);
    PowPow(x, a, b);
    CongruentMod(Pow(x, a), n);
    CongruentPow(Pow(x, a) % n, Pow(x, a), b, n);
    CongruentTrans(Pow(Pow(x, a) % n, b), Pow(x, a * b), x, n);
    CongruentIffMod(Pow(Pow(x, a) % n, b), x, n);
    CongruentMod(x, n);
    CongruentSmall(x, x % n, n);
  }

  /** For a valid key the accepted signatures of a token are exactly those with residue m^d mod n; a token whose
      residue is not below the modulus has none. */
  lemma OneSignaturePerToken(key: Key, p: int, q: int, token: Buffer, signature: Buffer)
    requires ValidKey(key, p, q)
    ensures VerifyBlindSignedToken(key, token, signature) <==>
              && Residue(key, token) < key.n
              && Residue(key, signature) == Pow(Residue(key, token), key.d) % key.n
  {
    VerifyMeaning(key, token, signature);
    var m, s := Residue(key, token), Residue(key, signature);
    if s < key.n && Pow(s, key.e) % key.n == m {
      ExponentsCancel(key, p, q, s, key.e, key.d);
    }
    if m < key.n && s == Pow(m, key.d) % key.n {
      ExponentsCancel(key, p, q, m, key.d, key.e);
    }
  }

  /** (m * r^e)^d = m^d * r modulo n. */
  lemma SignedBlindedToken(key: Key, p: int, q: int, m: nat, r: nat)
    requires ValidKey(key, p, q)
    ensures Congruent(Pow((m * Pow(r, key.e)) % key.n, key.d) % key.n, Pow(m, key.d) * r, key.n)
  {
    var n, e, d := key.n, key.e, key.d;
    var blinded, md := m * Pow(r, e), Pow(m, d);
    CongruentMod(blinded, n);
    CongruentPow(blinded % n, blinded, d, n);
    PowProduct(m, Pow(r, e), d);
    PowPow(r, e, d);
    PowerIsIdentity(p, q, r, e * d);
    CongruentRefl(md, n);
    CongruentMul(md, md, Pow(r, e * d), r, n);
    CongruentTrans(Pow(blinded % n, d), Pow(blinded, d), md * r, n);
    CongruentMod(Pow(blinded % n, d), n);
    CongruentTrans(Pow(blinded % n, d) % n, Pow(blinded % n, d), md * r, n);
  }

  /** Multiplying by the inverse of r removes the blinding factor. */
  lemma Unblinding(n: int, signed: int, md: int, r: int, rInverse: int)
    requires n > 0 && Congruent(signed, md * r, n) && Congruent(r * rInverse, 1, n)
    ensures Congruent(signed * rInverse, md, n)
  {
    CongruentRefl(rInverse, n);
    CongruentMul(signed, md * r, rInverse, rInverse, n);
    CongruentRefl(md, n);
    CongruentMul(md, md, r * rInverse, 1, n);
    assert (md * r) * rInverse == md * (r * rInverse);
    CongruentTrans(signed * rInverse, md * (r * rInverse), md, n);
  }

  /** The blind signing round trip. The client sends any buffer whose residue is m * r^e mod n; the service signs
      it; of all buffers the client could send back, exactly those with residue sig * r^-1 mod n are accepted. */
  lemma BlindSigningRoundTrip(key: Key, p: int, q: int, token: Buffer, r: nat, rInverse: nat, blinded: Buffer,
                              unblinded: Buffer)
    requires ValidKey(key, p, q) && Congruent(r * rInverse, 1, key.n)
    requires Residue(key, token) < key.n && 32 <= |blinded| <= 4096
    requires Residue(key, blinded) == (Residue(key, token) * Pow(r, key.e)) % key.n
    ensures SignBlindedToken(key, blinded).Success?
    ensures VerifyBlindSignedToken(key, token, unblinded) <==>
              Residue(key, unblinded) == (ToInt(SignBlindedToken(key, blinded).value) * rInverse) % key.n
  {
    var m := Residue(key, token);
    SignMeaning(key, blinded);
    SignedBlindedToken(key, p, q, m, r);
    var signed := ToInt(SignBlindedToken(key, blinded).value);
    Unblinding(key.n, signed, Pow(m, key.d), r, rInverse);
    CongruentIffMod(signed * rInverse, Pow(m, key.d), key.n);
    OneSignaturePerToken(key, p, q, token, unblinded);
  }
}
