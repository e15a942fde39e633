/**
 * The foreign functions the ledger calls: SHA-256 (FIPS 180-4), RSA
 * signatures with SHA-256 (PKCS#1 v1.5, section 8.2 of RFC 8017), base64
 * (section 4 of RFC 4648) and JSON (RFC 8259).  None of them is implemented
 * here: they are the fields of an `Env` value that every operation takes as a
 * parameter, and the properties the integrity argument needs are stated as
 * predicates over that value (`Lawful`).  Lemmas that rely on a property say
 * so in their `requires`.
 */
module Primitives {
  import opened Values

  datatype Env = Env(
    /** `hash('sha256', m)`: the digest as lowercase hex. */
    sha256: string -> string,
    /** `openssl_sign(m, $sig, priv, OPENSSL_ALGO_SHA256)`: (private key, message) to raw signature. */
    sign: (string, string) -> string,
    /** `1 === openssl_verify(m, sig, pub, OPENSSL_ALGO_SHA256)`: (message, raw signature, public key). */
    verify: (string, string, string) -> bool,
    /** The public half of a key pair, given its private half. */
    publicKeyOf: string -> string,
    base64Encode: string -> string,
    base64Decode: string -> string,
    jsonEncode: Value -> string,
    jsonDecode: string -> Value
  )

  /**
   * A digest is never empty and never "0": it has at least two characters.
   * (A SHA-256 digest has 64; only the lower bound matters here, and stating
   * the exact length would contradict `CollisionFree` by the pigeonhole
   * principle.)
   */
  ghost predicate DigestShape(env: Env) {
    forall m :: |env.sha256(m)| >= 2
  }

  /** Collision resistance, idealised as injectivity. */
  ghost predicate CollisionFree(env: Env) {
    forall m, m' :: env.sha256(m) == env.sha256(m') ==> m == m'
  }

  /**
   * PKCS#1 v1.5 signatures are deterministic: under the public key of `k`, a
   * signature verifies over `m` exactly when it is the signature of `m` by `k`.
   */
  ghost predicate SignaturesCheck(env: Env) {
    forall k, m, s :: env.verify(m, s, env.publicKeyOf(k)) <==> s == env.sign(k, m)
  }

  /** A signature binds its message (unforgeability, idealised), and it is never empty. */
  ghost predicate SignaturesBind(env: Env) {
    && (forall k, m, m' :: env.sign(k, m) == env.sign(k, m') ==> m == m')
    && (forall k, m :: env.sign(k, m) != "")
  }

  /** Decoding inverts encoding; an encoding is a multiple of four characters, and empty exactly for empty input. */
  ghost predicate Base64Laws(env: Env) {
    && env.base64Encode("") == ""
    && (forall b :: env.base64Decode(env.base64Encode(b)) == b)
    && (forall b :: |env.base64Encode(b)| % 4 == 0)
    && (forall b :: env.base64Encode(b) == "" ==> b == "")
  }

  /** Decoding inverts encoding, and the text of an array starts with '['. */
  ghost predicate JsonLaws(env: Env) {
    && (forall v :: env.jsonDecode(env.jsonEncode(v)) == v)
    && (forall items :: |env.jsonEncode(List(items))| > 0 && env.jsonEncode(List(items))[0] == '[')
  }

  ghost predicate Lawful(env: Env) {
    && DigestShape(env)
    && CollisionFree(env)
    && SignaturesCheck(env)
    && SignaturesBind(env)
    && Base64Laws(env)
    && JsonLaws(env)
  }

  /** Four copies of each character: an injective stand-in for base64, used only to show the laws can be met. */
  function Quadruple(b: string): (s: string)
    ensures |s| == 4 * |b|
    ensures forall i :: 0 <= i < |b| ==> s[4 * i] == b[i]
  {
    if b == [] then [] else [b[0], b[0], b[0], b[0]] + Quadruple(b[1..])
  }

  /** Every fourth character: inverts `Quadruple`. */
  function EveryFourth(s: string): (b: string)
    ensures |b| == |s| / 4
  {
    if |s| < 4 then [] else [s[0]] + EveryFourth(s[4..])
  }

  lemma {:induction false} EveryFourthInvertsQuadruple(b: string)
    ensures EveryFourth(Quadruple(b)) == b
  {
    if b != [] {
      var q := Quadruple(b);
      assert q[4..] == Quadruple(b[1..]);
      EveryFourthInvertsQuadruple(b[1..]);
    }
  }

  /**
   * The hash, signature and base64 laws have a model, so no lemma that
   * requires them holds vacuously: prefixing stands in for SHA-256 and for
   * signing, and `Quadruple` for base64.
   */
  lemma LawsAreConsistent()
    ensures exists env :: DigestShape(env) && CollisionFree(env) && SignaturesCheck(env)
                          && SignaturesBind(env) && Base64Laws(env)
  {
    var env := Env(
      m => "ab" + m,
      (k, m) => "s" + m,
      (m, s, p) => s == "s" + m,
      k => k,
      Quadruple,
      EveryFourth,
      v => "[",
      s => Null);
    forall m, m' | env.sha256(m) == env.sha256(m')
      ensures m == m'
    {
      assert m == env.sha256(m)[2..] && m' == env.sha256(m')[2..];
    }
    forall k, m, m' | env.sign(k, m) == env.sign(k, m')
      ensures m == m'
    {
      assert m == env.sign(k, m)[1..] && m' == env.sign(k, m')[1..];
    }
    forall b
      ensures env.base64Decode(env.base64Encode(b)) == b
    {
      EveryFourthInvertsQuadruple(b);
    }
    assert DigestShape(env) && CollisionFree(env) && SignaturesCheck(env) && SignaturesBind(env) && Base64Laws(env);
  }

  /** A base64 string the setters can produce: encoding what it decodes to gives it back. */
  predicate Canonical(env: Env, b64: string) {
    env.base64Encode(env.base64Decode(b64)) == b64
  }

  /** Every string a setter stores through `base64_encode` is canonical. */
  lemma EncodedIsCanonical(env: Env, raw: string)
    requires Base64Laws(env)
    ensures Canonical(env, env.base64Encode(raw))
  {
  }

  /** A base64 string is falsy only when it encodes nothing. */
  lemma EncodedTruthy(env: Env, raw: string)
    requires Base64Laws(env)
    ensures raw != "" ==> env.base64Encode(raw) != "" && env.base64Encode(raw) != "0"
  {
    assert |env.base64Encode(raw)| % 4 == 0;
  }

  /** Canonical base64 strings are equal when their decodings are. */
  lemma CanonicalInjective(env: Env, a: string, b: string)
    requires Canonical(env, a) && Canonical(env, b)
    requires env.base64Decode(a) == env.base64Decode(b)
    ensures a == b
  {
  }
}
