/**
 * What src/Transaction.php promises, proved about the functions of module
 * Transactions: signing yields a valid record whose id is the derived one,
 * a change to any signed field after signing is detected, and the text
 * encoding round-trips while refusing stale ids and foreign signatures.
 */
module TransactionProofs {
  import opened Text
  import opened Values
  import opened Primitives
  import opened Errors
  import opened Transactions

  /** The id depends on from, to, amount and time only: neither the old id nor the signature enters it. */
  lemma IdDependsOnContentOnly(env: Env, t: TxRecord, u: TxRecord)
    requires t.from == u.from && t.to == u.to && t.amount == u.amount && t.time == u.time
    ensures GeneratedId(env, t).Ok? <==> GeneratedId(env, u).Ok?
    ensures GeneratedId(env, t).Ok? ==> GeneratedId(env, t).value.id == GeneratedId(env, u).value.id
  {
  }

  /** Signing with the private half of the sender's key yields a valid record carrying the derived id. */
  lemma SignThenValid(env: Env, t: TxRecord, privateKey: string)
    requires SignaturesCheck(env) && Base64Laws(env)
    requires Filled(t)
    requires env.base64Decode(t.from) == env.publicKeyOf(privateKey)
    ensures Signed(env, t, privateKey).Ok?
    ensures Valid(env, Signed(env, t, privateKey).value)
    ensures Signed(env, t, privateKey).value.id == ComputeId(env, Signed(env, t, privateKey).value)
  {
    var u := Signed(env, t, privateKey).value;
    assert env.base64Decode(u.signature) == env.sign(privateKey, SignedText(u));
  }

  /** `isValid` holds exactly when the stored signature is the sender's signature over the stored id and the id text. */
  lemma ValidIffSenderSigned(env: Env, t: TxRecord, privateKey: string)
    requires SignaturesCheck(env)
    requires env.base64Decode(t.from) == env.publicKeyOf(privateKey)
    ensures Valid(env, t) <==> env.base64Decode(t.signature) == env.sign(privateKey, SignedText(t))
  {
  }

  /**
   * Two valid records under the same sender key and the same signature
   * sign the same text: any change to the signed text is detected.
   */
  lemma ValidFixesSignedText(env: Env, t: TxRecord, u: TxRecord, privateKey: string)
    requires SignaturesCheck(env) && SignaturesBind(env)
    requires env.base64Decode(t.from) == env.publicKeyOf(privateKey) && u.from == t.from
    requires env.base64Decode(u.signature) == env.base64Decode(t.signature)
    requires Valid(env, t) && Valid(env, u)
    ensures SignedText(u) == SignedText(t)
  {
    var s := env.base64Decode(t.signature);
    assert env.verify(SignedText(t), s, env.publicKeyOf(privateKey));
    assert env.verify(SignedText(u), s, env.publicKeyOf(privateKey));
    assert env.sign(privateKey, SignedText(t)) == env.sign(privateKey, SignedText(u));
  }

  /** The signed text split around the `to` field. */
  lemma SignedTextAroundTo(t: TxRecord)
    ensures SignedText(t) == (t.id + " " + t.from + " ") + (t.to + (" " + FormatAmount(t.amount) + " " + Decimal(t.time)))
  {
  }

  /** The id text split around the `to` field. */
  lemma IdTextAroundTo(t: TxRecord)
    ensures IdText(t) == (t.from + " ") + (t.to + (" " + FormatAmount(t.amount) + " " + Decimal(t.time)))
  {
  }

  /** The signed text split around the amount. */
  lemma SignedTextAroundAmount(t: TxRecord)
    ensures SignedText(t) == (t.id + " " + t.from + " " + t.to + " ") + (FormatAmount(t.amount) + (" " + Decimal(t.time)))
  {
  }

  /** Changing `to` after signing makes the record invalid. */
  lemma TamperedToInvalid(env: Env, t: TxRecord, privateKey: string, to: string)
    requires SignaturesCheck(env) && SignaturesBind(env)
    requires env.base64Decode(t.from) == env.publicKeyOf(privateKey)
    requires Valid(env, t) && to != t.to
    ensures !Valid(env, t.(to := to))
  {
    var u := t.(to := to);
    if Valid(env, u) {
      ValidFixesSignedText(env, t, u, privateKey);
      var p := t.id + " " + t.from + " ";
      var q := " " + FormatAmount(t.amount) + " " + Decimal(t.time);
      SignedTextAroundTo(t);
      SignedTextAroundTo(u);
      PrefixCancel(p, t.to + q, to + q);
      SuffixCancel(t.to, to, q);
      assert false;
    }
  }

  /** Changing the amount after signing makes the record invalid. */
  lemma TamperedAmountInvalid(env: Env, t: TxRecord, privateKey: string, amount: int)
    requires SignaturesCheck(env) && SignaturesBind(env)
    requires env.base64Decode(t.from) == env.publicKeyOf(privateKey)
    requires Valid(env, t) && amount != t.amount
    ensures !Valid(env, t.(amount := amount))
  {
    var u := t.(amount := amount);
    if Valid(env, u) {
      ValidFixesSignedText(env, t, u, privateKey);
      var p := t.id + " " + t.from + " " + t.to + " ";
      var q := " " + Decimal(t.time);
      SignedTextAroundAmount(t);
      SignedTextAroundAmount(u);
      PrefixCancel(p, FormatAmount(t.amount) + q, FormatAmount(amount) + q);
      SuffixCancel(FormatAmount(t.amount), FormatAmount(amount), q);
      AmountInjective(t.amount, amount);
      assert false;
    }
  }

  /** Changing the time after signing makes the record invalid. */
  lemma TamperedTimeInvalid(env: Env, t: TxRecord, privateKey: string, time: int)
    requires SignaturesCheck(env) && SignaturesBind(env)
    requires env.base64Decode(t.from) == env.publicKeyOf(privateKey)
    requires Valid(env, t) && time != t.time
    ensures !Valid(env, t.(time := time))
  {
    var u := t.(time := time);
    if Valid(env, u) {
      ValidFixesSignedText(env, t, u, privateKey);
      var p := t.id + " " + t.from + " " + t.to + " " + FormatAmount(t.amount) + " ";
      assert SignedText(t) == p + Decimal(t.time);
      assert SignedText(u) == p + Decimal(time);
      PrefixCancel(p, Decimal(t.time), Decimal(time));
      DecimalInjective(t.time, time);
      assert false;
    }
  }

  /** Changing the stored id after signing makes the record invalid, since the id is part of the signed text. */
  lemma TamperedIdInvalid(env: Env, t: TxRecord, privateKey: string, id: string)
    requires SignaturesCheck(env) && SignaturesBind(env)
    requires env.base64Decode(t.from) == env.publicKeyOf(privateKey)
    requires Valid(env, t) && id != t.id
    ensures !Valid(env, t.(id := id))
  {
    var u := t.(id := id);
    if Valid(env, u) {
      ValidFixesSignedText(env, t, u, privateKey);
      assert IdText(u) == IdText(t);
      assert SignedText(t) == t.id + (" " + IdText(t));
      assert SignedText(u) == id + (" " + IdText(t));
      SuffixCancel(t.id, id, " " + IdText(t));
      assert false;
    }
  }

  /** Replacing the signature by one that decodes differently makes the record invalid. */
  lemma TamperedSignatureInvalid(env: Env, t: TxRecord, privateKey: string, signature: string)
    requires SignaturesCheck(env)
    requires env.base64Decode(t.from) == env.publicKeyOf(privateKey)
    requires Valid(env, t) && env.base64Decode(signature) != env.base64Decode(t.signature)
    ensures !Valid(env, t.(signature := signature))
  {
    assert env.verify(SignedText(t), env.base64Decode(t.signature), env.publicKeyOf(privateKey));
  }

  /**
   * A record as `sign` leaves it, which the decoder accepts back: the id is
   * the derived one, the sender key is held in canonical base64, and the
   * fields the decoder tests for truthiness (the raw key, the base64
   * signature) are not falsy.
   */
  predicate WellFormed(env: Env, t: TxRecord) {
    && Filled(t)
    && t.id == ComputeId(env, t)
    && Canonical(env, t.from)
    && !Falsy(env.base64Decode(t.from))
    && !Falsy(t.signature)
  }

  /** The fields of the encoded document, looked up by key. */
  lemma DocumentFields(env: Env, t: TxRecord)
    ensures Get(Document(env, t), "id") == Str(t.id)
    ensures Get(Document(env, t), "from") == Str(env.base64Decode(t.from))
    ensures Get(Document(env, t), "to") == Str(t.to)
    ensures Get(Document(env, t), "amount") == Amount(t.amount)
    ensures Get(Document(env, t), "signature") == Str(t.signature)
    ensures Get(Document(env, t), "time") == Int(t.time)
  {
    DocumentFieldsFront(env, t);
    DocumentFieldsBack(env, t);
  }

  lemma DocumentFieldsFront(env: Env, t: TxRecord)
    ensures Get(Document(env, t), "id") == Str(t.id)
    ensures Get(Document(env, t), "from") == Str(env.base64Decode(t.from))
    ensures Get(Document(env, t), "to") == Str(t.to)
  {
    var e := Document(env, t).entries;
    LookupLatest(e, 0);
    LookupLatest(e, 1);
    LookupLatest(e, 2);
  }

  lemma DocumentFieldsBack(env: Env, t: TxRecord)
    ensures Get(Document(env, t), "amount") == Amount(t.amount)
    ensures Get(Document(env, t), "signature") == Str(t.signature)
    ensures Get(Document(env, t), "time") == Int(t.time)
  {
    var e := Document(env, t).entries;
    LookupLatest(e, 3);
    LookupLatest(e, 4);
    LookupLatest(e, 5);
  }

  /** Decoding the encoding of a record yields the record the setters rebuild from the same document. */
  lemma DecodeSerialized(env: Env, t: TxRecord)
    requires Base64Laws(env) && JsonLaws(env)
    ensures env.jsonDecode(env.base64Decode(Serialized(env, t))) == Document(env, t)
  {
  }

  /** `createFromString(t.__toString())` gives back every field of a valid, well-formed record. */
  lemma RoundTrip(env: Env, t: TxRecord)
    requires DigestShape(env) && Base64Laws(env) && JsonLaws(env)
    requires Valid(env, t) && WellFormed(env, t)
    ensures Encoded(env, t).Some?
    ensures Decoded(env, Encoded(env, t).value) == Ok(t)
  {
    var data := Document(env, t);
    DecodeSerialized(env, t);
    DocumentFields(env, t);
    assert |t.id| >= 2;
    assert DocumentFilled(data);
    assert FromDocument(env, data) == t.(id := "");
    assert IdText(t.(id := "")) == IdText(t);
  }

  /** A record fresh from `sign` (with a key of its own, held in canonical base64) is well-formed. */
  lemma SignedIsWellFormed(env: Env, t: TxRecord, privateKey: string)
    requires Lawful(env)
    requires Filled(t) && Canonical(env, t.from) && !Falsy(env.base64Decode(t.from))
    ensures Signed(env, t, privateKey).Ok?
    ensures WellFormed(env, Signed(env, t, privateKey).value)
  {
    var u := Signed(env, t, privateKey).value;
    var raw := env.sign(privateKey, SignedText(u.(signature := t.signature)));
    EncodedTruthy(env, raw);
    assert IdText(u) == IdText(t);
  }

  /** Sign, encode, decode: the decoder returns exactly the signed record. */
  lemma SignEncodeDecode(env: Env, t: TxRecord, privateKey: string)
    requires Lawful(env)
    requires Filled(t) && Canonical(env, t.from) && !Falsy(env.base64Decode(t.from))
    requires env.base64Decode(t.from) == env.publicKeyOf(privateKey)
    ensures Signed(env, t, privateKey).Ok?
    ensures Encoded(env, Signed(env, t, privateKey).value).Some?
    ensures Decoded(env, Encoded(env, Signed(env, t, privateKey).value).value) == Signed(env, t, privateKey)
  {
    SignThenValid(env, t, privateKey);
    SignedIsWellFormed(env, t, privateKey);
    RoundTrip(env, Signed(env, t, privateKey).value);
  }

  /**
   * A blob whose `to` was altered after encoding, with the id left stale,
   * is refused by the id comparison.
   */
  lemma StaleIdRefused(env: Env, t: TxRecord, to: string)
    requires DigestShape(env) && CollisionFree(env) && Base64Laws(env) && JsonLaws(env)
    requires WellFormed(env, t)
    requires to != t.to && !Falsy(to)
    ensures Decoded(env, Serialized(env, t.(to := to))) == Fail(IdMismatch)
  {
    var u := t.(to := to);
    DecodeSerialized(env, u);
    DocumentFields(env, u);
    assert |t.id| >= 2;
    assert FromDocument(env, Document(env, u)) == u.(id := "");
    var p := t.from + " ";
    var q := " " + FormatAmount(t.amount) + " " + Decimal(t.time);
    IdTextAroundTo(u.(id := ""));
    IdTextAroundTo(t);
    if ComputeId(env, u.(id := "")) == t.id {
      assert p + (to + q) == p + (t.to + q);
      PrefixCancel(p, to + q, t.to + q);
      SuffixCancel(to, t.to, q);
      assert false;
    }
  }

  /** A blob carrying a signature that decodes to something else is refused as invalid. */
  lemma ForeignSignatureRefused(env: Env, t: TxRecord, privateKey: string, signature: string)
    requires Lawful(env)
    requires WellFormed(env, t) && Valid(env, t)
    requires env.base64Decode(t.from) == env.publicKeyOf(privateKey)
    requires !Falsy(signature) && env.base64Decode(signature) != env.base64Decode(t.signature)
    ensures Decoded(env, Serialized(env, t.(signature := signature))) == Fail(InvalidTransaction)
  {
    var u := t.(signature := signature);
    DecodeSerialized(env, u);
    DocumentFields(env, u);
    assert |t.id| >= 2;
    assert FromDocument(env, Document(env, u)) == u.(id := "");
    assert IdText(u.(id := "")) == IdText(t);
    TamperedSignatureInvalid(env, t, privateKey, signature);
  }

  /** A zero amount reads as missing: such a blob is refused before anything else is checked. */
  lemma ZeroAmountRefused(env: Env, t: TxRecord)
    requires Base64Laws(env) && JsonLaws(env)
    requires t.amount == 0
    ensures Decoded(env, Serialized(env, t)) == Fail(NotEnoughData)
  {
    DecodeSerialized(env, t);
    DocumentFields(env, t);
  }

  /** Encodings of records whose sender keys are canonical base64 are equal only for equal records. */
  lemma SerializedInjective(env: Env, t: TxRecord, u: TxRecord)
    requires Base64Laws(env) && JsonLaws(env)
    requires Canonical(env, t.from) && Canonical(env, u.from)
    requires Serialized(env, t) == Serialized(env, u)
    ensures t == u
  {
    DecodeSerialized(env, t);
    DecodeSerialized(env, u);
    assert Document(env, t).entries[1] == Document(env, u).entries[1];
    CanonicalInjective(env, t.from, u.from);
  }

  /** An empty sender key is stored as "" by `setFrom`, so `generateId` and `sign` refuse the record. */
  lemma EmptySenderRefused(env: Env, t: TxRecord, privateKey: string)
    requires Base64Laws(env)
    ensures GeneratedId(env, t.(from := env.base64Encode(""))) == Fail(FieldsMissing)
    ensures Signed(env, t.(from := env.base64Encode("")), privateKey) == Fail(FieldsMissing)
  {
  }

  /**
   * Decoding the encoding of a record whose fields survive the decoder's
   * falsy test: the regenerated id is compared with the stored one, then the
   * signature is checked.
   */
  lemma DecodedEncoding(env: Env, t: TxRecord)
    requires DigestShape(env) && Base64Laws(env) && JsonLaws(env)
    requires Filled(t) && !Falsy(t.id) && Canonical(env, t.from) && !Falsy(env.base64Decode(t.from)) && !Falsy(t.signature)
    ensures Decoded(env, Serialized(env, t)) == if ComputeId(env, t) != t.id then Fail(IdMismatch)
                                               else if !Valid(env, t) then Fail(InvalidTransaction) else Ok(t)
  {
    DecodeSerialized(env, t);
    DocumentFields(env, t);
    assert FromDocument(env, Document(env, t)) == t.(id := "");
    assert IdText(t.(id := "")) == IdText(t);
  }

  /** A blob whose id was replaced by another truthy string is refused by the id comparison. */
  lemma ForgedIdRefused(env: Env, t: TxRecord, id: string)
    requires DigestShape(env) && Base64Laws(env) && JsonLaws(env)
    requires WellFormed(env, t)
    requires id != t.id && !Falsy(id)
    ensures Decoded(env, Serialized(env, t.(id := id))) == Fail(IdMismatch)
  {
    DecodedEncoding(env, t.(id := id));
    assert IdText(t.(id := id)) == IdText(t);
  }

  /** A blob whose amount was altered after encoding, with the id left stale, is refused by the id comparison. */
  lemma StaleIdAfterAmountRefused(env: Env, t: TxRecord, amount: int)
    requires DigestShape(env) && CollisionFree(env) && Base64Laws(env) && JsonLaws(env)
    requires WellFormed(env, t)
    requires amount != t.amount && amount != 0
    ensures Decoded(env, Serialized(env, t.(amount := amount))) == Fail(IdMismatch)
  {
    var u := t.(amount := amount);
    assert |t.id| >= 2;
    DecodedEncoding(env, u);
    IdTextBindsAmount(t, amount);
  }

  /** A blob whose time was altered after encoding, with the id left stale, is refused by the id comparison. */
  lemma StaleIdAfterTimeRefused(env: Env, t: TxRecord, time: int)
    requires DigestShape(env) && CollisionFree(env) && Base64Laws(env) && JsonLaws(env)
    requires WellFormed(env, t)
    requires time != t.time && time != 0
    ensures Decoded(env, Serialized(env, t.(time := time))) == Fail(IdMismatch)
  {
    var u := t.(time := time);
    assert |t.id| >= 2;
    DecodedEncoding(env, u);
    IdTextBindsTime(t, time);
  }

  /** The id text changes with the amount. */
  lemma IdTextBindsAmount(t: TxRecord, amount: int)
    requires amount != t.amount
    ensures IdText(t.(amount := amount)) != IdText(t)
  {
    var p := t.from + " " + t.to + " ";
    var q := " " + Decimal(t.time);
    assert IdText(t.(amount := amount)) == p + (FormatAmount(amount) + q);
    assert IdText(t) == p + (FormatAmount(t.amount) + q);
    if FormatAmount(amount) + q == FormatAmount(t.amount) + q {
      SuffixCancel(FormatAmount(amount), FormatAmount(t.amount), q);
      AmountInjective(amount, t.amount);
    } else if p + (FormatAmount(amount) + q) == p + (FormatAmount(t.amount) + q) {
      PrefixCancel(p, FormatAmount(amount) + q, FormatAmount(t.amount) + q);
    }
  }

  /** The id text changes with the time. */
  lemma IdTextBindsTime(t: TxRecord, time: int)
    requires time != t.time
    ensures IdText(t.(time := time)) != IdText(t)
  {
    var p := t.from + " " + t.to + " " + FormatAmount(t.amount) + " ";
    assert IdText(t.(time := time)) == p + Decimal(time);
    assert IdText(t) == p + Decimal(t.time);
    if Decimal(time) == Decimal(t.time) {
      DecimalInjective(time, t.time);
    } else if p + Decimal(time) == p + Decimal(t.time) {
      PrefixCancel(p, Decimal(time), Decimal(t.time));
    }
  }
}
