/**
 * What src/Block.php promises, proved about the functions of module Blocks:
 * signing leaves the hash consistent and the block valid, a change to a
 * signed field is detected, the hash binds the transactions and their order,
 * the text encoding round-trips, and the decoder refuses a stale hash.
 */
module BlockProofs {
  import opened Text
  import opened Values
  import opened Primitives
  import opened Errors
  import opened Blocks
  import Tx = Transactions
  import TxP = TransactionProofs

  /** The hash does not cover the hash or the signature field. */
  lemma HashIgnoresHashAndSignature(env: Env, b: BlockRecord, hash: string, signature: string)
    ensures ComputeHash(env, b.(hash := hash, signature := signature)) == ComputeHash(env, b)
  {
  }

  /** A signed block carries the hash its fields call for: regenerating it changes nothing. */
  lemma SignedHashConsistent(env: Env, b: BlockRecord, privateKey: string)
    requires Signed(env, b, privateKey).Ok?
    ensures GeneratedHash(env, Signed(env, b, privateKey).value) == Signed(env, b, privateKey)
  {
    var u := Signed(env, b, privateKey).value;
    HashIgnoresHashAndSignature(env, b, u.hash, u.signature);
    assert u == b.(hash := u.hash, signature := u.signature);
  }

  /** Signing a filled block of valid transactions with the miner's private key yields a valid block. */
  lemma SignThenValid(env: Env, b: BlockRecord, privateKey: string)
    requires SignaturesCheck(env) && Base64Laws(env)
    requires Filled(b) && AllValid(env, b.transactions)
    requires env.base64Decode(b.pubKey) == env.publicKeyOf(privateKey)
    ensures Signed(env, b, privateKey).Ok?
    ensures Valid(env, Signed(env, b, privateKey).value)
  {
    var u := Signed(env, b, privateKey).value;
    assert env.base64Decode(u.signature) == env.sign(privateKey, SignedText(u, ListText(env, u.transactions)));
  }

  /** A block holding one invalid transaction is invalid, whatever its signature. */
  lemma InvalidTransactionInvalidatesBlock(env: Env, b: BlockRecord, i: nat)
    requires i < |b.transactions| && !Tx.Valid(env, b.transactions[i])
    ensures !Valid(env, b)
    ensures Encoded(env, b).None?
  {
  }

  /** `isValid` holds exactly when every transaction is valid and the stored signature is the miner's over the signed text. */
  lemma ValidIffMinerSigned(env: Env, b: BlockRecord, privateKey: string)
    requires SignaturesCheck(env)
    requires env.base64Decode(b.pubKey) == env.publicKeyOf(privateKey)
    ensures Valid(env, b) <==> (AllValid(env, b.transactions)
                                && env.base64Decode(b.signature) == env.sign(privateKey, SignedText(b, ListText(env, b.transactions))))
  {
  }

  /**
   * Two valid blocks under the same miner key and the same signature sign
   * the same text.
   */
  lemma ValidFixesSignedText(env: Env, b: BlockRecord, c: BlockRecord, privateKey: string)
    requires SignaturesCheck(env) && SignaturesBind(env)
    requires env.base64Decode(b.pubKey) == env.publicKeyOf(privateKey) && c.pubKey == b.pubKey
    requires env.base64Decode(c.signature) == env.base64Decode(b.signature)
    requires Valid(env, b) && Valid(env, c)
    ensures SignedText(c, ListText(env, c.transactions)) == SignedText(b, ListText(env, b.transactions))
  {
    var s := env.base64Decode(b.signature);
    assert env.verify(SignedText(b, ListText(env, b.transactions)), s, env.publicKeyOf(privateKey));
    assert env.verify(SignedText(c, ListText(env, c.transactions)), s, env.publicKeyOf(privateKey));
  }

  lemma SignedTextAroundHeight(b: BlockRecord, x: string)
    ensures SignedText(b, x) == Decimal(b.height) + (" " + b.hash + " " + b.prevHash + " " + b.pubKey + " " + Decimal(b.time) + " " + x + " " + NonceText(b.nonce))
  {
  }

  lemma SignedTextAroundHash(b: BlockRecord, x: string)
    ensures SignedText(b, x) == (Decimal(b.height) + " ") + (b.hash + (" " + b.prevHash + " " + b.pubKey + " " + Decimal(b.time) + " " + x + " " + NonceText(b.nonce)))
  {
  }

  lemma SignedTextAroundPrevHash(b: BlockRecord, x: string)
    ensures SignedText(b, x) == (Decimal(b.height) + " " + b.hash + " ") + (b.prevHash + (" " + b.pubKey + " " + Decimal(b.time) + " " + x + " " + NonceText(b.nonce)))
  {
  }

  lemma SignedTextAroundTime(b: BlockRecord, x: string)
    ensures SignedText(b, x) == (Decimal(b.height) + " " + b.hash + " " + b.prevHash + " " + b.pubKey + " ") + (Decimal(b.time) + (" " + x + " " + NonceText(b.nonce)))
  {
  }

  lemma SignedTextAroundTransactions(b: BlockRecord, x: string)
    ensures SignedText(b, x) == (Decimal(b.height) + " " + b.hash + " " + b.prevHash + " " + b.pubKey + " " + Decimal(b.time) + " ") + (x + (" " + NonceText(b.nonce)))
  {
  }

  lemma HashTextAroundTransactions(b: BlockRecord, x: string)
    ensures HashText(b, x) == (Decimal(b.height) + " " + b.prevHash + " " + b.pubKey + " " + Decimal(b.time) + " ") + (x + (" " + NonceText(b.nonce)))
  {
  }

  /** Changing the height after signing makes the block invalid. */
  lemma TamperedHeightInvalid(env: Env, b: BlockRecord, privateKey: string, height: int)
    requires SignaturesCheck(env) && SignaturesBind(env)
    requires env.base64Decode(b.pubKey) == env.publicKeyOf(privateKey)
    requires Valid(env, b) && height != b.height
    ensures !Valid(env, b.(height := height))
  {
    var c := b.(height := height);
    if Valid(env, c) {
      ValidFixesSignedText(env, b, c, privateKey);
      var x := ListText(env, b.transactions);
      SignedTextAroundHeight(b, x);
      SignedTextAroundHeight(c, x);
      SuffixCancel(Decimal(b.height), Decimal(height), " " + b.hash + " " + b.prevHash + " " + b.pubKey + " " + Decimal(b.time) + " " + x + " " + NonceText(b.nonce));
      DecimalInjective(b.height, height);
      assert false;
    }
  }

  /** Changing the stored hash after signing makes the block invalid: the hash is part of the signed text. */
  lemma TamperedHashInvalid(env: Env, b: BlockRecord, privateKey: string, hash: string)
    requires SignaturesCheck(env) && SignaturesBind(env)
    requires env.base64Decode(b.pubKey) == env.publicKeyOf(privateKey)
    requires Valid(env, b) && hash != b.hash
    ensures !Valid(env, b.(hash := hash))
  {
    var c := b.(hash := hash);
    if Valid(env, c) {
      ValidFixesSignedText(env, b, c, privateKey);
      var x := ListText(env, b.transactions);
      var p := Decimal(b.height) + " ";
      var q := " " + b.prevHash + " " + b.pubKey + " " + Decimal(b.time) + " " + x + " " + NonceText(b.nonce);
      SignedTextAroundHash(b, x);
      SignedTextAroundHash(c, x);
      PrefixCancel(p, b.hash + q, hash + q);
      SuffixCancel(b.hash, hash, q);
      assert false;
    }
  }

  /** Changing the previous hash after signing makes the block invalid. */
  lemma TamperedPrevHashInvalid(env: Env, b: BlockRecord, privateKey: string, prevHash: string)
    requires SignaturesCheck(env) && SignaturesBind(env)
    requires env.base64Decode(b.pubKey) == env.publicKeyOf(privateKey)
    requires Valid(env, b) && prevHash != b.prevHash
    ensures !Valid(env, b.(prevHash := prevHash))
  {
    var c := b.(prevHash := prevHash);
    if Valid(env, c) {
      ValidFixesSignedText(env, b, c, privateKey);
      var x := ListText(env, b.transactions);
      var p := Decimal(b.height) + " " + b.hash + " ";
      var q := " " + b.pubKey + " " + Decimal(b.time) + " " + x + " " + NonceText(b.nonce);
      SignedTextAroundPrevHash(b, x);
      SignedTextAroundPrevHash(c, x);
      PrefixCancel(p, b.prevHash + q, prevHash + q);
      SuffixCancel(b.prevHash, prevHash, q);
      assert false;
    }
  }

  /** Changing the time after signing makes the block invalid. */
  lemma TamperedTimeInvalid(env: Env, b: BlockRecord, privateKey: string, time: int)
    requires SignaturesCheck(env) && SignaturesBind(env)
    requires env.base64Decode(b.pubKey) == env.publicKeyOf(privateKey)
    requires Valid(env, b) && time != b.time
    ensures !Valid(env, b.(time := time))
  {
    var c := b.(time := time);
    if Valid(env, c) {
      ValidFixesSignedText(env, b, c, privateKey);
      var x := ListText(env, b.transactions);
      var p := Decimal(b.height) + " " + b.hash + " " + b.prevHash + " " + b.pubKey + " ";
      var q := " " + x + " " + NonceText(b.nonce);
      SignedTextAroundTime(b, x);
      SignedTextAroundTime(c, x);
      PrefixCancel(p, Decimal(b.time) + q, Decimal(time) + q);
      SuffixCancel(Decimal(b.time), Decimal(time), q);
      DecimalInjective(b.time, time);
      assert false;
    }
  }

  /**
   * Changing the nonce after signing makes the block invalid, unless the
   * new nonce prints as the old one (a null nonce prints as 0).
   */
  lemma TamperedNonceInvalid(env: Env, b: BlockRecord, privateKey: string, nonce: int)
    requires SignaturesCheck(env) && SignaturesBind(env)
    requires env.base64Decode(b.pubKey) == env.publicKeyOf(privateKey)
    requires Valid(env, b) && nonce != (if b.nonce.Some? then b.nonce.value else 0)
    ensures !Valid(env, b.(nonce := Some(nonce)))
  {
    var c := b.(nonce := Some(nonce));
    if Valid(env, c) {
      ValidFixesSignedText(env, b, c, privateKey);
      var x := ListText(env, b.transactions);
      var p := Decimal(b.height) + " " + b.hash + " " + b.prevHash + " " + b.pubKey + " " + Decimal(b.time) + " " + x + " ";
      assert SignedText(b, x) == p + NonceText(b.nonce);
      assert SignedText(c, x) == p + NonceText(Some(nonce));
      PrefixCancel(p, NonceText(b.nonce), NonceText(Some(nonce)));
      DecimalInjective(if b.nonce.Some? then b.nonce.value else 0, nonce);
      assert false;
    }
  }

  /** A transaction list every one of whose sender keys is held in canonical base64. */
  predicate CanonicalSenders(env: Env, txs: seq<Tx.TxRecord>) {
    forall i :: 0 <= i < |txs| ==> Canonical(env, txs[i].from)
  }

  /** The list of encodings holds each transaction's encoding at its position. */
  lemma {:induction false} EncodedListElements(env: Env, txs: seq<Tx.TxRecord>)
    ensures forall i :: 0 <= i < |txs| ==> EncodedList(env, txs)[i] == Str(Tx.Serialized(env, txs[i]))
    decreases |txs|
  {
    if txs != [] {
      EncodedListElements(env, txs[..|txs| - 1]);
    }
  }

  /** Equal JSON list texts come from equal transaction lists, in the same order. */
  lemma ListTextInjective(env: Env, xs: seq<Tx.TxRecord>, ys: seq<Tx.TxRecord>)
    requires Base64Laws(env) && JsonLaws(env)
    requires CanonicalSenders(env, xs) && CanonicalSenders(env, ys)
    requires ListText(env, xs) == ListText(env, ys)
    ensures xs == ys
  {
    assert List(EncodedList(env, xs)) == env.jsonDecode(ListText(env, xs));
    assert EncodedList(env, xs) == EncodedList(env, ys);
    EncodedListElements(env, xs);
    EncodedListElements(env, ys);
    forall i | 0 <= i < |xs|
      ensures xs[i] == ys[i]
    {
      assert EncodedList(env, xs)[i] == EncodedList(env, ys)[i];
      TxP.SerializedInjective(env, xs[i], ys[i]);
    }
  }

  /**
   * The hash binds the transaction list: a block whose transactions were
   * replaced, dropped, added or reordered hashes differently.
   */
  lemma HashBindsTransactions(env: Env, b: BlockRecord, txs: seq<Tx.TxRecord>)
    requires CollisionFree(env) && Base64Laws(env) && JsonLaws(env)
    requires CanonicalSenders(env, b.transactions) && CanonicalSenders(env, txs)
    requires txs != b.transactions
    ensures ComputeHash(env, b.(transactions := txs)) != ComputeHash(env, b)
  {
    var c := b.(transactions := txs);
    if ComputeHash(env, c) == ComputeHash(env, b) {
      var x := ListText(env, b.transactions);
      var y := ListText(env, txs);
      var p := Decimal(b.height) + " " + b.prevHash + " " + b.pubKey + " " + Decimal(b.time) + " ";
      var q := " " + NonceText(b.nonce);
      HashTextAroundTransactions(b, x);
      HashTextAroundTransactions(c, y);
      PrefixCancel(p, x + q, y + q);
      SuffixCancel(x, y, q);
      ListTextInjective(env, b.transactions, txs);
      assert false;
    }
  }

  /** Changing the transaction list after signing makes the block invalid. */
  lemma TamperedTransactionsInvalid(env: Env, b: BlockRecord, privateKey: string, txs: seq<Tx.TxRecord>)
    requires SignaturesCheck(env) && SignaturesBind(env) && Base64Laws(env) && JsonLaws(env)
    requires env.base64Decode(b.pubKey) == env.publicKeyOf(privateKey)
    requires CanonicalSenders(env, b.transactions) && CanonicalSenders(env, txs)
    requires Valid(env, b) && txs != b.transactions
    ensures !Valid(env, b.(transactions := txs))
  {
    var c := b.(transactions := txs);
    if Valid(env, c) {
      ValidFixesSignedText(env, b, c, privateKey);
      var x := ListText(env, b.transactions);
      var y := ListText(env, txs);
      var p := Decimal(b.height) + " " + b.hash + " " + b.prevHash + " " + b.pubKey + " " + Decimal(b.time) + " ";
      var q := " " + NonceText(b.nonce);
      SignedTextAroundTransactions(b, x);
      SignedTextAroundTransactions(c, y);
      PrefixCancel(p, x + q, y + q);
      SuffixCancel(x, y, q);
      ListTextInjective(env, b.transactions, txs);
      assert false;
    }
  }

  /**
   * A block as `create` leaves it, which the decoder accepts back: filled,
   * with a nonce other than 0 (which reads as missing), the hash its fields
   * call for, the miner key in canonical base64, truthy key and signature,
   * and well-formed transactions.
   */
  predicate WellFormed(env: Env, b: BlockRecord) {
    && Filled(b)
    && b.nonce != Some(0)
    && b.hash == ComputeHash(env, b)
    && Canonical(env, b.pubKey)
    && !Falsy(env.base64Decode(b.pubKey))
    && !Falsy(b.signature)
    && (forall i :: 0 <= i < |b.transactions| ==> TxP.WellFormed(env, b.transactions[i]))
  }

  /** The fields of the encoded document, looked up by key. */
  lemma DocumentFields(env: Env, b: BlockRecord)
    ensures Get(Document(env, b), "height") == Int(b.height)
    ensures Get(Document(env, b), "hash") == Str(b.hash)
    ensures Get(Document(env, b), "prevHash") == Str(b.prevHash)
    ensures Get(Document(env, b), "pubKey") == Str(env.base64Decode(b.pubKey))
    ensures Get(Document(env, b), "time") == Int(b.time)
    ensures Get(Document(env, b), "transactions") == Str(ListText(env, b.transactions))
    ensures Get(Document(env, b), "nonce") == (if b.nonce.Some? then Int(b.nonce.value) else Null)
    ensures Get(Document(env, b), "signature") == Str(b.signature)
  {
    var e := Document(env, b).entries;
    DocumentEntry(e, 0);
    DocumentEntry(e, 1);
    DocumentEntry(e, 2);
    DocumentEntry(e, 3);
    DocumentEntry(e, 4);
    DocumentEntry(e, 5);
    DocumentEntry(e, 6);
    DocumentEntry(e, 7);
  }

  /** In a block document, an entry is the one its key finds. */
  lemma DocumentEntry(e: seq<(string, Value)>, i: nat)
    requires |e| == 8 && i < 8
    requires e[0].0 == "height" && e[1].0 == "hash" && e[2].0 == "prevHash" && e[3].0 == "pubKey"
    requires e[4].0 == "time" && e[5].0 == "transactions" && e[6].0 == "nonce" && e[7].0 == "signature"
    ensures Lookup(e, e[i].0) == e[i].1
  {
    LookupLatest(e, i);
  }

  /** Decoding the encoding of a block yields its document. */
  lemma DecodeSerialized(env: Env, b: BlockRecord)
    requires Base64Laws(env) && JsonLaws(env)
    ensures env.jsonDecode(env.base64Decode(Serialized(env, b))) == Document(env, b)
  {
  }

  lemma FrontThenLast<T>(s: seq<T>)
    requires s != []
    ensures s[..|s| - 1] + [s[|s| - 1]] == s
  {
  }

  /** The transaction decoder, applied to a well-formed valid record's encoding, gives the record back. */
  lemma DecodeTxSerialized(env: Env, t: Tx.TxRecord)
    requires DigestShape(env) && Base64Laws(env) && JsonLaws(env)
    requires Tx.Valid(env, t) && TxP.WellFormed(env, t)
    ensures DecodeTx(env)(StrVal(Str(Tx.Serialized(env, t)))) == Ok(t)
  {
    TxP.RoundTrip(env, t);
  }

  /** The transaction list text decodes, element by element, back to the list. */
  lemma {:induction false} DecodeEncodedList(env: Env, txs: seq<Tx.TxRecord>)
    requires DigestShape(env) && Base64Laws(env) && JsonLaws(env)
    requires AllValid(env, txs)
    requires forall i :: 0 <= i < |txs| ==> TxP.WellFormed(env, txs[i])
    ensures DecodedList(DecodeTx(env), EncodedList(env, txs)) == Ok(txs)
    decreases |txs|
  {
    if txs != [] {
      var front := txs[..|txs| - 1];
      var last := txs[|txs| - 1];
      DecodeEncodedList(env, front);
      var items := EncodedList(env, txs);
      assert items[..|items| - 1] == EncodedList(env, front);
      assert items[|items| - 1] == Str(Tx.Serialized(env, last));
      DecodeTxSerialized(env, last);
      FrontThenLast(txs);
    }
  }

  /** The transactions field of a block's document decodes back to its transactions. */
  lemma DecodeListText(env: Env, txs: seq<Tx.TxRecord>)
    requires DigestShape(env) && Base64Laws(env) && JsonLaws(env)
    requires AllValid(env, txs)
    requires forall i :: 0 <= i < |txs| ==> TxP.WellFormed(env, txs[i])
    ensures DecodedTransactions(env, ListText(env, txs)) == Ok(txs)
    ensures !Falsy(ListText(env, txs))
  {
    DecodeEncodedList(env, txs);
    assert ListText(env, txs)[0] == '[';
  }

  /**
   * `createFromString` past its field check and its transaction decoding:
   * what the hash comparison and the validity check make of the result.
   */
  lemma DecodedFromParts(env: Env, s: string, txs: seq<Tx.TxRecord>, u: BlockRecord)
    requires DocumentFilled(env.jsonDecode(env.base64Decode(s)))
    requires DecodedTransactions(env, StrVal(Get(env.jsonDecode(env.base64Decode(s)), "transactions"))) == Ok(txs)
    requires GeneratedHash(env, FromDocument(env, env.jsonDecode(env.base64Decode(s))).(transactions := txs)) == Ok(u)
    ensures Decoded(env, s) == if Str(u.hash) != Get(env.jsonDecode(env.base64Decode(s)), "hash") then Fail(HashMismatch)
                               else if !Valid(env, u) then Fail(InvalidBlock) else Ok(u)
  {
  }

  /**
   * Decoding the encoding of a block whose fields survive the decoder's
   * checks: the recomputed hash is compared with the stored one, then the
   * block's validity is checked.
   */
  lemma DecodedEncoding(env: Env, b: BlockRecord)
    requires DigestShape(env) && Base64Laws(env) && JsonLaws(env)
    requires Filled(b) && b.nonce != Some(0) && !Falsy(b.hash)
    requires Canonical(env, b.pubKey) && !Falsy(env.base64Decode(b.pubKey)) && !Falsy(b.signature)
    requires AllValid(env, b.transactions)
    requires forall i :: 0 <= i < |b.transactions| ==> TxP.WellFormed(env, b.transactions[i])
    ensures Decoded(env, Serialized(env, b)) == if ComputeHash(env, b) != b.hash then Fail(HashMismatch)
                                               else if !Valid(env, b) then Fail(InvalidBlock) else Ok(b)
  {
    DecodeSerialized(env, b);
    DocumentFields(env, b);
    DecodeListText(env, b.transactions);
    DocumentFilledWhenTruthy(env, b);
    var u := b.(hash := ComputeHash(env, b));
    RehashedFromDocument(env, b);
    DecodedFromParts(env, Serialized(env, b), b.transactions, u);
  }

  /** A block whose fields the decoder tests are all truthy has a document that passes the test. */
  lemma DocumentFilledWhenTruthy(env: Env, b: BlockRecord)
    requires Filled(b) && b.nonce != Some(0) && !Falsy(b.hash)
    requires !Falsy(env.base64Decode(b.pubKey)) && !Falsy(b.signature) && !Falsy(ListText(env, b.transactions))
    ensures DocumentFilled(Document(env, b))
  {
    DocumentFields(env, b);
  }

  /** The setters rebuild a block from its document, and regenerating its hash gives the block with the computed hash. */
  lemma RehashedFromDocument(env: Env, b: BlockRecord)
    requires Base64Laws(env)
    requires Filled(b) && Canonical(env, b.pubKey) && AllValid(env, b.transactions)
    ensures GeneratedHash(env, FromDocument(env, Document(env, b)).(transactions := b.transactions)) == Ok(b.(hash := ComputeHash(env, b)))
  {
    DocumentFields(env, b);
    var r := FromDocument(env, Document(env, b)).(transactions := b.transactions);
    assert r == b.(hash := "");
    HashIgnoresHashAndSignature(env, b, "", b.signature);
  }

  /** `Block::createFromString($block->__toString())` gives back every field of a valid, well-formed block. */
  lemma RoundTrip(env: Env, b: BlockRecord)
    requires DigestShape(env) && Base64Laws(env) && JsonLaws(env)
    requires Valid(env, b) && WellFormed(env, b)
    ensures Encoded(env, b).Some?
    ensures Decoded(env, Encoded(env, b).value) == Ok(b)
  {
    assert |b.hash| >= 2;
    DecodedEncoding(env, b);
  }

  /** A block whose nonce is 0 reads as missing a field: its encoding is refused before anything else is checked. */
  lemma ZeroNonceRefused(env: Env, b: BlockRecord)
    requires Base64Laws(env) && JsonLaws(env)
    requires b.nonce == Some(0)
    ensures Decoded(env, Serialized(env, b)) == Fail(NotEnoughData)
  {
    DecodeSerialized(env, b);
    DocumentFields(env, b);
  }

  /** The hash binds the nonce: two nonces that print differently give different hashes. */
  lemma HashBindsNonce(env: Env, b: BlockRecord, nonce: int)
    requires CollisionFree(env)
    requires nonce != (if b.nonce.Some? then b.nonce.value else 0)
    ensures ComputeHash(env, b.(nonce := Some(nonce))) != ComputeHash(env, b)
  {
    var c := b.(nonce := Some(nonce));
    var x := ListText(env, b.transactions);
    var p := Decimal(b.height) + " " + b.prevHash + " " + b.pubKey + " " + Decimal(b.time) + " " + x + " ";
    if ComputeHash(env, c) == ComputeHash(env, b) {
      assert HashText(c, x) == p + NonceText(Some(nonce));
      assert HashText(b, x) == p + NonceText(b.nonce);
      PrefixCancel(p, NonceText(Some(nonce)), NonceText(b.nonce));
      DecimalInjective(nonce, if b.nonce.Some? then b.nonce.value else 0);
      assert false;
    }
  }

  /**
   * A blob whose nonce was altered after encoding, with the hash left stale,
   * is refused by the hash comparison.
   */
  lemma StaleHashRefused(env: Env, b: BlockRecord, nonce: int)
    requires DigestShape(env) && CollisionFree(env) && Base64Laws(env) && JsonLaws(env)
    requires Valid(env, b) && WellFormed(env, b)
    requires nonce != 0 && Some(nonce) != b.nonce
    ensures Decoded(env, Serialized(env, b.(nonce := Some(nonce)))) == Fail(HashMismatch)
  {
    assert |b.hash| >= 2;
    HashBindsNonce(env, b, nonce);
    DecodedEncoding(env, b.(nonce := Some(nonce)));
  }

  /**
   * `createGenesis` succeeds for any valid transactions when the miner signs
   * with the private half of its own key and the clock is not at 0.
   */
  lemma GenesisSucceeds(env: Env, pubKey: string, privateKey: string, txs: seq<Tx.TxRecord>, nonce: int, now: int)
    requires SignaturesCheck(env) && Base64Laws(env)
    requires pubKey == env.publicKeyOf(privateKey) && pubKey != ""
    requires AllValid(env, txs) && now != 0
    ensures Genesis(env, pubKey, privateKey, txs, nonce, now).Ok?
  {
    var b := EmptyBlock.(height := 1, prevHash := GenesisPrevHash, pubKey := env.base64Encode(pubKey),
                         time := now, nonce := Some(nonce), transactions := txs);
    EncodedTruthy(env, pubKey);
    var u := GeneratedHash(env, b).value;
    SignThenValid(env, u, privateKey);
  }

  /**
   * `create` succeeds exactly when the predecessor is valid and gives a
   * nonzero height and a truthy hash to link to, for valid transactions, a
   * miner signing with its own key, and a clock not at 0.
   */
  lemma SuccessorSucceeds(env: Env, prev: BlockRecord, pubKey: string, privateKey: string, txs: seq<Tx.TxRecord>, nonce: int, now: int)
    requires SignaturesCheck(env) && Base64Laws(env)
    requires pubKey == env.publicKeyOf(privateKey) && pubKey != ""
    requires AllValid(env, txs) && now != 0
    ensures Successor(env, prev, pubKey, privateKey, txs, nonce, now).Ok?
        <==> Valid(env, prev) && prev.height + 1 != 0 && !Falsy(prev.hash)
  {
    if Valid(env, prev) {
      var b := EmptyBlock.(height := prev.height + 1, prevHash := prev.hash, pubKey := env.base64Encode(pubKey),
                           time := now, nonce := Some(nonce), transactions := txs);
      EncodedTruthy(env, pubKey);
      if Filled(b) {
        var u := GeneratedHash(env, b).value;
        SignThenValid(env, u, privateKey);
      }
    }
  }

  /** A block `create` makes links to its predecessor and sits one above it. */
  lemma SuccessorLinks(env: Env, prev: BlockRecord, pubKey: string, privateKey: string, txs: seq<Tx.TxRecord>, nonce: int, now: int)
    requires Successor(env, prev, pubKey, privateKey, txs, nonce, now).Ok?
    ensures Valid(env, prev)
    ensures Successor(env, prev, pubKey, privateKey, txs, nonce, now).value.prevHash == prev.hash
    ensures Successor(env, prev, pubKey, privateKey, txs, nonce, now).value.height == prev.height + 1
  {
  }

  /** An empty miner key is stored as "" by `setPubKey`, so `createGenesis` and `create` throw on the missing field. */
  lemma EmptyMinerKeyRefused(env: Env, prev: BlockRecord, privateKey: string, txs: seq<Tx.TxRecord>, nonce: int, now: int)
    requires Base64Laws(env)
    ensures Genesis(env, "", privateKey, txs, nonce, now) == Fail(FieldsMissing)
    ensures Valid(env, prev) ==> Successor(env, prev, "", privateKey, txs, nonce, now) == Fail(FieldsMissing)
  {
  }
}
