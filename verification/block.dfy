/**
 * A block (src/Block.php): a hash-chained, miner-signed container of
 * transactions.  As for transactions, the rules are functions over
 * `BlockRecord`, the value of a block's fields, and the class `Block` holds
 * the fields and updates them in place, each method proved to agree with the
 * function it mirrors.
 */
module Blocks {
  import opened Text
  import opened Values
  import opened Primitives
  import opened Errors
  import Tx = Transactions

  /**
   * The fields of a block.  `pubKey` (the miner's public key) and
   * `signature` are held as base64 text.  The nonce is the one field whose
   * null PHP tells apart from 0, so it is optional.  The block owns value
   * copies of its transactions, in order.
   */
  datatype BlockRecord = BlockRecord(
    height: int,
    hash: string,
    prevHash: string,
    pubKey: string,
    time: int,
    transactions: seq<Tx.TxRecord>,
    nonce: Option<int>,
    signature: string
  )

  const EmptyBlock := BlockRecord(0, "", "", "", 0, [], None, "")

  /** The sentinel previous hash of the first block. */
  const GenesisPrevHash := "genesis"

  predicate AllValid(env: Env, txs: seq<Tx.TxRecord>) {
    forall i :: 0 <= i < |txs| ==> Tx.Valid(env, txs[i])
  }

  /** The encodings of the transactions, as JSON strings, in list order. */
  function EncodedList(env: Env, txs: seq<Tx.TxRecord>): (items: seq<Value>)
    ensures |items| == |txs|
  {
    if txs == [] then [] else EncodedList(env, txs[..|txs| - 1]) + [Str(Tx.Serialized(env, txs[|txs| - 1]))]
  }

  /** The JSON array of the transactions' encodings. */
  function ListText(env: Env, txs: seq<Tx.TxRecord>): string {
    env.jsonEncode(List(EncodedList(env, txs)))
  }

  /** `getTransactionsAsString`: refuses a list holding an invalid transaction. */
  function TransactionsText(env: Env, txs: seq<Tx.TxRecord>): (r: Result<string>)
    ensures r.Ok? <==> AllValid(env, txs)
    ensures r.Fail? ==> r.error == UnencodableTransaction
    ensures r.Ok? ==> r.value == ListText(env, txs)
  {
    if AllValid(env, txs) then Ok(ListText(env, txs)) else Fail(UnencodableTransaction)
  }

  /** `%d` of the nonce; PHP prints a null nonce as 0. */
  function NonceText(nonce: Option<int>): string {
    Decimal(if nonce.Some? then nonce.value else 0)
  }

  /** The text the hash covers: `'%d %s %s %d %s %d'` over height, prevHash, base64 key, time, transactions, nonce. */
  function HashText(b: BlockRecord, txsText: string): string {
    Decimal(b.height) + " " + b.prevHash + " " + b.pubKey + " " + Decimal(b.time) + " " + txsText + " " + NonceText(b.nonce)
  }

  /** The text the signature covers: the same fields with the stored hash after the height. */
  function SignedText(b: BlockRecord, txsText: string): string {
    Decimal(b.height) + " " + b.hash + " " + b.prevHash + " " + b.pubKey + " " + Decimal(b.time) + " " + txsText + " " + NonceText(b.nonce)
  }

  /** The hash the fields call for. */
  function ComputeHash(env: Env, b: BlockRecord): string {
    env.sha256(HashText(b, ListText(env, b.transactions)))
  }

  /** height, prevHash, pubKey and time are not falsy and the nonce is not null (0 is allowed). */
  predicate Filled(b: BlockRecord) {
    b.height != 0 && !Falsy(b.prevHash) && !Falsy(b.pubKey) && b.time != 0 && b.nonce.Some?
  }

  /** `generateHash`: checks the fields, encodes the transactions, and replaces the hash and nothing else. */
  function GeneratedHash(env: Env, b: BlockRecord): (r: Result<BlockRecord>)
    ensures r.Ok? <==> Filled(b) && AllValid(env, b.transactions)
    ensures !Filled(b) ==> r == Fail(FieldsMissing)
    ensures Filled(b) && !AllValid(env, b.transactions) ==> r == Fail(UnencodableTransaction)
    ensures r.Ok? ==> r.value.hash == ComputeHash(env, b) && r.value.(hash := b.hash) == b
  {
    if !Filled(b) then Fail(FieldsMissing)
    else
      var text :- TransactionsText(env, b.transactions);
      Ok(b.(hash := env.sha256(HashText(b, text))))
  }

  /** `sign`: generateHash, then a signature over the text that includes the new hash. */
  function Signed(env: Env, b: BlockRecord, privateKey: string): (r: Result<BlockRecord>)
    ensures r.Ok? <==> Filled(b) && AllValid(env, b.transactions)
    ensures r.Ok? ==> r.value.hash == ComputeHash(env, b) && r.value.(hash := b.hash, signature := b.signature) == b
  {
    var u :- GeneratedHash(env, b);
    Ok(u.(signature := env.base64Encode(env.sign(privateKey, SignedText(u, ListText(env, u.transactions))))))
  }

  /**
   * `isValid`: every transaction is valid and the miner's signature verifies
   * over the text built from the STORED hash; the hash is not recomputed.
   */
  predicate Valid(env: Env, b: BlockRecord) {
    && AllValid(env, b.transactions)
    && env.verify(SignedText(b, ListText(env, b.transactions)), env.base64Decode(b.signature), env.base64Decode(b.pubKey))
  }

  /** The array `__toString` hands to json_encode, in its fixed field order. */
  function Document(env: Env, b: BlockRecord): Value {
    Assoc([
      ("height", Int(b.height)),
      ("hash", Str(b.hash)),
      ("prevHash", Str(b.prevHash)),
      ("pubKey", Str(env.base64Decode(b.pubKey))),
      ("time", Int(b.time)),
      ("transactions", Str(ListText(env, b.transactions))),
      ("nonce", if b.nonce.Some? then Int(b.nonce.value) else Null),
      ("signature", Str(b.signature))
    ])
  }

  /** base64 of the JSON text of the document. */
  function Serialized(env: Env, b: BlockRecord): string {
    env.base64Encode(env.jsonEncode(Document(env, b)))
  }

  /** `__toString`: the encoding of a valid block; None stands for PHP's `false`. */
  function Encoded(env: Env, b: BlockRecord): (r: Option<string>)
    ensures r.Some? <==> Valid(env, b)
    ensures r.Some? ==> r.value == Serialized(env, b)
    ensures r.Some? && Base64Laws(env) && JsonLaws(env) ==> env.jsonDecode(env.base64Decode(r.value)) == Document(env, b)
  {
    if Valid(env, b) then Some(Serialized(env, b)) else None
  }

  /** The eight fields `createFromString` demands, all truthy (so a nonce of 0 is refused). */
  predicate DocumentFilled(data: Value) {
    && Truthy(Get(data, "height"))
    && Truthy(Get(data, "hash"))
    && Truthy(Get(data, "prevHash"))
    && Truthy(Get(data, "pubKey"))
    && Truthy(Get(data, "time"))
    && Truthy(Get(data, "transactions"))
    && Truthy(Get(data, "nonce"))
    && Truthy(Get(data, "signature"))
  }

  /** The record the setters build from a decoded document, before transactions and hash. */
  function FromDocument(env: Env, data: Value): BlockRecord {
    EmptyBlock.(
      height := IntVal(Get(data, "height")),
      prevHash := StrVal(Get(data, "prevHash")),
      pubKey := env.base64Encode(StrVal(Get(data, "pubKey"))),
      time := IntVal(Get(data, "time")),
      nonce := Some(IntVal(Get(data, "nonce"))),
      signature := StrVal(Get(data, "signature")))
  }

  /**
   * `setTransactionsFromString` on the elements of the decoded JSON text:
   * each is decoded with the transaction decoder, in order; the first
   * failure is the result.
   */
  function DecodedList<T>(decode: string -> Result<T>, items: seq<Value>): (r: Result<seq<T>>)
    ensures r.Ok? ==> |r.value| == |items|
  {
    if items == [] then Ok([])
    else
      var front :- DecodedList(decode, items[..|items| - 1]);
      var last :- decode(StrVal(items[|items| - 1]));
      Ok(front + [last])
  }

  /** `Transaction::createFromString`, as a value the list decoder applies. */
  function DecodeTx(env: Env): string -> Result<Tx.TxRecord> {
    s => Tx.Decoded(env, s)
  }

  /** The transactions `setTransactionsFromString` reads out of a JSON text. */
  function DecodedTransactions(env: Env, text: string): Result<seq<Tx.TxRecord>> {
    DecodedList(DecodeTx(env), Elements(env.jsonDecode(text)))
  }

  /**
   * `createFromString`: decode, refuse a falsy field, rebuild through the
   * setters and the transaction decoder, regenerate the hash and compare it
   * (strictly) with the decoded one, then check validity.
   */
  function Decoded(env: Env, s: string): (r: Result<BlockRecord>)
    ensures r.Ok? ==> Valid(env, r.value) && GeneratedHash(env, r.value) == Ok(r.value)
    ensures r.Ok? ==> Get(env.jsonDecode(env.base64Decode(s)), "hash") == Str(r.value.hash)
    ensures !DocumentFilled(env.jsonDecode(env.base64Decode(s))) ==> r == Fail(NotEnoughData)
  {
    var data := env.jsonDecode(env.base64Decode(s));
    if !DocumentFilled(data) then Fail(NotEnoughData)
    else
      var txs :- DecodedTransactions(env, StrVal(Get(data, "transactions")));
      var u :- GeneratedHash(env, FromDocument(env, data).(transactions := txs));
      if Str(u.hash) != Get(data, "hash") then Fail(HashMismatch)
      else if !Valid(env, u) then Fail(InvalidBlock)
      else Ok(u)
  }

  /**
   * The common tail of `createGenesis` and `create`: hash, sign, and refuse
   * to hand out a block that does not verify.
   */
  function Sealed(env: Env, b: BlockRecord, privateKey: string): (r: Result<BlockRecord>)
    ensures r.Ok? ==> Valid(env, r.value) && GeneratedHash(env, r.value) == Ok(r.value)
    ensures r.Ok? ==> r.value.(hash := b.hash, signature := b.signature) == b
  {
    var u :- GeneratedHash(env, b);
    var v := Signed(env, u, privateKey).value;
    if !Valid(env, v) then Fail(InvalidBlock) else Ok(v)
  }

  /** `createGenesis`: height 1 after the sentinel "genesis", stamped with `now`. */
  function Genesis(env: Env, pubKey: string, privateKey: string, txs: seq<Tx.TxRecord>, nonce: int, now: int): (r: Result<BlockRecord>)
    ensures r.Ok? ==> r.value.height == 1 && r.value.prevHash == GenesisPrevHash
    ensures r.Ok? ==> r.value.nonce == Some(nonce) && r.value.transactions == txs && r.value.time == now
    ensures r.Ok? ==> r.value.pubKey == env.base64Encode(pubKey)
    ensures r.Ok? ==> Valid(env, r.value) && GeneratedHash(env, r.value) == Ok(r.value)
  {
    Sealed(env, EmptyBlock.(height := 1, prevHash := GenesisPrevHash, pubKey := env.base64Encode(pubKey),
                            time := now, nonce := Some(nonce), transactions := txs), privateKey)
  }

  /** `create`: refuses an invalid predecessor, otherwise links to it by height and hash. */
  function Successor(env: Env, prev: BlockRecord, pubKey: string, privateKey: string, txs: seq<Tx.TxRecord>, nonce: int, now: int): (r: Result<BlockRecord>)
    ensures !Valid(env, prev) ==> r == Fail(InvalidPrevBlock)
    ensures r.Ok? ==> r.value.height == prev.height + 1 && r.value.prevHash == prev.hash
    ensures r.Ok? ==> r.value.nonce == Some(nonce) && r.value.transactions == txs && r.value.time == now
    ensures r.Ok? ==> r.value.pubKey == env.base64Encode(pubKey)
    ensures r.Ok? ==> Valid(env, r.value) && GeneratedHash(env, r.value) == Ok(r.value)
  {
    if !Valid(env, prev) then Fail(InvalidPrevBlock)
    else
      Sealed(env, EmptyBlock.(height := prev.height + 1, prevHash := prev.hash, pubKey := env.base64Encode(pubKey),
                              time := now, nonce := Some(nonce), transactions := txs), privateKey)
  }

  /** A PHP Block object. */
  class Block {
    var height: int
    var hash: string
    var prevHash: string
    var pubKey: string
    var time: int
    var transactions: seq<Tx.TxRecord>
    var nonce: Option<int>
    var signature: string

    function State(): BlockRecord
      reads this
    {
      BlockRecord(height, hash, prevHash, pubKey, time, transactions, nonce, signature)
    }

    constructor ()
      ensures State() == EmptyBlock
    {
      height, hash, prevHash, pubKey, time := 0, "", "", "", 0;
      transactions, nonce, signature := [], None, "";
    }

    method SetHeight(v: Value)
      modifies this
      ensures State() == old(State()).(height := IntVal(v))
    {
      height := IntVal(v);
    }

    method SetPrevHash(v: Value)
      modifies this
      ensures State() == old(State()).(prevHash := StrVal(v))
    {
      prevHash := StrVal(v);
    }

    /** `getPubKey`: the raw miner key. */
    function GetPubKey(env: Env): (k: string)
      reads this
      ensures Base64Laws(env) ==> forall raw :: pubKey == env.base64Encode(raw) ==> k == raw
    {
      env.base64Decode(pubKey)
    }

    method SetPubKey(env: Env, v: Value)
      modifies this
      ensures State() == old(State()).(pubKey := env.base64Encode(StrVal(v)))
    {
      pubKey := env.base64Encode(StrVal(v));
    }

    method SetTime(v: Value)
      modifies this
      ensures State() == old(State()).(time := IntVal(v))
    {
      time := IntVal(v);
    }

    method SetTransactions(txs: seq<Tx.TxRecord>)
      modifies this
      ensures State() == old(State()).(transactions := txs)
    {
      transactions := txs;
    }

    method SetNonce(v: Value)
      modifies this
      ensures State() == old(State()).(nonce := Some(IntVal(v)))
    {
      nonce := Some(IntVal(v));
    }

    method SetSignature(env: Env, raw: string)
      modifies this
      ensures State() == old(State()).(signature := env.base64Encode(raw))
    {
      signature := env.base64Encode(raw);
    }

    method SetSignatureBase64(v: Value)
      modifies this
      ensures State() == old(State()).(signature := StrVal(v))
    {
      signature := StrVal(v);
    }

    /** `getTransactionsAsString`: encodes the transactions one by one, in order. */
    method GetTransactionsAsString(env: Env) returns (r: Result<string>)
      ensures r == TransactionsText(env, transactions)
    {
      var txs := transactions;
      var encoded: seq<Value> := [];
      var i := 0;
      while i < |txs|
        invariant 0 <= i <= |txs|
        invariant AllValid(env, txs[..i])
        invariant encoded == EncodedList(env, txs[..i])
      {
        var text := Tx.Encoded(env, txs[i]);
        if text.None? {
          return Fail(UnencodableTransaction);
        }
        EncodeStep(env, txs, i);
        encoded := encoded + [Str(text.value)];
        i := i + 1;
      }
      assert txs[..i] == txs;
      return Ok(env.jsonEncode(List(encoded)));
    }

    /** `setTransactionsFromString`: decodes the transactions one by one, in order; the first failure throws. */
    method SetTransactionsFromString(env: Env, text: string) returns (outcome: Outcome)
      modifies this
      ensures outcome.Pass? ==> DecodedTransactions(env, text) == Ok(transactions)
      ensures outcome.Raise? ==> DecodedTransactions(env, text) == Fail(outcome.error)
      ensures State() == if outcome.Pass? then old(State()).(transactions := transactions) else old(State())
    {
      var items := Elements(env.jsonDecode(text));
      var decode := DecodeTx(env);
      var result: seq<Tx.TxRecord> := [];
      var i := 0;
      while i < |items|
        invariant 0 <= i <= |items|
        invariant DecodedList(decode, items[..i]) == Ok(result)
        invariant State() == old(State())
      {
        var t := Tx.Transaction.CreateFromString(env, StrVal(items[i]));
        if t.Fail? {
          DecodedListStopsAtFailure(decode, items, i);
          return Raise(t.error);
        }
        DecodeStep(decode, items, i, t.value.State());
        result := result + [t.value.State()];
        i := i + 1;
      }
      assert items[..i] == items;
      SetTransactions(result);
      return Pass;
    }

    method GenerateHash(env: Env) returns (outcome: Outcome)
      modifies this
      ensures outcome.Pass? ==> GeneratedHash(env, old(State())) == Ok(State())
      ensures outcome.Raise? ==> GeneratedHash(env, old(State())) == Fail(outcome.error) && State() == old(State())
    {
      if height == 0 || Falsy(prevHash) || Falsy(pubKey) || time == 0 || nonce == None {
        return Raise(FieldsMissing);
      }
      var text := GetTransactionsAsString(env);
      if text.Fail? {
        return Raise(text.error);
      }
      hash := env.sha256(Decimal(height) + " " + prevHash + " " + pubKey + " " + Decimal(time) + " " + text.value + " " + Decimal(nonce.value));
      return Pass;
    }

    method Sign(env: Env, privateKey: string) returns (outcome: Outcome)
      modifies this
      ensures outcome.Pass? ==> Signed(env, old(State()), privateKey) == Ok(State())
      ensures outcome.Raise? ==> Signed(env, old(State()), privateKey) == Fail(outcome.error) && State() == old(State())
    {
      outcome := GenerateHash(env);
      if outcome.Raise? {
        return;
      }
      var text := GetTransactionsAsString(env);
      var raw := env.sign(privateKey, Decimal(height) + " " + hash + " " + prevHash + " " + pubKey + " " + Decimal(time) + " " + text.value + " " + NonceText(nonce));
      SetSignature(env, raw);
    }

    /** `getSignature`: the raw signature. */
    function GetSignature(env: Env): (sig: string)
      reads this
      ensures Base64Laws(env) ==> forall raw :: signature == env.base64Encode(raw) ==> sig == raw
    {
      env.base64Decode(signature)
    }

    predicate IsValid(env: Env)
      reads this
      ensures SignaturesCheck(env) ==>
        forall k :: env.publicKeyOf(k) == GetPubKey(env) ==>
          (IsValid(env) <==> AllValid(env, transactions)
                             && GetSignature(env) == env.sign(k, SignedText(State(), ListText(env, transactions))))
    {
      Valid(env, State())
    }

    function ToString(env: Env): (r: Option<string>)
      reads this
      ensures r.Some? <==> IsValid(env)
      ensures r.Some? && Base64Laws(env) && JsonLaws(env) ==> env.jsonDecode(env.base64Decode(r.value)) == Document(env, State())
    {
      Encoded(env, State())
    }

    static method CreateFromString(env: Env, s: string) returns (r: Result<Block>)
      ensures r.Ok? ==> fresh(r.value) && Decoded(env, s) == Ok(r.value.State())
      ensures r.Fail? ==> Decoded(env, s) == Fail(r.error)
    {
      var data := env.jsonDecode(env.base64Decode(s));
      if !Truthy(Get(data, "height")) || !Truthy(Get(data, "hash")) || !Truthy(Get(data, "prevHash"))
         || !Truthy(Get(data, "pubKey")) || !Truthy(Get(data, "time")) || !Truthy(Get(data, "transactions"))
         || !Truthy(Get(data, "nonce")) || !Truthy(Get(data, "signature")) {
        return Fail(NotEnoughData);
      }
      var b := new Block();
      b.SetHeight(Get(data, "height"));
      b.SetPrevHash(Get(data, "prevHash"));
      b.SetPubKey(env, Get(data, "pubKey"));
      b.SetTime(Get(data, "time"));
      b.SetNonce(Get(data, "nonce"));
      b.SetSignatureBase64(Get(data, "signature"));
      assert b.State() == FromDocument(env, data);
      var outcome := b.SetTransactionsFromString(env, StrVal(Get(data, "transactions")));
      if outcome.Raise? {
        return Fail(outcome.error);
      }
      outcome := b.GenerateHash(env);
      if outcome.Raise? {
        return Fail(outcome.error);
      }
      if Str(b.hash) != Get(data, "hash") {
        return Fail(HashMismatch);
      }
      if !b.IsValid(env) {
        return Fail(InvalidBlock);
      }
      return Ok(b);
    }

    /** Hash, sign and self-check a freshly assembled block. */
    method Seal(env: Env, privateKey: string) returns (outcome: Outcome)
      modifies this
      ensures outcome.Pass? ==> Sealed(env, old(State()), privateKey) == Ok(State())
      ensures outcome.Raise? ==> Sealed(env, old(State()), privateKey).Fail? && Sealed(env, old(State()), privateKey).error == outcome.error
    {
      outcome := GenerateHash(env);
      if outcome.Raise? {
        return;
      }
      outcome := Sign(env, privateKey);
      if !IsValid(env) {
        return Raise(InvalidBlock);
      }
    }

    static method CreateGenesis(env: Env, pubKey: string, privateKey: string, txs: seq<Tx.TxRecord>, nonce: int, now: int)
      returns (r: Result<Block>)
      ensures r.Ok? ==> fresh(r.value) && Genesis(env, pubKey, privateKey, txs, nonce, now) == Ok(r.value.State())
      ensures r.Fail? ==> Genesis(env, pubKey, privateKey, txs, nonce, now) == Fail(r.error)
    {
      var b := new Block();
      b.SetHeight(Int(1));
      b.SetPrevHash(Str(GenesisPrevHash));
      b.SetPubKey(env, Str(pubKey));
      b.SetTime(Int(now));
      b.SetNonce(Int(nonce));
      b.SetTransactions(txs);
      assert b.State() == EmptyBlock.(height := 1, prevHash := GenesisPrevHash, pubKey := env.base64Encode(pubKey),
                                      time := now, nonce := Some(nonce), transactions := txs);
      var outcome := b.Seal(env, privateKey);
      if outcome.Raise? {
        return Fail(outcome.error);
      }
      return Ok(b);
    }

    static method Create(env: Env, prev: BlockRecord, pubKey: string, privateKey: string, txs: seq<Tx.TxRecord>, nonce: int, now: int)
      returns (r: Result<Block>)
      ensures r.Ok? ==> fresh(r.value) && Successor(env, prev, pubKey, privateKey, txs, nonce, now) == Ok(r.value.State())
      ensures r.Fail? ==> Successor(env, prev, pubKey, privateKey, txs, nonce, now) == Fail(r.error)
    {
      if !Valid(env, prev) {
        return Fail(InvalidPrevBlock);
      }
      var b := new Block();
      b.SetHeight(Int(prev.height + 1));
      b.SetPrevHash(Str(prev.hash));
      b.SetPubKey(env, Str(pubKey));
      b.SetTime(Int(now));
      b.SetNonce(Int(nonce));
      b.SetTransactions(txs);
      assert b.State() == EmptyBlock.(height := prev.height + 1, prevHash := prev.hash, pubKey := env.base64Encode(pubKey),
                                      time := now, nonce := Some(nonce), transactions := txs);
      var outcome := b.Seal(env, privateKey);
      if outcome.Raise? {
        return Fail(outcome.error);
      }
      return Ok(b);
    }
  }

  /** Encoding one more transaction extends the list by its encoding. */
  lemma EncodeStep(env: Env, txs: seq<Tx.TxRecord>, i: nat)
    requires i < |txs| && Tx.Valid(env, txs[i]) && AllValid(env, txs[..i])
    ensures AllValid(env, txs[..i + 1])
    ensures EncodedList(env, txs[..i + 1]) == EncodedList(env, txs[..i]) + [Str(Tx.Serialized(env, txs[i]))]
  {
    assert txs[..i + 1][..i] == txs[..i];
  }

  /** Decoding one more element extends a successful list decode by that element's record. */
  lemma DecodeStep<T>(decode: string -> Result<T>, items: seq<Value>, i: nat, x: T)
    requires i < |items| && DecodedList(decode, items[..i]).Ok? && decode(StrVal(items[i])) == Ok(x)
    ensures DecodedList(decode, items[..i + 1]) == Ok(DecodedList(decode, items[..i]).value + [x])
  {
    assert items[..i + 1][..i] == items[..i];
  }

  /** A successful list decode holds, at each position, what the transaction decoder makes of that element. */
  lemma {:induction false} DecodedListElements<T>(decode: string -> Result<T>, items: seq<Value>)
    requires DecodedList(decode, items).Ok?
    ensures forall i :: 0 <= i < |items| ==> decode(StrVal(items[i])) == Ok(DecodedList(decode, items).value[i])
    decreases |items|
  {
    if items != [] {
      DecodedListElements(decode, items[..|items| - 1]);
    }
  }

  /** When the element at `i` fails to decode after a successful prefix, the whole list fails with its error. */
  lemma {:induction false} DecodedListStopsAtFailure<T>(decode: string -> Result<T>, items: seq<Value>, i: nat)
    requires i < |items|
    requires DecodedList(decode, items[..i]).Ok?
    requires decode(StrVal(items[i])).Fail?
    ensures DecodedList(decode, items) == Fail(decode(StrVal(items[i])).error)
    decreases |items|
  {
    assert items[..i + 1][..i] == items[..i];
    if i == |items| - 1 {
      assert items[..|items| - 1] == items[..i];
    } else {
      var front := items[..|items| - 1];
      assert front[..i] == items[..i];
      DecodedListStopsAtFailure(decode, front, i);
    }
  }
}
