/**
 * A transfer record (src/Transaction.php): its fields, the id derived from
 * them, the signature over the id and fields, the validity check, and the
 * fixed-field-order text encoding with its tamper-checking decoder.
 *
 * The rules are functions over `TxRecord`, the value of an object's fields;
 * the class `Transaction` holds those fields and updates them in place as the
 * PHP object does, each method proved to agree with the function it mirrors.
 */
module Transactions {
  import opened Text
  import opened Values
  import opened Primitives
  import opened Errors

  /**
   * The fields of a transaction.  `from` (the sender's public key) and
   * `signature` are held as base64 text; an unset field is "" or 0, which
   * PHP's checks treat exactly like the null they stand for.
   */
  datatype TxRecord = TxRecord(
    id: string,
    from: string,
    to: string,
    amount: int,
    signature: string,
    time: int
  )

  const EmptyTx := TxRecord("", "", "", 0, "", 0)

  /** The text the id hashes: `'%s %s %1.5F %d'` over base64 from, to, amount and time. */
  function IdText(t: TxRecord): string {
    t.from + " " + t.to + " " + FormatAmount(t.amount) + " " + Decimal(t.time)
  }

  /** The text the signature covers: `'%s %s %s %1.5F %d'`, the stored id followed by the id text. */
  function SignedText(t: TxRecord): string {
    t.id + " " + IdText(t)
  }

  /** The id the fields call for. */
  function ComputeId(env: Env, t: TxRecord): string {
    env.sha256(IdText(t))
  }

  /** None of from, to, amount, time is falsy: what generateId demands. */
  predicate Filled(t: TxRecord) {
    !Falsy(t.from) && !Falsy(t.to) && t.amount != 0 && t.time != 0
  }

  /** `generateId`: refuses a record with a falsy field, otherwise replaces the id and nothing else. */
  function GeneratedId(env: Env, t: TxRecord): (r: Result<TxRecord>)
    ensures r.Fail? <==> !Filled(t)
    ensures r.Fail? ==> r.error == FieldsMissing
    ensures r.Ok? ==> r.value.id == ComputeId(env, t) && r.value.(id := t.id) == t
  {
    if !Filled(t) then Fail(FieldsMissing) else Ok(t.(id := ComputeId(env, t)))
  }

  /** `sign`: generateId, then a signature over the text that includes the new id. */
  function Signed(env: Env, t: TxRecord, privateKey: string): (r: Result<TxRecord>)
    ensures r.Fail? <==> !Filled(t)
    ensures r.Ok? ==> r.value.id == ComputeId(env, t) && r.value.(id := t.id, signature := t.signature) == t
  {
    var u :- GeneratedId(env, t);
    Ok(u.(signature := env.base64Encode(env.sign(privateKey, SignedText(u)))))
  }

  /**
   * `isValid`: the decoded signature verifies under the decoded sender key
   * over the text built from the STORED id; the id is not re-derived.
   */
  predicate Valid(env: Env, t: TxRecord) {
    env.verify(SignedText(t), env.base64Decode(t.signature), env.base64Decode(t.from))
  }

  /** The array `__toString` hands to json_encode, in its fixed field order. */
  function Document(env: Env, t: TxRecord): Value {
    Assoc([
      ("id", Str(t.id)),
      ("from", Str(env.base64Decode(t.from))),
      ("to", Str(t.to)),
      ("amount", Amount(t.amount)),
      ("signature", Str(t.signature)),
      ("time", Int(t.time))
    ])
  }

  /** base64 of the JSON text of the document. */
  function Serialized(env: Env, t: TxRecord): string {
    env.base64Encode(env.jsonEncode(Document(env, t)))
  }

  /** `__toString`: the encoding of a valid transaction; None stands for PHP's `false`. */
  function Encoded(env: Env, t: TxRecord): (r: Option<string>)
    ensures r.Some? <==> Valid(env, t)
    ensures r.Some? ==> r.value == Serialized(env, t)
    ensures r.Some? && Base64Laws(env) && JsonLaws(env) ==> env.jsonDecode(env.base64Decode(r.value)) == Document(env, t)
  {
    if Valid(env, t) then Some(Serialized(env, t)) else None
  }

  /** The six fields `createFromString` demands, all truthy. */
  predicate DocumentFilled(data: Value) {
    && Truthy(Get(data, "id"))
    && Truthy(Get(data, "from"))
    && Truthy(Get(data, "to"))
    && Truthy(Get(data, "amount"))
    && Truthy(Get(data, "signature"))
    && Truthy(Get(data, "time"))
  }

  /** The record the setters build from a decoded document, before its id is generated. */
  function FromDocument(env: Env, data: Value): TxRecord {
    EmptyTx.(
      from := env.base64Encode(StrVal(Get(data, "from"))),
      to := StrVal(Get(data, "to")),
      amount := AmountVal(Get(data, "amount")),
      signature := StrVal(Get(data, "signature")),
      time := IntVal(Get(data, "time")))
  }

  /**
   * `createFromString`: decode, refuse a falsy field, rebuild through the
   * setters, regenerate the id and compare it (strictly) with the decoded
   * one, then check the signature.
   */
  function Decoded(env: Env, s: string): (r: Result<TxRecord>)
    ensures r.Ok? ==> Filled(r.value) && Valid(env, r.value) && r.value.id == ComputeId(env, r.value)
    ensures r.Ok? ==> Get(env.jsonDecode(env.base64Decode(s)), "id") == Str(r.value.id)
    ensures !DocumentFilled(env.jsonDecode(env.base64Decode(s))) ==> r == Fail(NotEnoughData)
  {
    var data := env.jsonDecode(env.base64Decode(s));
    if !DocumentFilled(data) then Fail(NotEnoughData)
    else
      var u :- GeneratedId(env, FromDocument(env, data));
      if Str(u.id) != Get(data, "id") then Fail(IdMismatch)
      else if !Valid(env, u) then Fail(InvalidTransaction)
      else Ok(u)
  }

  /** A PHP Transaction object. */
  class Transaction {
    var id: string
    var from: string
    var to: string
    var amount: int
    var signature: string
    var time: int

    function State(): TxRecord
      reads this
    {
      TxRecord(id, from, to, amount, signature, time)
    }

    constructor ()
      ensures State() == EmptyTx
    {
      id, from, to, amount, signature, time := "", "", "", 0, "", 0;
    }

    /** `getFrom`: the raw sender key. */
    function GetFrom(env: Env): (k: string)
      reads this
      ensures Base64Laws(env) ==> forall raw :: from == env.base64Encode(raw) ==> k == raw
    {
      env.base64Decode(from)
    }

    method SetFrom(env: Env, v: Value)
      modifies this
      ensures State() == old(State()).(from := env.base64Encode(StrVal(v)))
    {
      from := env.base64Encode(StrVal(v));
    }

    method SetTo(v: Value)
      modifies this
      ensures State() == old(State()).(to := StrVal(v))
    {
      to := StrVal(v);
    }

    method SetAmount(v: Value)
      modifies this
      ensures State() == old(State()).(amount := AmountVal(v))
    {
      amount := AmountVal(v);
    }

    /** `getSignature`: the raw signature. */
    function GetSignature(env: Env): (sig: string)
      reads this
      ensures Base64Laws(env) ==> forall raw :: signature == env.base64Encode(raw) ==> sig == raw
    {
      env.base64Decode(signature)
    }

    method SetSignature(env: Env, raw: string)
      modifies this
      ensures State() == old(State()).(signature := env.base64Encode(raw))
    {
      signature := env.base64Encode(raw);
    }

    method SetSignatureBase64(v: Value)
      modifies this
      ensures State() == old(State()).(signature := StrVal(v))
    {
      signature := StrVal(v);
    }

    method SetTime(v: Value)
      modifies this
      ensures State() == old(State()).(time := IntVal(v))
    {
      time := IntVal(v);
    }

    method GenerateId(env: Env) returns (outcome: Outcome)
      modifies this
      ensures outcome.Pass? ==> GeneratedId(env, old(State())) == Ok(State())
      ensures outcome.Raise? ==> GeneratedId(env, old(State())) == Fail(outcome.error) && State() == old(State())
    {
      if Falsy(from) || Falsy(to) || amount == 0 || time == 0 {
        return Raise(FieldsMissing);
      }
      id := env.sha256(from + " " + to + " " + FormatAmount(amount) + " " + Decimal(time));
      return Pass;
    }

    method Sign(env: Env, privateKey: string) returns (outcome: Outcome)
      modifies this
      ensures outcome.Pass? ==> Signed(env, old(State()), privateKey) == Ok(State())
      ensures outcome.Raise? ==> Signed(env, old(State()), privateKey) == Fail(outcome.error) && State() == old(State())
    {
      outcome := GenerateId(env);
      if outcome.Raise? {
        return;
      }
      var text := id + " " + from + " " + to + " " + FormatAmount(amount) + " " + Decimal(time);
      assert text == SignedText(State());
      var raw := env.sign(privateKey, text);
      SetSignature(env, raw);
    }

    predicate IsValid(env: Env)
      reads this
      ensures SignaturesCheck(env) ==>
        forall k :: env.publicKeyOf(k) == GetFrom(env) ==>
          (IsValid(env) <==> GetSignature(env) == env.sign(k, SignedText(State())))
    {
      Valid(env, State())
    }

    function ToString(env: Env): (r: Option<string>)
      reads this
      ensures r.Some? <==> IsValid(env)
      ensures r.Some? && Base64Laws(env) && JsonLaws(env) ==> env.jsonDecode(env.base64Decode(r.value)) == Document(env, State())
    {
      Encoded(env, State())
    }

    static method CreateFromString(env: Env, s: string) returns (r: Result<Transaction>)
      ensures r.Ok? ==> fresh(r.value) && Decoded(env, s) == Ok(r.value.State())
      ensures r.Fail? ==> Decoded(env, s) == Fail(r.error)
    {
      var data := env.jsonDecode(env.base64Decode(s));
      if !Truthy(Get(data, "id")) || !Truthy(Get(data, "from")) || !Truthy(Get(data, "to"))
         || !Truthy(Get(data, "amount")) || !Truthy(Get(data, "signature")) || !Truthy(Get(data, "time")) {
        return Fail(NotEnoughData);
      }
      var t := new Transaction();
      t.SetFrom(env, Get(data, "from"));
      t.SetTo(Get(data, "to"));
      t.SetAmount(Get(data, "amount"));
      t.SetSignatureBase64(Get(data, "signature"));
      t.SetTime(Get(data, "time"));
      assert t.State() == FromDocument(env, data);
      var outcome := t.GenerateId(env);
      if outcome.Raise? {
        return Fail(outcome.error);
      }
      if Str(t.id) != Get(data, "id") {
        return Fail(IdMismatch);
      }
      if !t.IsValid(env) {
        return Fail(InvalidTransaction);
      }
      return Ok(t);
    }
  }
}
