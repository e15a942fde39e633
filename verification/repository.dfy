/**
 * The ledger store (src/Repository.php): the transaction pool and the chain
 * of blocks, held as two maps that the store's methods update in place.
 * Writes are insert-or-ignore and gated on validity; reads rebuild the
 * record through its setters and re-check its id or hash and its signature.
 *
 * Each map holds the values the store binds into its table row.  The pool
 * is keyed by transaction id; the blocks are keyed by height.
 */
module Repositories {
  import opened Text
  import opened Values
  import opened Primitives
  import opened Errors
  import opened Blocks
  import Tx = Transactions

  /** A `transactions_pool` row without its id: the raw sender key, the base64 signature. */
  datatype PoolRow = PoolRow(from: string, to: string, amount: int, signature: string, time: int)

  /** A `blocks` row without its height: the raw miner key, the transactions' JSON text, the base64 signature. */
  datatype BlockRow = BlockRow(
    hash: string,
    prevHash: string,
    pubKey: string,
    time: int,
    transactions: string,
    nonce: Option<int>,
    signature: string
  )

  type Pool = map<string, PoolRow>
  type Chain = map<int, BlockRow>

  /** What `addTransaction` binds for a transaction. */
  function PoolRowOf(env: Env, t: Tx.TxRecord): PoolRow {
    PoolRow(env.base64Decode(t.from), t.to, t.amount, t.signature, t.time)
  }

  /** `addTransaction`: ignore an invalid transaction or one whose id is already pooled, otherwise insert. */
  function PoolAdd(env: Env, pool: Pool, t: Tx.TxRecord): (r: Pool)
    ensures !Tx.Valid(env, t) || t.id in pool ==> r == pool
    ensures Tx.Valid(env, t) && t.id !in pool ==> r == pool[t.id := PoolRowOf(env, t)]
  {
    if !Tx.Valid(env, t) || t.id in pool then pool else pool[t.id := PoolRowOf(env, t)]
  }

  /** The record the setters build from a pool row, before its id is generated. */
  function FromPoolRow(env: Env, row: PoolRow): Tx.TxRecord {
    Tx.EmptyTx.(
      from := env.base64Encode(StrVal(Str(row.from))),
      to := StrVal(Str(row.to)),
      amount := AmountVal(Amount(row.amount)),
      signature := StrVal(Str(row.signature)),
      time := IntVal(Int(row.time)))
  }

  /**
   * `getTransactionById`: None for an absent id; otherwise the rebuilt
   * record, refused when its regenerated id is not the stored one or its
   * signature does not verify.
   */
  function PoolRead(env: Env, pool: Pool, id: string): (r: Result<Option<Tx.TxRecord>>)
    ensures id !in pool ==> r == Ok(None)
    ensures id in pool ==> r != Ok(None)
    ensures r.Ok? && r.value.Some? ==> id in pool && r.value.value.id == id
    ensures r.Ok? && r.value.Some? ==> Tx.Valid(env, r.value.value) && r.value.value.id == Tx.ComputeId(env, r.value.value)
  {
    if id !in pool then Ok(None)
    else
      var u :- Tx.GeneratedId(env, FromPoolRow(env, pool[id]));
      if u.id != id then Fail(IdMismatch)
      else if !Tx.Valid(env, u) then Fail(InvalidTransaction)
      else Ok(Some(u))
  }

  /** A list `get10TransactionsFromPool` may return: up to ten distinct pooled ids, read back. */
  predicate Sample(env: Env, pool: Pool, txs: seq<Tx.TxRecord>) {
    && |txs| == (if |pool| < 10 then |pool| else 10)
    && (forall i :: 0 <= i < |txs| ==> txs[i].id in pool && PoolRead(env, pool, txs[i].id) == Ok(Some(txs[i])))
    && (forall i, j :: 0 <= i < j < |txs| ==> txs[i].id != txs[j].id)
  }

  /** Every pooled row reads back: no read of the pool throws. */
  predicate PoolSound(env: Env, pool: Pool) {
    forall id :: id in pool ==> PoolRead(env, pool, id).Ok?
  }

  /** The ids of a list of transactions. */
  function Ids(txs: seq<Tx.TxRecord>): set<string> {
    set i | 0 <= i < |txs| :: txs[i].id
  }

  /** What `addBlock` binds for a block. */
  function BlockRowOf(env: Env, b: BlockRecord): BlockRow {
    BlockRow(b.hash, b.prevHash, env.base64Decode(b.pubKey), b.time, ListText(env, b.transactions), b.nonce, b.signature)
  }

  /** `addBlock` on the chain: ignore an invalid block or one whose height is taken, otherwise insert. */
  function ChainAdd(env: Env, chain: Chain, b: BlockRecord): (r: Chain)
    ensures !Valid(env, b) || b.height in chain ==> r == chain
    ensures Valid(env, b) && b.height !in chain ==> r == chain[b.height := BlockRowOf(env, b)]
  {
    if !Valid(env, b) || b.height in chain then chain else chain[b.height := BlockRowOf(env, b)]
  }

  /** `addBlock` on the pool: a valid block's transaction ids leave the pool, whether or not the block was inserted. */
  function PoolPrune(env: Env, pool: Pool, b: BlockRecord): (r: Pool)
    ensures forall id :: id in r <==> id in pool && (!Valid(env, b) || id !in Ids(b.transactions))
    ensures forall id :: id in r ==> r[id] == pool[id]
  {
    if !Valid(env, b) then pool else pool - Ids(b.transactions)
  }

  /** The greatest height in the chain: the row `ORDER BY height DESC LIMIT 1` selects. */
  ghost function TopHeight(heights: set<int>): (top: int)
    requires heights != {}
    ensures top in heights && forall h :: h in heights ==> h <= top
    decreases |heights|
  {
    var x := Member(heights);
    if heights == {x} then x
    else
      var rest := TopHeight(heights - {x});
      assert forall h :: h in heights ==> h == x || h in heights - {x};
      if x < rest then rest else x
  }

  /** The record the setters build from a block row, before its transactions and hash. */
  function FromBlockRow(env: Env, height: int, row: BlockRow): BlockRecord {
    EmptyBlock.(
      height := IntVal(Int(height)),
      prevHash := StrVal(Str(row.prevHash)),
      pubKey := env.base64Encode(StrVal(Str(row.pubKey))),
      time := IntVal(Int(row.time)),
      nonce := Some(IntVal(if row.nonce.Some? then Int(row.nonce.value) else Null)),
      signature := StrVal(Str(row.signature)))
  }

  /**
   * Rebuilding a block from its row, as `getLastBlock` does: no field check,
   * the transactions decoded from their text, the hash regenerated and
   * compared with the stored one, then validity.
   */
  function BlockRead(env: Env, height: int, row: BlockRow): (r: Result<BlockRecord>)
    ensures r.Ok? ==> r.value.height == height && r.value.hash == row.hash
    ensures r.Ok? ==> Valid(env, r.value) && GeneratedHash(env, r.value) == Ok(r.value)
  {
    var txs :- DecodedTransactions(env, StrVal(Str(row.transactions)));
    var u :- GeneratedHash(env, FromBlockRow(env, height, row).(transactions := txs));
    if u.hash != row.hash then Fail(HashMismatch)
    else if !Valid(env, u) then Fail(InvalidBlock)
    else Ok(u)
  }

  /** Every stored block reads back: no read of the chain throws. */
  predicate ChainSound(env: Env, chain: Chain) {
    forall h :: h in chain ==> BlockRead(env, h, chain[h]).Ok?
  }

  /** `getLastBlock`: None on an empty chain, otherwise the block of greatest height, read back. */
  ghost function ChainTip(env: Env, chain: Chain): (r: Result<Option<BlockRecord>>)
    ensures chain == map[] ==> r == Ok(None)
    ensures r.Ok? && r.value.Some? ==> r.value.value.height in chain
    ensures r.Ok? && r.value.Some? ==> forall h :: h in chain ==> h <= r.value.value.height
    ensures r.Ok? && r.value.Some? ==> r.value.value.hash == chain[r.value.value.height].hash
    ensures r.Ok? && r.value.Some? ==> Valid(env, r.value.value) && GeneratedHash(env, r.value.value) == Ok(r.value.value)
    ensures r.Ok? <==> chain == map[] || BlockRead(env, TopHeight(chain.Keys), chain[TopHeight(chain.Keys)]).Ok?
    ensures ChainSound(env, chain) ==> r.Ok? && (chain != map[] ==> r.value.Some?)
  {
    if chain == map[] then Ok(None)
    else
      var top := TopHeight(chain.Keys);
      var b :- BlockRead(env, top, chain[top]);
      Ok(Some(b))
  }

  /** The PHP Repository object, with its two tables. */
  class Repository {
    var pool: Pool
    var chain: Chain

    constructor (pool: Pool, chain: Chain)
      ensures this.pool == pool && this.chain == chain
    {
      this.pool := pool;
      this.chain := chain;
    }

    method AddTransaction(env: Env, t: Tx.Transaction)
      modifies this
      ensures pool == PoolAdd(env, old(pool), t.State())
      ensures chain == old(chain)
    {
      if !t.IsValid(env) {
        return;
      }
      if t.id !in pool {
        pool := pool[t.id := PoolRow(t.GetFrom(env), t.to, t.amount, t.signature, t.time)];
      }
    }

    method GetTransactionById(env: Env, id: string) returns (r: Result<Option<Tx.TxRecord>>)
      ensures r == PoolRead(env, pool, id)
    {
      if id !in pool {
        return Ok(None);
      }
      var row := pool[id];
      var t := new Tx.Transaction();
      t.SetFrom(env, Str(row.from));
      t.SetTo(Str(row.to));
      t.SetAmount(Amount(row.amount));
      t.SetSignatureBase64(Str(row.signature));
      t.SetTime(Int(row.time));
      assert t.State() == FromPoolRow(env, row);
      var outcome := t.GenerateId(env);
      if outcome.Raise? {
        return Fail(outcome.error);
      }
      if t.id != id {
        return Fail(IdMismatch);
      }
      if !t.IsValid(env) {
        return Fail(InvalidTransaction);
      }
      return Ok(Some(t.State()));
    }

    /** `SELECT id FROM transactions_pool LIMIT 10`: up to ten distinct pooled ids, in no specified order. */
    method SelectIds() returns (ids: seq<string>)
      ensures |ids| == (if |pool| < 10 then |pool| else 10)
      ensures forall i :: 0 <= i < |ids| ==> ids[i] in pool
      ensures forall i, j :: 0 <= i < j < |ids| ==> ids[i] != ids[j]
    {
      ids := [];
      var rest := pool.Keys;
      while |ids| < 10 && rest != {}
        invariant rest <= pool.Keys && |ids| <= 10
        invariant forall i :: 0 <= i < |ids| ==> ids[i] in pool && ids[i] !in rest
        invariant forall i, j :: 0 <= i < j < |ids| ==> ids[i] != ids[j]
        invariant |ids| + |rest| == |pool|
        decreases |rest|
      {
        var id := Choose(rest);
        ids := ids + [id];
        rest := rest - {id};
      }
    }

    method Get10TransactionsFromPool(env: Env) returns (r: Result<seq<Tx.TxRecord>>)
      ensures r.Ok? ==> Sample(env, pool, r.value)
      ensures r.Fail? ==> exists id :: id in pool && PoolRead(env, pool, id) == Fail(r.error)
      ensures pool == map[] ==> r == Ok([])
      ensures PoolSound(env, pool) ==> r.Ok?
    {
      var ids := SelectIds();
      var res: seq<Tx.TxRecord> := [];
      var i := 0;
      while i < |ids|
        invariant 0 <= i <= |ids|
        invariant |res| == i
        invariant forall k :: 0 <= k < i ==> res[k].id == ids[k] && PoolRead(env, pool, ids[k]) == Ok(Some(res[k]))
      {
        var t := GetTransactionById(env, ids[i]);
        if t.Fail? {
          return Fail(t.error);
        }
        res := res + [t.value.value];
        i := i + 1;
      }
      return Ok(res);
    }

    method DeleteTransactionFromPool(id: string)
      modifies this
      ensures pool == old(pool) - {id}
      ensures chain == old(chain)
    {
      pool := pool - {id};
    }

    /** Reads back the block at `height`, through the Block setters as `getLastBlock` does. */
    method ReadBlock(env: Env, height: int) returns (r: Result<BlockRecord>)
      requires height in chain
      ensures r == BlockRead(env, height, chain[height])
    {
      var row := chain[height];
      var b := new Block();
      b.SetHeight(Int(height));
      b.SetPrevHash(Str(row.prevHash));
      b.SetPubKey(env, Str(row.pubKey));
      b.SetTime(Int(row.time));
      b.SetNonce(if row.nonce.Some? then Int(row.nonce.value) else Null);
      b.SetSignatureBase64(Str(row.signature));
      assert b.State() == FromBlockRow(env, height, row);
      var outcome := b.SetTransactionsFromString(env, StrVal(Str(row.transactions)));
      if outcome.Raise? {
        return Fail(outcome.error);
      }
      outcome := b.GenerateHash(env);
      if outcome.Raise? {
        return Fail(outcome.error);
      }
      if b.hash != row.hash {
        return Fail(HashMismatch);
      }
      if !b.IsValid(env) {
        return Fail(InvalidBlock);
      }
      return Ok(b.State());
    }

    method GetLastBlock(env: Env) returns (r: Result<Option<BlockRecord>>)
      ensures r == ChainTip(env, chain)
    {
      if chain == map[] {
        return Ok(None);
      }
      var top := Choose(chain.Keys);
      var rest := chain.Keys - {top};
      while rest != {}
        invariant top in chain && rest <= chain.Keys
        invariant forall h :: h in chain && h !in rest ==> h <= top
        decreases |rest|
      {
        var h := Choose(rest);
        if top < h {
          top := h;
        }
        rest := rest - {h};
      }
      assert top == TopHeight(chain.Keys);
      var b := ReadBlock(env, top);
      if b.Fail? {
        return Fail(b.error);
      }
      return Ok(Some(b.value));
    }

    method AddBlock(env: Env, b: Block)
      modifies this
      ensures chain == ChainAdd(env, old(chain), b.State())
      ensures pool == PoolPrune(env, old(pool), b.State())
    {
      if !b.IsValid(env) {
        return;
      }
      var text := b.GetTransactionsAsString(env);
      if b.height !in chain {
        chain := chain[b.height := BlockRow(b.hash, b.prevHash, b.GetPubKey(env), b.time, text.value, b.nonce, b.signature)];
      }
      assert chain == ChainAdd(env, old(chain), b.State());
      DeleteTransactionsFromPool(b.transactions);
    }

    /** The deletion loop of `addBlock`: each transaction's id leaves the pool. */
    method DeleteTransactionsFromPool(txs: seq<Tx.TxRecord>)
      modifies this
      ensures pool == old(pool) - Ids(txs)
      ensures chain == old(chain)
    {
      var i := 0;
      while i < |txs|
        invariant 0 <= i <= |txs|
        invariant chain == old(chain)
        invariant pool == old(pool) - Ids(txs[..i])
      {
        IdsStep(txs, i);
        DeleteTransactionFromPool(txs[i].id);
        i := i + 1;
      }
      assert txs[..i] == txs;
    }
  }

  /** Some element of a nonempty set. */
  ghost function Member<T>(s: set<T>): (x: T)
    requires s != {}
    ensures x in s
  {
    var x :| x in s; x
  }

  /** Picks some element of a nonempty set. */
  method Choose<T>(s: set<T>) returns (x: T)
    requires s != {}
    ensures x in s
  {
    x :| x in s;
  }

  /** One more transaction adds its id to the ids of a prefix. */
  lemma IdsStep(txs: seq<Tx.TxRecord>, i: nat)
    requires i < |txs|
    ensures Ids(txs[..i + 1]) == Ids(txs[..i]) + {txs[i].id}
  {
    assert txs[..i + 1][i] == txs[i];
    forall id | id in Ids(txs[..i + 1])
      ensures id in Ids(txs[..i]) + {txs[i].id}
    {
      var k :| 0 <= k < i + 1 && txs[..i + 1][k].id == id;
      if k < i {
        assert txs[..i][k].id == id;
      }
    }
    forall id | id in Ids(txs[..i])
      ensures id in Ids(txs[..i + 1])
    {
      var k :| 0 <= k < i && txs[..i][k].id == id;
      assert txs[..i + 1][k].id == id;
    }
  }
}
