/**
 * What the store guarantees across its operations: a row written for a
 * well-formed record reads back as that record, the pool and the chain stay
 * readable under every write, and a block stored above the tip becomes the
 * new tip.  It also records one way the pool can be poisoned: the write
 * checks only the signature, while the read also re-derives the id.
 */
module RepositoryProofs {
  import opened Text
  import opened Values
  import opened Primitives
  import opened Errors
  import opened Blocks
  import opened Repositories
  import Tx = Transactions
  import TxP = TransactionProofs
  import BP = BlockProofs

  // ---------------------------------------------------------------- pool

  /** The setters rebuild a stored transaction's fields from its row; only the id is left to generate. */
  lemma PoolRowRebuilds(env: Env, t: Tx.TxRecord)
    requires Canonical(env, t.from)
    ensures FromPoolRow(env, PoolRowOf(env, t)) == t.(id := "")
  {
  }

  /** A valid, well-formed transaction added under a fresh id reads back unchanged. */
  lemma AddThenRead(env: Env, pool: Pool, t: Tx.TxRecord)
    requires Tx.Valid(env, t) && TxP.WellFormed(env, t)
    requires t.id !in pool
    ensures PoolRead(env, PoolAdd(env, pool, t), t.id) == Ok(Some(t))
  {
    PoolRowRebuilds(env, t);
    var p := PoolAdd(env, pool, t);
    assert p[t.id] == PoolRowOf(env, t);
    assert Tx.GeneratedId(env, FromPoolRow(env, p[t.id])) == Ok(t);
  }

  /** A read of one id depends on that id's row alone. */
  lemma ReadSeesOwnRow(env: Env, p: Pool, q: Pool, id: string)
    requires id in p && id in q && p[id] == q[id]
    ensures PoolRead(env, p, id) == PoolRead(env, q, id)
  {
  }

  /** Adding a transaction that is well formed whenever it is valid keeps every pooled row readable. */
  lemma {:induction false} AddKeepsSound(env: Env, pool: Pool, t: Tx.TxRecord)
    requires PoolSound(env, pool)
    requires Tx.Valid(env, t) ==> TxP.WellFormed(env, t)
    ensures PoolSound(env, PoolAdd(env, pool, t))
  {
    var p := PoolAdd(env, pool, t);
    forall id | id in p
      ensures PoolRead(env, p, id).Ok?
    {
      if id == t.id && t.id !in pool {
        AddThenRead(env, pool, t);
      } else {
        ReadSeesOwnRow(env, p, pool, id);
      }
    }
  }

  /** Deleting any set of ids, as `deleteTransactionFromPool` and `addBlock` do, keeps the pool readable. */
  lemma {:induction false} DeleteKeepsSound(env: Env, pool: Pool, ids: set<string>)
    requires PoolSound(env, pool)
    ensures PoolSound(env, pool - ids)
  {
    forall id | id in pool - ids
      ensures PoolRead(env, pool - ids, id).Ok?
    {
      ReadSeesOwnRow(env, pool - ids, pool, id);
    }
  }

  /** `addBlock`'s pruning keeps the pool readable. */
  lemma PruneKeepsSound(env: Env, pool: Pool, b: BlockRecord)
    requires PoolSound(env, pool)
    ensures PoolSound(env, PoolPrune(env, pool, b))
  {
    if Valid(env, b) {
      DeleteKeepsSound(env, pool, Ids(b.transactions));
    }
  }

  /**
   * Reading back the row `addTransaction` writes for a filled transaction:
   * the id regenerated from the row is compared with the stored one first,
   * then the signature is checked, as `getTransactionById` does.
   */
  lemma PoolReadOutcome(env: Env, pool: Pool, t: Tx.TxRecord)
    requires Tx.Filled(t) && Canonical(env, t.from)
    requires t.id in pool && pool[t.id] == PoolRowOf(env, t)
    ensures PoolRead(env, pool, t.id) ==
      if Tx.ComputeId(env, t) != t.id then Fail(IdMismatch)
      else if !Tx.Valid(env, t) then Fail(InvalidTransaction)
      else Ok(Some(t))
  {
    PoolRowRebuilds(env, t);
    assert Tx.GeneratedId(env, FromPoolRow(env, pool[t.id])) == Ok(t.(id := Tx.ComputeId(env, t)));
  }

  /**
   * `addTransaction` asks only `isValid`, which checks the signature over the
   * stored id without re-deriving it, while `getTransactionById` re-derives
   * the id and refuses a mismatch.  A transaction signed over a stale id is
   * therefore stored, and from then on its row makes every read of it throw.
   */
  lemma StaleIdPoisonsPool(env: Env, pool: Pool, t: Tx.TxRecord)
    requires Tx.Valid(env, t) && Tx.Filled(t) && Canonical(env, t.from)
    requires t.id != Tx.ComputeId(env, t) && t.id !in pool
    ensures t.id in PoolAdd(env, pool, t)
    ensures PoolRead(env, PoolAdd(env, pool, t), t.id) == Fail(IdMismatch)
    ensures !PoolSound(env, PoolAdd(env, pool, t))
  {
    PoolRowRebuilds(env, t);
    var p := PoolAdd(env, pool, t);
    assert p[t.id] == PoolRowOf(env, t);
    assert Tx.GeneratedId(env, FromPoolRow(env, p[t.id])) == Ok(t.(id := Tx.ComputeId(env, t)));
  }

  // ---------------------------------------------------------------- chain

  /** The setters rebuild a stored block's fields from its row; the transactions and the hash are left to the decoder. */
  lemma BlockRowRebuilds(env: Env, b: BlockRecord)
    requires Canonical(env, b.pubKey) && b.nonce.Some?
    ensures FromBlockRow(env, b.height, BlockRowOf(env, b)) == b.(hash := "", transactions := [])
  {
  }

  /** A valid, well-formed block reads back unchanged from the row `addBlock` writes for it. */
  lemma BlockReadBack(env: Env, b: BlockRecord)
    requires DigestShape(env) && Base64Laws(env) && JsonLaws(env)
    requires Valid(env, b) && BP.WellFormed(env, b)
    ensures BlockRead(env, b.height, BlockRowOf(env, b)) == Ok(b)
  {
    var row := BlockRowOf(env, b);
    BP.DecodeListText(env, b.transactions);
    assert DecodedTransactions(env, StrVal(Str(row.transactions))) == Ok(b.transactions);
    BlockRowRebuilds(env, b);
    var rebuilt := FromBlockRow(env, b.height, row).(transactions := b.transactions);
    assert rebuilt == b.(hash := "");
    BP.HashIgnoresHashAndSignature(env, b, "", b.signature);
    assert GeneratedHash(env, rebuilt) == Ok(b);
  }

  /**
   * What `getLastBlock` makes of a block's row whose transactions are valid
   * and well-formed: the stored hash is compared with the one regenerated
   * from the other columns, then the miner's signature is checked, and
   * either failure throws.
   */
  lemma BlockReadOutcome(env: Env, b: BlockRecord)
    requires DigestShape(env) && Base64Laws(env) && JsonLaws(env)
    requires AllValid(env, b.transactions) && Filled(b) && Canonical(env, b.pubKey)
    requires forall i :: 0 <= i < |b.transactions| ==> TxP.WellFormed(env, b.transactions[i])
    ensures BlockRead(env, b.height, BlockRowOf(env, b)) ==
      if ComputeHash(env, b) != b.hash then Fail(HashMismatch)
      else if !Valid(env, b) then Fail(InvalidBlock)
      else Ok(b)
  {
    var row := BlockRowOf(env, b);
    BP.DecodeListText(env, b.transactions);
    assert DecodedTransactions(env, StrVal(Str(row.transactions))) == Ok(b.transactions);
    BlockRowRebuilds(env, b);
    var rebuilt := FromBlockRow(env, b.height, row).(transactions := b.transactions);
    assert rebuilt == b.(hash := "");
    BP.HashIgnoresHashAndSignature(env, b, "", b.signature);
    assert GeneratedHash(env, rebuilt) == Ok(b.(hash := ComputeHash(env, b)));
  }

  /**
   * `addBlock` asks only `isValid`, which checks the signature over the stored
   * hash without regenerating it, while `getLastBlock` regenerates the hash
   * and refuses a mismatch.  A block signed over a stale hash is therefore
   * stored, and from then on its row makes every read of it throw.
   */
  lemma StaleHashPoisonsChain(env: Env, chain: Chain, b: BlockRecord)
    requires DigestShape(env) && Base64Laws(env) && JsonLaws(env)
    requires Valid(env, b) && Filled(b) && Canonical(env, b.pubKey)
    requires forall i :: 0 <= i < |b.transactions| ==> TxP.WellFormed(env, b.transactions[i])
    requires b.hash != ComputeHash(env, b) && b.height !in chain
    ensures b.height in ChainAdd(env, chain, b)
    ensures BlockRead(env, b.height, ChainAdd(env, chain, b)[b.height]) == Fail(HashMismatch)
    ensures !ChainSound(env, ChainAdd(env, chain, b))
  {
    BlockReadOutcome(env, b);
  }

  /** Adding a block that is well formed whenever it is valid keeps every stored block readable. */
  lemma {:induction false} ChainAddKeepsSound(env: Env, chain: Chain, b: BlockRecord)
    requires DigestShape(env) && Base64Laws(env) && JsonLaws(env)
    requires ChainSound(env, chain)
    requires Valid(env, b) ==> BP.WellFormed(env, b)
    ensures ChainSound(env, ChainAdd(env, chain, b))
  {
    var c := ChainAdd(env, chain, b);
    forall h | h in c
      ensures BlockRead(env, h, c[h]).Ok?
    {
      if h == b.height && Valid(env, b) && b.height !in chain {
        BlockReadBack(env, b);
      } else {
        assert c[h] == chain[h];
      }
    }
  }

  /** A valid, well-formed block stored above every height is what `getLastBlock` returns next. */
  lemma AddAboveTipBecomesTip(env: Env, chain: Chain, b: BlockRecord)
    requires DigestShape(env) && Base64Laws(env) && JsonLaws(env)
    requires Valid(env, b) && BP.WellFormed(env, b)
    requires forall h :: h in chain ==> h < b.height
    ensures ChainTip(env, ChainAdd(env, chain, b)) == Ok(Some(b))
  {
    var c := ChainAdd(env, chain, b);
    assert b.height in c.Keys;
    var top := TopHeight(c.Keys);
    assert top == b.height;
    BlockReadBack(env, b);
  }
}
