/**
 * The miner (mine.php): an endless loop that bumps a nonce, re-reads the
 * chain's tip and up to ten pooled transactions, builds a candidate block on
 * them and keeps it when its hash starts with enough zeros.  One pass of the
 * loop is `MineStep`; `Mine` runs a given number of passes, one per reading
 * of the clock.  An exception that would end the PHP script ends both.
 */
module Mining {
  import opened Text
  import opened Primitives
  import opened Errors
  import opened Blocks
  import opened Repositories
  import Tx = Transactions
  import BP = BlockProofs

  /** How many leading '0' hex digits a block's hash needs; fixed for this chain. */
  const Difficulty: nat := 3

  /** `substr(hash, 0, d) === str_repeat('0', d)`: the prefix of a short hash is the whole hash. */
  predicate Accepts(hash: string, d: nat) {
    hash[..if |hash| < d then |hash| else d] == Repeat('0', d)
  }

  /** A hash is accepted exactly when it has at least `d` characters and the first `d` are '0'. */
  lemma AcceptsMeansLeadingZeros(hash: string, d: nat)
    ensures Accepts(hash, d) <==> |hash| >= d && forall i :: 0 <= i < d ==> hash[i] == '0'
  {
    if |hash| >= d && forall i :: 0 <= i < d ==> hash[i] == '0' {
      assert hash[..d] == Repeat('0', d);
    }
    if Accepts(hash, d) {
      assert |hash| >= d;
      forall i | 0 <= i < d
        ensures hash[i] == '0'
      {
        assert hash[..d][i] == Repeat('0', d)[i];
      }
    }
  }

  /** The block an attempt builds: a genesis block on an empty chain, otherwise a successor of the tip. */
  function Candidate(env: Env, tip: Option<BlockRecord>, pubKey: string, privateKey: string,
                     txs: seq<Tx.TxRecord>, nonce: int, now: int): (r: Result<BlockRecord>)
    ensures r.Ok? ==> r.value.nonce == Some(nonce) && r.value.transactions == txs && r.value.time == now
    ensures r.Ok? ==> r.value.pubKey == env.base64Encode(pubKey)
    ensures r.Ok? ==> Valid(env, r.value) && GeneratedHash(env, r.value) == Ok(r.value)
    ensures r.Ok? && tip.None? ==> r.value.height == 1 && r.value.prevHash == GenesisPrevHash
    ensures r.Ok? && tip.Some? ==> Valid(env, tip.value)
    ensures r.Ok? && tip.Some? ==> r.value.height == tip.value.height + 1 && r.value.prevHash == tip.value.hash
  {
    match tip
    case None => Genesis(env, pubKey, privateKey, txs, nonce, now)
    case Some(prev) => Successor(env, prev, pubKey, privateKey, txs, nonce, now)
  }

  /**
   * With a matching key pair, a clock that is not zero, valid transactions and
   * a tip read back from a height that is not negative, building the
   * candidate never fails.
   */
  lemma CandidateSucceeds(env: Env, tip: Option<BlockRecord>, pubKey: string, privateKey: string,
                          txs: seq<Tx.TxRecord>, nonce: int, now: int)
    requires DigestShape(env) && SignaturesCheck(env) && Base64Laws(env)
    requires pubKey == env.publicKeyOf(privateKey) && pubKey != ""
    requires AllValid(env, txs) && now != 0
    requires tip.Some? ==> Valid(env, tip.value) && GeneratedHash(env, tip.value) == Ok(tip.value) && tip.value.height >= 0
    ensures Candidate(env, tip, pubKey, privateKey, txs, nonce, now).Ok?
  {
    match tip
    case None =>
      BP.GenesisSucceeds(env, pubKey, privateKey, txs, nonce, now);
    case Some(prev) =>
      assert |prev.hash| >= 2;
      BP.SuccessorSucceeds(env, prev, pubKey, privateKey, txs, nonce, now);
  }

  /** The transactions of a sample are all valid. */
  lemma SampleValid(env: Env, pool: Pool, txs: seq<Tx.TxRecord>)
    requires Sample(env, pool, txs)
    ensures AllValid(env, txs)
  {
    forall i | 0 <= i < |txs|
      ensures Tx.Valid(env, txs[i])
    {
      assert PoolRead(env, pool, txs[i].id) == Ok(Some(txs[i]));
    }
  }

  /** How one attempt ends: the script dies of an error, or the candidate is dropped or kept. */
  datatype Attempt = Halted(error: Error) | Rejected(candidate: BlockRecord) | Mined(candidate: BlockRecord)

  /**
   * Under a matching key pair, a clock that is not zero, a readable pool and a
   * readable chain whose heights are not negative, no attempt dies: the tip
   * reads back, every pooled row reads back, and every sample the pool can
   * give builds a candidate.
   */
  lemma StepCannotHalt(env: Env, pool: Pool, chain: Chain, pubKey: string, privateKey: string, nonce: int, now: int)
    requires DigestShape(env) && SignaturesCheck(env) && Base64Laws(env)
    requires pubKey == env.publicKeyOf(privateKey) && pubKey != "" && now != 0
    requires PoolSound(env, pool) && ChainSound(env, chain)
    requires forall h :: h in chain ==> h >= 0
    ensures ChainTip(env, chain).Ok?
    ensures forall id :: id in pool ==> PoolRead(env, pool, id).Ok?
    ensures forall txs :: Sample(env, pool, txs) ==> Candidate(env, ChainTip(env, chain).value, pubKey, privateKey, txs, nonce, now).Ok?
  {
    var tip := ChainTip(env, chain).value;
    forall txs | Sample(env, pool, txs)
      ensures Candidate(env, tip, pubKey, privateKey, txs, nonce, now).Ok?
    {
      SampleValid(env, pool, txs);
      CandidateSucceeds(env, tip, pubKey, privateKey, txs, nonce, now);
    }
  }

  /**
   * The reads and the construction of one pass: the tip, up to ten pooled
   * transactions, and the candidate built on them.  Nothing is stored.
   */
  method BuildCandidate(env: Env, repo: Repository, pubKey: string, privateKey: string, nonce: int, now: int)
    returns (r: Result<Block>)
    ensures r.Ok? ==> fresh(r.value) && ChainTip(env, repo.chain).Ok?
    ensures r.Ok? ==> Sample(env, repo.pool, r.value.transactions)
    ensures r.Ok? ==> Candidate(env, ChainTip(env, repo.chain).value, pubKey, privateKey,
                                r.value.transactions, nonce, now) == Ok(r.value.State())
    ensures r.Fail? ==>
      || ChainTip(env, repo.chain) == Fail(r.error)
      || (exists id :: id in repo.pool && PoolRead(env, repo.pool, id) == Fail(r.error))
      || (ChainTip(env, repo.chain).Ok? &&
          (exists txs :: Sample(env, repo.pool, txs) &&
             Candidate(env, ChainTip(env, repo.chain).value, pubKey, privateKey, txs, nonce, now) == Fail(r.error)))
  {
    var tip := repo.GetLastBlock(env);
    if tip.Fail? {
      return Fail(tip.error);
    }
    var txs := repo.Get10TransactionsFromPool(env);
    if txs.Fail? {
      return Fail(txs.error);
    }
    if tip.value.None? {
      r := Block.CreateGenesis(env, pubKey, privateKey, txs.value, nonce, now);
    } else {
      r := Block.Create(env, tip.value.value, pubKey, privateKey, txs.value, nonce, now);
    }
  }

  /** One pass of the loop, from the nonce before it to the nonce after it. */
  method MineStep(env: Env, repo: Repository, nonce: int, pubKey: string, privateKey: string, now: int)
    returns (next: int, attempt: Attempt)
    modifies repo
    ensures next == if attempt.Mined? then 0 else nonce + 1
    ensures !attempt.Mined? ==> repo.pool == old(repo.pool) && repo.chain == old(repo.chain)
    ensures attempt.Mined? ==> repo.chain == ChainAdd(env, old(repo.chain), attempt.candidate)
    ensures attempt.Mined? ==> repo.pool == PoolPrune(env, old(repo.pool), attempt.candidate)
    ensures !attempt.Halted? ==> (attempt.Mined? <==> Accepts(attempt.candidate.hash, Difficulty))
    ensures !attempt.Halted? ==> ChainTip(env, old(repo.chain)).Ok?
    ensures !attempt.Halted? ==> Sample(env, old(repo.pool), attempt.candidate.transactions)
    ensures !attempt.Halted? ==>
      Candidate(env, ChainTip(env, old(repo.chain)).value, pubKey, privateKey,
                attempt.candidate.transactions, nonce + 1, now) == Ok(attempt.candidate)
    ensures attempt.Halted? ==>
      || ChainTip(env, old(repo.chain)) == Fail(attempt.error)
      || (exists id :: id in old(repo.pool) && PoolRead(env, old(repo.pool), id) == Fail(attempt.error))
      || (ChainTip(env, old(repo.chain)).Ok? &&
          (exists txs :: Sample(env, old(repo.pool), txs) &&
             Candidate(env, ChainTip(env, old(repo.chain)).value, pubKey, privateKey, txs, nonce + 1, now) == Fail(attempt.error)))
  {
    next := nonce + 1;
    var made := BuildCandidate(env, repo, pubKey, privateKey, next, now);
    if made.Fail? {
      return next, Halted(made.error);
    }
    var block := made.value;
    var candidate := block.State();
    if Accepts(block.hash, Difficulty) {
      next := 0;
      repo.AddBlock(env, block);
      attempt := Mined(candidate);
    } else {
      attempt := Rejected(candidate);
    }
  }

  /**
   * Adding an accepted block to a chain that extends `base` by accepted
   * blocks only gives a chain that still does: `addBlock` never overwrites a
   * stored block.
   */
  lemma ChainAddGrows(env: Env, base: Chain, chain: Chain, b: BlockRecord)
    requires forall h :: h in base ==> h in chain && chain[h] == base[h]
    requires forall h :: h in chain && h !in base ==> Accepts(chain[h].hash, Difficulty)
    requires Accepts(b.hash, Difficulty)
    ensures forall h :: h in base ==> h in ChainAdd(env, chain, b) && ChainAdd(env, chain, b)[h] == base[h]
    ensures forall h :: h in ChainAdd(env, chain, b) && h !in base ==> Accepts(ChainAdd(env, chain, b)[h].hash, Difficulty)
  {
  }

  /** Blocks the loop keeps: each has an accepted hash and a nonce of at least 1. */
  predicate Kept(blocks: seq<BlockRecord>) {
    forall k :: 0 <= k < |blocks| ==> Accepts(blocks[k].hash, Difficulty) && blocks[k].nonce.Some? && blocks[k].nonce.value >= 1
  }

  lemma KeptGrows(blocks: seq<BlockRecord>, b: BlockRecord)
    requires Kept(blocks) && Accepts(b.hash, Difficulty) && b.nonce.Some? && b.nonce.value >= 1
    ensures Kept(blocks + [b])
  {
  }

  /**
   * The loop, one pass per reading of the clock, starting from nonce 0.  It
   * stops early where the script would die.  Blocks already stored are never
   * touched, every block it stores has an accepted hash, and no candidate it
   * keeps carries a nonce below 1.
   */
  method Mine(env: Env, repo: Repository, pubKey: string, privateKey: string, clock: seq<int>)
    returns (nonce: int, mined: seq<BlockRecord>)
    modifies repo
    ensures nonce >= 0
    ensures forall h :: h in old(repo.chain) ==> h in repo.chain && repo.chain[h] == old(repo.chain)[h]
    ensures forall h :: h in repo.chain && h !in old(repo.chain) ==> Accepts(repo.chain[h].hash, Difficulty)
    ensures Kept(mined)
  {
    nonce, mined := 0, [];
    var i := 0;
    while i < |clock|
      invariant 0 <= i <= |clock| && nonce >= 0
      invariant forall h :: h in old(repo.chain) ==> h in repo.chain && repo.chain[h] == old(repo.chain)[h]
      invariant forall h :: h in repo.chain && h !in old(repo.chain) ==> Accepts(repo.chain[h].hash, Difficulty)
      invariant Kept(mined)
    {
      ghost var chainBefore := repo.chain;
      var attempt;
      nonce, attempt := MineStep(env, repo, nonce, pubKey, privateKey, clock[i]);
      if attempt.Halted? {
        return;
      }
      if attempt.Mined? {
        ChainAddGrows(env, old(repo.chain), chainBefore, attempt.candidate);
        KeptGrows(mined, attempt.candidate);
        mined := mined + [attempt.candidate];
      }
      i := i + 1;
    }
  }
}
