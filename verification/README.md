# secoin ledger core in Dafny

This project models the integrity core of secoin, a small PHP ledger:

- signed transfer records (`Transaction`);
- hash-chained, miner-signed blocks of transfers (`Block`);
- the store that keeps a pool of pending transfers and the chain of blocks (`Repository`);
- the proof-of-work loop that turns pooled transfers into blocks (`mine.php`).

The model covers how ids and hashes are derived, what is signed, how each record is checked, and how records are encoded and decoded with their tamper checks. It also covers the store's insert-or-ignore writes and its re-checking reads, and the miner's nonce state machine.

Layout, one module per file:

- `text.dfy` (`Text`): PHP's falsy strings, `%d` and `%1.5F`. Both formats are written out and proved injective.
- `values.dfy` (`Values`): PHP values as produced by `json_decode(..., true)` and by database rows, with the setters' coercions (`strval`, `intval`, `floatval`).
- `primitives.dfy` (`Primitives`): the foreign functions, as fields of an `Env` value that every operation takes as a parameter. These are SHA-256 (FIPS 180-4), RSA signatures with SHA-256 (section 8.2 of RFC 8017), base64 (section 4 of RFC 4648) and JSON (RFC 8259). The properties proofs rely on are predicates over `Env`:
  - `DigestShape`: a digest has at least two characters, so it is never falsy (a SHA-256 digest has 64; the exact length is not assumed, because together with `CollisionFree` it would be contradictory);
  - `CollisionFree`;
  - `SignaturesCheck`: a signature verifies under a key pair's public half exactly when it is that key's signature;
  - `SignaturesBind`;
  - `Base64Laws`: decoding inverts encoding, encodings have a length divisible by four, and only "" encodes to "";
  - `JsonLaws`.

  A lemma names the laws it uses in its `requires`. `Primitives.LawsAreConsistent` exhibits an `Env` that meets every law except `JsonLaws`, so the lemmas that require only those laws do not hold vacuously. `JsonLaws` has no witness here: the lemmas that also require it (the round trips, both `DecodedEncoding` lemmas, `BlockReadBack` and others) rest on it being satisfiable by a real JSON codec.
- `errors.dfy` (`Errors`): the exceptions, and `Result`/`Outcome`/`Option`. A PHP `throw` becomes `Fail(e)` or `Raise(e)`.
- `transaction.dfy` and `block.dfy`: the rules as functions over the record values `TxRecord` and `BlockRecord`. The classes `Transaction` and `Block` hold the same fields and update them in place. Each method is proved equal to the function it mirrors, through `State()`.
- `transaction_proofs.dfy` and `block_proofs.dfy`: the properties of those rules. These include tamper evidence, round trips, refusals by the decoders, and the linkage rules.
- `repository.dfy` (`Repositories`): the store as a class over two maps, the pool (id to row) and the chain (height to row). Each operation is specified by a function.
- `repository_proofs.dfy`: read-after-write for both tables, the soundness invariants, and the new tip after a block is stored.
- `mine.dfy` (`Mining`): one pass of the mining loop (`MineStep`), a bounded run of passes (`Mine`), and the difficulty test.

In both tables a row stores the sender's or miner's key raw, as the getters return it. The setters re-encode it on the way back. A transaction's id and a block's hash are computed over the base64 form of the key.

## Model

| member | source | states |
|---|---|---|
| Text.DecimalRoundTrip | src/Transaction.php:84-91 | `%d` output parses back to the integer printed |
| Text.DecimalInjective | src/Block.php:132-141 | two integers with the same `%d` text are equal, so a changed height, time or nonce changes the hashed text |
| Text.AmountRoundTrip | src/Transaction.php:84-91 | `%1.5F` output of a fixed-point amount parses back to that amount |
| Text.AmountInjective | src/Transaction.php:84-91 | two amounts with the same `%1.5F` text are equal |
| Values.LookupLatest | src/Transaction.php:151-153 | looking a key up in a decoded document yields the last entry with that key |
| Primitives.EncodedIsCanonical | src/Transaction.php:23-26 | a key stored through `base64_encode` re-encodes to itself after decoding |
| Primitives.EncodedTruthy | src/Block.php:45-48 | the base64 form of a non-empty string is neither "" nor "0" |
| Primitives.CanonicalInjective | src/Transaction.php:18-21 | canonical base64 strings with equal decodings are equal |
| Transactions.GeneratedId | src/Transaction.php:78-92 | fails with FieldsMissing exactly when from, to, amount or time is falsy; otherwise sets the id to the digest of the id text and changes nothing else |
| Transactions.Signed | src/Transaction.php:94-112 | fails exactly when generateId would; otherwise the id is the computed one and only id and signature change |
| Values.IntValInvertsStrVal | src/Transaction.php:73-76 | `intval(strval(n))` is `n` for every integer, so an integer survives the string setters |
| Values.AmountVal | src/Transaction.php:43-46 | `floatval` keeps a float's value, scales a whole number exactly, and a number's result is zero exactly when the number is falsy |
| TransactionProofs.ValidIffSenderSigned | src/Transaction.php:114-130 | `isValid`: under the signature law, and for a private key whose public half is the stored sender, valid exactly when the decoded signature is that key's signature over the stored id and the id text |
| Transactions.Encoded | src/Transaction.php:132-147 | text exists exactly when the transaction is valid; it is the base64 JSON document of the six fields in fixed order, and under the base64 and JSON laws it decodes back to that document |
| Transactions.Decoded | src/Transaction.php:149-175 | NotEnoughData when any decoded field is falsy; on success the record is filled, valid, carries the decoded id, and that id is the one its fields call for (the IdMismatch and InvalidTransaction outcomes: TransactionProofs.DecodedEncoding) |
| Transactions.Transaction.constructor | src/Transaction.php:4-11 | a new object has every field unset |
| Transactions.Transaction.SetFrom | src/Transaction.php:23-26 | stores the base64 form of the coerced sender key; no other field changes |
| Transactions.Transaction.SetTo | src/Transaction.php:33-36 | stores `strval` of the argument; no other field changes |
| Transactions.Transaction.SetAmount | src/Transaction.php:43-46 | stores `floatval` of the argument as a fixed-point amount; no other field changes |
| Transactions.Transaction.SetSignature | src/Transaction.php:58-61 | stores the base64 form of the raw signature; no other field changes |
| Transactions.Transaction.SetSignatureBase64 | src/Transaction.php:63-66 | stores the already-encoded signature as given; no other field changes |
| Transactions.Transaction.SetTime | src/Transaction.php:73-76 | stores `intval` of the argument; no other field changes |
| Transactions.Transaction.GetFrom | src/Transaction.php:18-21 | returns the raw key that `setFrom` stored, under the base64 laws |
| Transactions.Transaction.GetSignature | src/Transaction.php:48-51 | returns the raw signature that `setSignature` stored, under the base64 laws |
| Transactions.Transaction.IsValid | src/Transaction.php:114-130 | in terms of the getters: for a key whose public half is `getFrom()`, valid exactly when `getSignature()` is that key's signature over the signed text |
| Transactions.Transaction.ToString | src/Transaction.php:132-147 | a text exactly when the object is valid, and that text decodes back to the six-field document |
| Transactions.Transaction.GenerateId | src/Transaction.php:78-92 | in-place update agrees with GeneratedId; on a throw the fields are untouched |
| Transactions.Transaction.Sign | src/Transaction.php:94-112 | in-place update agrees with Signed; on a throw the fields are untouched |
| Transactions.Transaction.CreateFromString | src/Transaction.php:149-175 | a fresh object whose fields are Decoded's result, or Decoded's error |
| TransactionProofs.IdDependsOnContentOnly | src/Transaction.php:84-91 | records agreeing on from, to, amount and time get the same id, whatever their id and signature |
| TransactionProofs.SignThenValid | src/Transaction.php:94-130 | signing a filled record with the key whose public half is its sender makes it valid, with the computed id |
| TransactionProofs.ValidFixesSignedText | src/Transaction.php:114-130 | two valid records from one sender with the same signature sign the same text |
| TransactionProofs.TamperedToInvalid | src/Transaction.php:114-130 | changing `to` after signing makes the record invalid |
| TransactionProofs.TamperedAmountInvalid | src/Transaction.php:114-130 | changing the amount after signing makes the record invalid |
| TransactionProofs.TamperedTimeInvalid | src/Transaction.php:114-130 | changing the time after signing makes the record invalid |
| TransactionProofs.TamperedIdInvalid | src/Transaction.php:114-130 | changing the stored id after signing makes the record invalid: the id is inside the signed text |
| TransactionProofs.TamperedSignatureInvalid | src/Transaction.php:114-130 | replacing the signature with one that decodes differently makes the record invalid |
| TransactionProofs.DocumentFields | src/Transaction.php:136-143 | each key of the encoded document holds its field: raw sender key, base64 signature, typed amount and time |
| TransactionProofs.DecodeSerialized | src/Transaction.php:136-151 | decoding the text gives back the encoded document |
| TransactionProofs.RoundTrip | src/Transaction.php:132-175 | a valid, well-formed transaction encodes, and createFromString of its text gives the same record |
| TransactionProofs.SignedIsWellFormed | src/Transaction.php:94-112 | signing a filled record with a canonical, truthy sender key gives a well-formed record |
| TransactionProofs.SignEncodeDecode | src/Transaction.php:94-175 | sign, then `__toString`, then createFromString gives back the signed record |
| TransactionProofs.DecodedEncoding | src/Transaction.php:149-175 | decoding a record's text whose fields pass the falsy test fails with IdMismatch when the stored id is not the one its fields call for, else with InvalidTransaction when the signature does not verify, else gives the record |
| TransactionProofs.ForgedIdRefused | src/Transaction.php:164-168 | a text whose id was replaced by another truthy string is refused with IdMismatch |
| TransactionProofs.StaleIdAfterAmountRefused | src/Transaction.php:164-168 | a text whose amount changed after its id was generated is refused with IdMismatch |
| TransactionProofs.StaleIdAfterTimeRefused | src/Transaction.php:164-168 | a text whose time changed after its id was generated is refused with IdMismatch |
| TransactionProofs.StaleIdRefused | src/Transaction.php:164-168 | a record whose `to` changed after its id was generated is refused with IdMismatch |
| TransactionProofs.ForeignSignatureRefused | src/Transaction.php:170-172 | a document whose signature is not the sender's over the text is refused with InvalidTransaction |
| TransactionProofs.EmptySenderRefused | src/Transaction.php:23-26 | an empty sender key is stored as "", so generateId and sign throw FieldsMissing |
| TransactionProofs.ZeroAmountRefused | src/Transaction.php:153-155 | a zero amount is refused as missing data |
| TransactionProofs.SerializedInjective | src/Transaction.php:132-147 | distinct records with canonical sender keys have distinct texts |
| Blocks.EncodedList | src/Block.php:103-108 | the foreach yields one encoded item per transaction (the items themselves: BlockProofs.EncodedListElements) |
| Blocks.TransactionsText | src/Block.php:100-112 | succeeds exactly when every transaction is valid, giving the JSON array of their texts in order; otherwise UnencodableTransaction |
| Blocks.GeneratedHash | src/Block.php:126-142 | FieldsMissing when height, prevHash, pubKey or time is falsy or the nonce is null (0 allowed); UnencodableTransaction for an invalid transaction; otherwise sets the hash over the fields and changes nothing else |
| Blocks.Signed | src/Block.php:144-164 | fails exactly when generateHash would; otherwise the hash is the computed one and only hash and signature change |
| BlockProofs.ValidIffMinerSigned | src/Block.php:166-190 | `isValid`: under the signature law, and for a private key whose public half is the stored miner key, valid exactly when every transaction is valid and the decoded signature is that key's signature over the signed text |
| Blocks.Encoded | src/Block.php:192-209 | text exists exactly when the block is valid; it is the base64 JSON document of the eight fields in fixed order, and under the base64 and JSON laws it decodes back to that document |
| Blocks.DecodedList | src/Block.php:114-124 | the decoded list has one transaction per element, in order |
| Blocks.Decoded | src/Block.php:211-240 | NotEnoughData when any decoded field is falsy (nonce 0 included); on success the block is valid, its hash is the decoded one, and that hash is the one its fields call for |
| Blocks.Sealed | src/Block.php:253-260 | on success the block is valid, carries the hash its fields call for, and differs from its input only in hash and signature |
| Blocks.Genesis | src/Block.php:242-261 | height 1, prevHash "genesis", the given nonce, transactions, time and key; valid, with a consistent hash |
| Blocks.Successor | src/Block.php:263-286 | InvalidPrevBlock for an invalid predecessor; otherwise height prev+1 and prevHash prev.hash, valid, with a consistent hash |
| Blocks.Block.constructor | src/Block.php:4-13 | a new block has every field unset and no transactions |
| Blocks.Block.SetHeight | src/Block.php:20-23 | stores `intval` of the argument; no other field changes |
| Blocks.Block.SetPrevHash | src/Block.php:35-38 | stores `strval` of the argument; no other field changes |
| Blocks.Block.SetPubKey | src/Block.php:45-48 | stores the base64 form of the miner key; no other field changes |
| Blocks.Block.SetTime | src/Block.php:55-58 | stores `intval` of the argument; no other field changes |
| Blocks.Block.SetTransactions | src/Block.php:65-68 | replaces the transaction list; no other field changes |
| Blocks.Block.SetNonce | src/Block.php:75-78 | stores `intval` of the argument, so the nonce is no longer null; no other field changes |
| Blocks.Block.SetSignature | src/Block.php:90-93 | stores the base64 form of the raw signature; no other field changes |
| Blocks.Block.SetSignatureBase64 | src/Block.php:95-98 | stores the encoded signature as given; no other field changes |
| Blocks.Block.GetPubKey | src/Block.php:40-43 | returns the raw key that `setPubKey` stored, under the base64 laws |
| Blocks.Block.GetSignature | src/Block.php:80-83 | returns the raw signature that `setSignature` stored, under the base64 laws |
| Blocks.Block.IsValid | src/Block.php:166-190 | in terms of the getters: for a key whose public half is `getPubKey()`, valid exactly when every transaction is valid and `getSignature()` is that key's signature over the signed text |
| Blocks.Block.ToString | src/Block.php:192-209 | a text exactly when the block is valid, and that text decodes back to the eight-field document |
| Blocks.Block.GetTransactionsAsString | src/Block.php:100-112 | the loop's result is TransactionsText of the block's list |
| Blocks.Block.SetTransactionsFromString | src/Block.php:114-124 | on success the list is the decoded one; on the first undecodable element its error is raised and the block is unchanged |
| Blocks.Block.GenerateHash | src/Block.php:126-142 | in-place update agrees with GeneratedHash; on a throw the fields are untouched |
| Blocks.Block.Sign | src/Block.php:144-164 | in-place update agrees with Signed; on a throw the fields are untouched |
| Blocks.Block.CreateFromString | src/Block.php:211-240 | a fresh block whose fields are Decoded's result, or Decoded's error |
| Blocks.Block.Seal | src/Block.php:253-260 | hash, sign, then validity check agree with Sealed |
| Blocks.Block.CreateGenesis | src/Block.php:242-261 | a fresh block equal to Genesis's result, or Genesis's error |
| Blocks.Block.Create | src/Block.php:263-286 | a fresh block equal to Successor's result, or Successor's error |
| Blocks.DecodedListElements | src/Block.php:119-121 | each element of a decoded list is the decoding of the matching text |
| Blocks.DecodedListStopsAtFailure | src/Block.php:119-121 | the first element that fails to decode decides the error |
| BlockProofs.HashIgnoresHashAndSignature | src/Block.php:132-141 | the hash covers neither the hash nor the signature field |
| BlockProofs.SignedHashConsistent | src/Block.php:144-146 | after signing, regenerating the hash changes nothing |
| BlockProofs.SignThenValid | src/Block.php:144-190 | signing a filled block of valid transactions with the miner's key makes it valid |
| BlockProofs.InvalidTransactionInvalidatesBlock | src/Block.php:170-174 | one invalid transaction makes the block invalid and unencodable |
| BlockProofs.ValidFixesSignedText | src/Block.php:176-189 | two valid blocks from one miner with the same signature sign the same text |
| BlockProofs.TamperedHeightInvalid | src/Block.php:176-189 | changing the height after signing makes the block invalid |
| BlockProofs.TamperedHashInvalid | src/Block.php:176-189 | changing the stored hash after signing makes the block invalid |
| BlockProofs.TamperedPrevHashInvalid | src/Block.php:176-189 | changing prevHash after signing makes the block invalid |
| BlockProofs.TamperedTimeInvalid | src/Block.php:176-189 | changing the time after signing makes the block invalid |
| BlockProofs.TamperedNonceInvalid | src/Block.php:176-189 | changing the nonce after signing makes the block invalid |
| BlockProofs.EncodedListElements | src/Block.php:103-108 | item i of the encoded list is the text of transaction i |
| BlockProofs.ListTextInjective | src/Block.php:100-112 | distinct transaction lists with canonical sender keys have distinct JSON texts |
| BlockProofs.HashBindsTransactions | src/Block.php:132-141 | replacing, reordering, adding or removing a transaction changes the hash |
| BlockProofs.TamperedTransactionsInvalid | src/Block.php:166-190 | changing the transaction list after signing makes the block invalid |
| BlockProofs.DocumentFields | src/Block.php:196-205 | each key of the encoded document holds its field; a null nonce is encoded as null |
| BlockProofs.DecodeSerialized | src/Block.php:196-213 | decoding the text gives back the encoded document |
| BlockProofs.DecodeEncodedList | src/Block.php:100-124 | decoding the encodings of valid, well-formed transactions gives the list back |
| BlockProofs.DecodeListText | src/Block.php:100-124 | setTransactionsFromString inverts getTransactionsAsString, whose text is never falsy |
| BlockProofs.DecodedEncoding | src/Block.php:211-240 | decoding a block's text fails with HashMismatch when the stored hash is stale, else InvalidBlock when the block is invalid, else gives the block |
| BlockProofs.RoundTrip | src/Block.php:192-240 | a valid, well-formed block encodes, and createFromString of its text gives the same block |
| BlockProofs.ZeroNonceRefused | src/Block.php:215-218 | a block with nonce 0 is refused as missing data, although generateHash accepts it |
| BlockProofs.HashBindsNonce | src/Block.php:132-141 | a different nonce gives a different hash |
| BlockProofs.StaleHashRefused | src/Block.php:229-233 | a block whose nonce changed after hashing is refused with HashMismatch |
| BlockProofs.EmptyMinerKeyRefused | src/Block.php:242-286 | an empty miner key is stored as "", so createGenesis and create (on a valid predecessor) throw FieldsMissing |
| BlockProofs.GenesisSucceeds | src/Block.php:242-261 | with a matching key pair, valid transactions and a non-zero clock, createGenesis does not throw |
| BlockProofs.SuccessorSucceeds | src/Block.php:263-286 | with a matching key pair, create succeeds exactly when the predecessor is valid, its height+1 is not 0 and its hash is truthy |
| BlockProofs.SuccessorLinks | src/Block.php:265-272 | a block made by create links to a valid predecessor by height and hash |
| Repositories.PoolAdd | src/Repository.php:27-51 | an invalid transaction or a pooled id leaves the pool unchanged; otherwise exactly the new id is added |
| Repositories.PoolRead | src/Repository.php:53-87 | an absent id reads as none and a present one never does; a record read back carries the asked id, is valid, and its id is the one its fields call for (the IdMismatch and InvalidTransaction outcomes: RepositoryProofs.PoolReadOutcome) |
| Repositories.ChainAdd | src/Repository.php:164-203 | an invalid block or a taken height leaves the chain unchanged; otherwise exactly the new height is added |
| Repositories.PoolPrune | src/Repository.php:205-207 | a valid block's transaction ids leave the pool, whether or not it was inserted; other entries keep their rows |
| Repositories.TopHeight | src/Repository.php:131 | the greatest stored height |
| Repositories.BlockRead | src/Repository.php:142-161 | a block read back has the asked height and the stored hash, is valid, and its hash is the one its fields call for (the HashMismatch and InvalidBlock outcomes: RepositoryProofs.BlockReadOutcome) |
| Repositories.ChainTip | src/Repository.php:127-162 | none on an empty chain; otherwise the block at the greatest height with the stored hash, valid; it fails only when that row fails to read, never on a sound chain |
| Repositories.Repository.constructor | src/Repository.php:8-13 | a store over the given tables |
| Repositories.Repository.AddTransaction | src/Repository.php:27-51 | the pool becomes PoolAdd of the transaction's fields; the chain is untouched |
| Repositories.Repository.GetTransactionById | src/Repository.php:53-87 | the rebuild through the setters returns PoolRead |
| Repositories.Repository.SelectIds | src/Repository.php:93-100 | min(10, pool size) distinct pooled ids |
| Repositories.Repository.Get10TransactionsFromPool | src/Repository.php:89-111 | a sample of up to ten distinct pooled records read back; an empty pool gives none; a failure is some pooled row's read error; a sound pool never fails |
| Repositories.Repository.DeleteTransactionFromPool | src/Repository.php:113-123 | removes exactly that id, a no-op when it is absent; the chain is untouched |
| Repositories.Repository.ReadBlock | src/Repository.php:142-161 | the rebuild through the setters returns BlockRead |
| Repositories.Repository.GetLastBlock | src/Repository.php:127-162 | the max loop and the read return ChainTip |
| Repositories.Repository.AddBlock | src/Repository.php:164-208 | the chain becomes ChainAdd and the pool PoolPrune of the block |
| Repositories.Repository.DeleteTransactionsFromPool | src/Repository.php:205-207 | the loop removes exactly the listed ids; the chain is untouched |
| RepositoryProofs.AddThenRead | src/Repository.php:27-87 | a valid, well-formed transaction added under a fresh id reads back unchanged |
| RepositoryProofs.AddKeepsSound | src/Repository.php:27-87 | adding a transaction that is well formed whenever valid keeps every pooled row readable |
| RepositoryProofs.DeleteKeepsSound | src/Repository.php:113-123 | deleting any ids keeps every remaining row readable |
| RepositoryProofs.PruneKeepsSound | src/Repository.php:205-207 | addBlock's pruning keeps the pool readable |
| RepositoryProofs.PoolReadOutcome | src/Repository.php:53-87 | a pooled row rebuilds to its transaction and reads back as IdMismatch when the stored id is not the one its fields call for, otherwise as InvalidTransaction when its signature does not verify, otherwise as that transaction |
| RepositoryProofs.BlockReadOutcome | src/Repository.php:142-161 | a block's row, its transactions valid and well-formed, reads back as HashMismatch when the stored hash is not the one its fields call for, otherwise as InvalidBlock when the miner's signature does not verify, otherwise as that block |
| RepositoryProofs.StaleHashPoisonsChain | src/Repository.php:153-155 | a valid block signed over a stale hash is stored by addBlock, and its row then fails to read with HashMismatch, so the chain is no longer sound |
| RepositoryProofs.StaleIdPoisonsPool | src/Repository.php:38-40 | a valid transaction signed over a stale id is pooled, and its row then fails to read with IdMismatch |
| RepositoryProofs.BlockReadBack | src/Repository.php:142-203 | the row addBlock writes for a valid, well-formed block reads back as that block |
| RepositoryProofs.ChainAddKeepsSound | src/Repository.php:127-203 | adding a block that is well formed whenever valid keeps every stored block readable |
| RepositoryProofs.AddAboveTipBecomesTip | src/Repository.php:127-203 | a valid, well-formed block stored above every height is the next tip |
| Mining.AcceptsMeansLeadingZeros | mine.php:8-21 | a hash is accepted exactly when it has at least `difficulty` characters and they are all '0' |
| Mining.Candidate | mine.php:15-19 | a genesis block on an empty chain, otherwise a successor of the tip: the given nonce, transactions and time, valid, correctly linked |
| Mining.CandidateSucceeds | mine.php:15-19 | with a matching key pair, valid transactions, a non-zero clock and a sound tip, the candidate is built |
| Mining.SampleValid | src/Repository.php:89-111 | every transaction the pool hands the miner is valid |
| Mining.StepCannotHalt | mine.php:10-19 | with a matching key pair, a non-zero clock, a sound pool and a sound chain of non-negative heights, no read and no construction of a pass fails |
| Mining.BuildCandidate | mine.php:12-19 | the tip and pool are re-read and the candidate built on them; a failure is the tip's, a pooled row's or the construction's error |
| Mining.MineStep | mine.php:10-27 | the nonce is bumped first, so the candidate carries nonce+1; it is stored exactly when accepted, and then the nonce resets to 0; a rejected or failed pass stores nothing and leaves nonce+1 |
| Mining.Mine | mine.php:7-28 | from nonce 0, passes never change a stored block, every block they add has an accepted hash, and every kept candidate has nonce at least 1 |

## Left out

- Cryptography, base64 and JSON are not implemented. They are the parameters in `Env`, and only the laws listed above are assumed of them.
- `floatval` and `%1.5F` on real floating point are not modelled. Amounts are fixed-point numbers with five fractional digits, so rounding and the float parsing of fractional strings are not captured.
- Values.IntVal, Values.StrVal, Values.Elements: the coercions are exact only on the values the ledger itself writes. On crafted input they differ from PHP:
  - `intval` of a string also accepts leading whitespace, a "+" sign and exponent forms (`intval("1e3")` is 1000). `LeadingInt` reads only an optional "-" and digits.
  - `strval` of a float prints the shortest form (`strval(1.5)` is "1.5"). `StrVal` of an amount prints the five fixed decimals.
  - A PHP array cannot hold two entries with the same key. `Elements` of an associative value visits every entry, duplicates included, while `Get` finds the last one.
- PHP string-offset indexing is not modelled. When `json_decode` yields a string rather than an array, every lookup in the model reads as null.
- PHP's lenient base64 decoding of malformed input is not modelled. Only the stated laws constrain `base64Decode`.
- Blocks.TransactionsText: a list holding an invalid transaction makes it fail with UnencodableTransaction. The same holds for `Block.GetTransactionsAsString` and for everything built on it: `GeneratedHash`, `Signed`, `Genesis` and `Successor`.
  - Only `isValid`, `__toString` and `Repository::addBlock` check validity first. `generateHash` and `sign` call `getTransactionsAsString` unchecked, and `createGenesis` and `create` call both of those before `isValid`.
  - In PHP, `strval` of the `false` that `__toString` returns is refused at the cast, not at the `=== false` test. Depending on the PHP version, the runtime either raises an error or turns the value into "".
  - The model follows the first behaviour. Under the second, the block is hashed and signed over a list holding "", and `createGenesis` or `create` then throws "Block is not valid" (InvalidBlock) instead. Either way no block is produced, but the error differs.
- SQLite is not modelled: connections, prepared statements, the singleton, and column type affinity. The tables are maps and a row holds exactly the bound values. Storage rounding of the amount column is therefore not captured.
- The blocks table's key is not defined in the source shown. The chain is keyed by height, so insert-or-ignore skips a block whose height is taken.
- Repositories.BlockRead: a stored null nonce reads back as 0, as `setNonce(intval(null))` gives. Rows written by `AddBlock` for a valid block always carry a nonce, so the difference does not arise there.
- Mining.Mine: the `while (1)` loop is bounded by the number of clock readings it is given. Termination and "eventually finds a nonce" depend on the hash function and are not modelled.
- `time()` is the parameter `now`, one reading per pass.
- Values.IntVal, Blocks.Successor, Mining.MineStep: integers are unbounded. PHP's are 64-bit:
  - `intval` of a numeric string saturates at PHP_INT_MAX and PHP_INT_MIN;
  - `$prevBlock->getHeight() + 1` and `$nonce++` turn into floats past PHP_INT_MAX.

  These boundary cases are not captured. The overflow of the height and the nonce arises only after 2^63 blocks or 2^63 passes without a mined block. Saturation of `intval` can arise sooner, from a crafted document or row: `createFromString` and both store reads apply `intval` to decoded or stored values. A text with `"time": "99999999999999999999"` gives PHP_INT_MAX in PHP, but the model keeps the value.
- The key files, the banner printed on success, the "send to others" broadcast, and concurrency between clients and the miner are not modelled.
- Plain getters that only return a field are not modelled as separate members: `getId`, `getTo`, `getAmount`, `getHeight`, `getHash` and the others. The getters that decode base64 are kept: `getFrom`, `getPubKey` and `getSignature`.
- client.php (key generation, wallet commands) is not part of this model.
