/** Transaction confirmations as zcncore/transaction_base.go parses and checks them. JSON decoding,
    Merkle paths and hashing are parameters of the model, collected in `World`. */
module Confirmations {
  import opened Support
  import opened BlockChain

  datatype Txn = Txn(
    hash: string,
    clientId: string,
    creationDate: int,
    nonce: int,
    status: int,
    output: string)

  datatype MTPath = MTPath(nodes: seq<string>, leafIndex: int)

  datatype Confirmation = Confirmation(
    blockHash: string,
    previousBlockHash: string,
    transaction: Option<Txn>,
    creationDate: int64,
    minerId: string,
    round: int64,
    roundRandomSeed: int64,
    stateChangesCount: int64,
    merkleTreeRoot: string,
    merkleTreePath: Option<MTPath>,
    receiptMerkleTreeRoot: string,
    receiptMerkleTreePath: Option<MTPath>)

  /** A decoded JSON object whose members are still raw text. */
  type RawObject = map<string, string>

  datatype World = World(
    hash: HashFunction,
    verifyMerklePath: (string, Option<MTPath>, string) -> bool,
    receiptHash: Txn -> string,
    parseObject: string -> Option<RawObject>,
    parseConfirmation: string -> Option<Confirmation>,
    parseHeader: string -> Option<BlockHeader>,
    parseTxn: string -> Option<Txn>,
    marshal: RawObject -> Option<string>)

  datatype ConfirmationError =
    | NotFound | ParseError | MissingTransaction | WrongTransaction
    | TxnMerkleFailed | ReceiptMerkleFailed | BlockHashFailed

  datatype Checked = Ok(header: BlockHeader) | Err(error: ConfirmationError)

  function HeaderOf(cfm: Confirmation): BlockHeader {
    BlockHeader("", cfm.creationDate, cfm.blockHash, cfm.minerId, cfm.round, cfm.roundRandomSeed,
                cfm.stateChangesCount, cfm.merkleTreeRoot, "", cfm.receiptMerkleTreeRoot, 0)
  }

  /** getBlockHeaderFromTransactionConfirmation. */
  function GetBlockHeader(w: World, txnHash: string, cfmBlock: RawObject): Checked {
    if "confirmation" !in cfmBlock then Err(NotFound)
    else match w.parseConfirmation(cfmBlock["confirmation"])
      case None => Err(ParseError)
      case Some(cfm) =>
        if cfm.transaction.None? then Err(MissingTransaction)
        else if txnHash != cfm.transaction.value.hash then Err(WrongTransaction)
        else if !w.verifyMerklePath(cfm.transaction.value.hash, cfm.merkleTreePath, cfm.merkleTreeRoot) then
          Err(TxnMerkleFailed)
        else if !w.verifyMerklePath(w.receiptHash(cfm.transaction.value),
                                   cfm.receiptMerkleTreePath, cfm.receiptMerkleTreeRoot) then
          Err(ReceiptMerkleFailed)
        else if IsBlockExtends(w.hash, cfm.previousBlockHash, HeaderOf(cfm)) then Ok(HeaderOf(cfm))
        else Err(BlockHashFailed)
  }

  /** What a confirmation has to prove: it is for this transaction, both Merkle paths lead to the roots
      of the header, and the header hashes to its own block hash over the claimed predecessor. */
  ghost predicate Proves(w: World, txnHash: string, cfm: Confirmation, header: BlockHeader) {
    && cfm.transaction.Some? && cfm.transaction.value.hash == txnHash
    && w.verifyMerklePath(txnHash, cfm.merkleTreePath, header.merkleTreeRoot)
    && w.verifyMerklePath(w.receiptHash(cfm.transaction.value), cfm.receiptMerkleTreePath, header.receiptMerkleTreeRoot)
    && header.hash == cfm.blockHash && header.minerId == cfm.minerId
    && header.creationDate == cfm.creationDate && header.round == cfm.round
    && header.roundRandomSeed == cfm.roundRandomSeed && header.stateChangesCount == cfm.stateChangesCount
    && header.merkleTreeRoot == cfm.merkleTreeRoot && header.receiptMerkleTreeRoot == cfm.receiptMerkleTreeRoot
    && header.version == header.stateHash == "" && header.numTxns == 0
    && header.hash == w.hash(HashInput(cfm.previousBlockHash, header))
  }

  /** A header is handed out exactly for confirmations that prove the requested transaction. */
  lemma CheckedMeansProved(w: World, txnHash: string, cfmBlock: RawObject, header: BlockHeader)
    ensures GetBlockHeader(w, txnHash, cfmBlock) == Ok(header)
       <==> "confirmation" in cfmBlock
            && w.parseConfirmation(cfmBlock["confirmation"]).Some?
            && Proves(w, txnHash, w.parseConfirmation(cfmBlock["confirmation"]).value, header)
  {
  }

  function Parsed(w: World, cfmBlock: RawObject): Option<Confirmation> {
    if "confirmation" in cfmBlock then w.parseConfirmation(cfmBlock["confirmation"]) else None
  }

  /** Votes for one block hash are votes for one block: two confirmations that are accepted with the same
      block hash, for whatever transactions, agree on the predecessor and on the whole header, if their
      miner ids are not confusable, their previous hashes and Merkle roots hold no colon, and their two
      hash texts are not a collision. */
  lemma SameHashSameBlock(w: World, hash1: string, block1: RawObject, x: BlockHeader,
                          hash2: string, block2: RawObject, y: BlockHeader)
    requires GetBlockHeader(w, hash1, block1) == Ok(x) && GetBlockHeader(w, hash2, block2) == Ok(y)
    requires x.hash == y.hash && IdsApart(x.minerId, y.minerId)
    requires var p, q := Parsed(w, block1).value.previousBlockHash, Parsed(w, block2).value.previousBlockHash;
             && ':' !in p && ':' !in q
             && (HashInput(p, x) != HashInput(q, y) ==> w.hash(HashInput(p, x)) != w.hash(HashInput(q, y)))
    requires ':' !in x.merkleTreeRoot && ':' !in y.merkleTreeRoot
    ensures x == y
    ensures Parsed(w, block1).value.previousBlockHash == Parsed(w, block2).value.previousBlockHash
  {
    CheckedMeansProved(w, hash1, block1, x);
    CheckedMeansProved(w, hash2, block2, y);
    HashInputDetermines(Parsed(w, block1).value.previousBlockHash, x, Parsed(w, block2).value.previousBlockHash, y);
  }
}
