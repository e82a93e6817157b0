/** The `sales` table: one row per transaction, never rewritten. Two transactions of the projection
    insert into it. */
module Sales {

  datatype Sale = Sale(collection: string, tokenId: nat, seller: string, buyer: string,
                       priceWei: nat, feeWei: nat, royaltyWei: nat, blockNumber: nat, occurredAt: int)

  /** Keyed by `tx_hash`, which is UNIQUE. */
  type Table = map<string, Sale>

  /** INSERT ... ON CONFLICT(tx_hash) DO NOTHING. */
  function Record(t: Table, txHash: string, s: Sale): (t': Table)
    ensures forall h :: h in t ==> h in t' && t'[h] == t[h]
    ensures t'.Keys == t.Keys + {txHash}
    ensures txHash !in t ==> t'[txHash] == s
  {
    if txHash in t then t else t[txHash := s]
  }
}
