/** Values shared by the transaction feed and the send flow: the currencies,
    the transaction kinds and the transaction record kept in the feed. The
    repository's own declarations of these (src/currency, src/features/types)
    are not part of this model; only the members the core reads are kept. */
module TxTypes {
  import opened Common

  /** `Currency`: the two tokens the wallet moves; `OtherCurrency` stands for
      any value outside them, which the send flow rejects. */
  datatype Currency = CELO | CUSD | OtherCurrency(code: string)

  /** `TransactionType`: the two token transfers the send flow produces, and
      every other kind of feed entry. */
  datatype TransactionType = CeloTokenTransfer | StableTokenTransfer | OtherTransactionType(name: string)

  /** A feed entry (`CeloTransaction` / `TokenTransfer`), amounts in wei. */
  datatype CeloTransaction = CeloTransaction(
    hash: string,
    txType: TransactionType,
    from: string,
    to: string,
    value: nat,
    currency: Currency,
    isOutgoing: bool,
    comment: Option<string>,
    blockNumber: nat,
    timestamp: int,
    fee: nat)
}
