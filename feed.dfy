/** The transaction feed store (src/features/feed/feedSlice.ts): a map from
    transaction hash to transaction, the time and block of the last fetch,
    the hash the user has opened, and a display toggle. */
module Feed {
  import opened Common
  import opened TxTypes

  /** `TransactionMap`: hash -> transaction. */
  type TransactionMap = map<string, CeloTransaction>

  /** The fields `feedPersistConfig` whitelists for persistence. */
  datatype PersistedFeed = PersistedFeed(
    transactions: TransactionMap,
    lastUpdatedTime: Option<int>,
    lastBlockNumber: Option<int>)

  /** The merge `{ ...transactions, ...txs }`: every old key stays and an
      incoming entry wins on an equal hash. */
  function MergeTransactions(existing: TransactionMap, incoming: TransactionMap): (r: TransactionMap)
    ensures r.Keys == existing.Keys + incoming.Keys
    ensures forall h :: h in incoming ==> r[h] == incoming[h]
    ensures forall h :: h in existing && h !in incoming ==> r[h] == existing[h]
  {
    existing + incoming
  }

  /** A placeholder goes in under its own hash only when that hash is absent;
      an existing entry is never overwritten. */
  function InsertPlaceholder(existing: TransactionMap, tx: CeloTransaction): (r: TransactionMap)
    ensures tx.hash in existing ==> r == existing
    ensures tx.hash !in existing ==> r.Keys == existing.Keys + {tx.hash} && r[tx.hash] == tx
    ensures forall h :: h in existing ==> h in r && r[h] == existing[h]
  {
    if tx.hash in existing then existing else existing[tx.hash := tx]
  }

  /** The selection `openTransaction` makes: the requested hash when it is
      truthy (non-empty) and a key of the map, and null otherwise. */
  function Selection(transactions: TransactionMap, requested: Option<string>): (r: Option<string>)
    ensures r.Some? <==> requested.Some? && requested.value != "" && requested.value in transactions
    ensures r.Some? ==> r == requested
  {
    if requested.Some? && requested.value != "" && requested.value in transactions then requested else None
  }

  lemma InsertPlaceholderIdempotent(m: TransactionMap, tx: CeloTransaction)
    ensures InsertPlaceholder(InsertPlaceholder(m, tx), tx) == InsertPlaceholder(m, tx)
  {
  }

  /** Confirmed data supersedes a placeholder with the same hash, whichever
      arrives first, and leaves a single entry for that hash. */
  lemma ConfirmedSupersedesPlaceholder(m: TransactionMap, placeholder: CeloTransaction, confirmed: TransactionMap)
    requires placeholder.hash in confirmed
    ensures MergeTransactions(InsertPlaceholder(m, placeholder), confirmed)[placeholder.hash] == confirmed[placeholder.hash]
    ensures InsertPlaceholder(MergeTransactions(m, confirmed), placeholder) == MergeTransactions(m, confirmed)
    ensures MergeTransactions(InsertPlaceholder(m, placeholder), confirmed).Keys == m.Keys + confirmed.Keys
  {
  }

  /** Merging entries under distinct hashes does not depend on their order. */
  lemma MergeDisjointCommutes(m: TransactionMap, a: TransactionMap, b: TransactionMap)
    requires a.Keys !! b.Keys
    ensures MergeTransactions(MergeTransactions(m, a), b) == MergeTransactions(MergeTransactions(m, b), a)
  {
  }

  /** A selection stays valid when keys are only ever added. */
  lemma SelectionSurvivesGrowth(m: TransactionMap, m': TransactionMap, sel: Option<string>)
    requires m.Keys <= m'.Keys
    requires sel.Some? ==> sel.value in m
    ensures sel.Some? ==> sel.value in m'
  {
  }

  /** The slice state. Reducers assign the fields of the state in place;
      `Valid` is the invariant every reducer keeps: the open selection is
      null or a key of `transactions`. */
  class TransactionFeed {
    var transactions: TransactionMap
    var lastUpdatedTime: Option<int>
    var lastBlockNumber: Option<int>
    var openTransaction: Option<string>
    var showAdvancedDetails: bool

    ghost predicate Valid()
      reads this
    {
      openTransaction.Some? ==> openTransaction.value in transactions
    }

    /** The state equals `feedInitialState`. */
    ghost predicate IsInitial()
      reads this
    {
      && transactions == map[]
      && lastUpdatedTime == None
      && lastBlockNumber == None
      && openTransaction == None
      && !showAdvancedDetails
    }

    /** What redux-persist writes out. */
    function Persisted(): PersistedFeed
      reads this
    {
      PersistedFeed(transactions, lastUpdatedTime, lastBlockNumber)
    }

    /** `feedInitialState`. */
    constructor ()
      ensures Valid() && IsInitial()
    {
      transactions := map[];
      lastUpdatedTime := None;
      lastBlockNumber := None;
      openTransaction := None;
      showAdvancedDetails := false;
    }

    /** Rehydration: the whitelisted fields come back from storage over the
        initial state; the selection and the toggle start afresh. */
    constructor Rehydrate(p: PersistedFeed)
      ensures Valid() && Persisted() == p
      ensures openTransaction == None && !showAdvancedDetails
    {
      transactions := p.transactions;
      lastUpdatedTime := p.lastUpdatedTime;
      lastBlockNumber := p.lastBlockNumber;
      openTransaction := None;
      showAdvancedDetails := false;
    }

    /** `addTransactions`: merges the fetched map (when non-empty) and always
        records the fetch time and block. */
    method AddTransactions(txs: TransactionMap, updatedTime: int, blockNumber: int)
      requires Valid()
      modifies this
      ensures Valid()
      ensures transactions == MergeTransactions(old(transactions), txs)
      ensures lastUpdatedTime == Some(updatedTime) && lastBlockNumber == Some(blockNumber)
      ensures openTransaction == old(openTransaction) && showAdvancedDetails == old(showAdvancedDetails)
    {
      if |txs| > 0 {
        transactions := transactions + txs;
      }
      lastUpdatedTime := Some(updatedTime);
      lastBlockNumber := Some(blockNumber);
    }

    /** `addPlaceholderTransaction`. */
    method AddPlaceholderTransaction(newTx: CeloTransaction)
      requires Valid()
      modifies this
      ensures Valid()
      ensures transactions == InsertPlaceholder(old(transactions), newTx)
      ensures lastUpdatedTime == old(lastUpdatedTime) && lastBlockNumber == old(lastBlockNumber)
      ensures openTransaction == old(openTransaction) && showAdvancedDetails == old(showAdvancedDetails)
    {
      if newTx.hash !in transactions {
        transactions := transactions[newTx.hash := newTx];
      }
    }

    /** `openTransaction`: selects a known hash, or clears the selection. */
    method OpenTransaction(hash: Option<string>)
      requires Valid()
      modifies this`openTransaction
      ensures Valid()
      ensures openTransaction == Selection(transactions, hash)
      ensures Persisted() == old(Persisted())
    {
      if hash.Some? && hash.value != "" && hash.value in transactions {
        openTransaction := hash;
      } else {
        openTransaction := None;
      }
    }

    /** `toggleAdvancedDetails`: flips the flag and nothing else. */
    method ToggleAdvancedDetails()
      requires Valid()
      modifies this`showAdvancedDetails
      ensures Valid()
      ensures showAdvancedDetails == !old(showAdvancedDetails)
      ensures Persisted() == old(Persisted())
    {
      showAdvancedDetails := !showAdvancedDetails;
    }

    /** `resetFeed`: back to `feedInitialState`. */
    method ResetFeed()
      modifies this
      ensures Valid() && IsInitial()
    {
      transactions := map[];
      lastUpdatedTime := None;
      lastBlockNumber := None;
      openTransaction := None;
      showAdvancedDetails := false;
    }
  }

  /** Toggling twice restores the flag, and never touches other fields. */
  method ToggleTwiceIsIdentity(feed: TransactionFeed)
    requires feed.Valid()
    modifies feed
    ensures feed.showAdvancedDetails == old(feed.showAdvancedDetails)
    ensures feed.Persisted() == old(feed.Persisted()) && feed.openTransaction == old(feed.openTransaction)
  {
    feed.ToggleAdvancedDetails();
    feed.ToggleAdvancedDetails();
  }

  /** A placeholder dispatched twice leaves the same map as dispatched once. */
  method PlaceholderTwiceIsOnce(feed: TransactionFeed, tx: CeloTransaction)
    requires feed.Valid()
    modifies feed
    ensures feed.transactions == InsertPlaceholder(old(feed.transactions), tx)
  {
    feed.AddPlaceholderTransaction(tx);
    feed.AddPlaceholderTransaction(tx);
    InsertPlaceholderIdempotent(old(feed.transactions), tx);
  }
}
