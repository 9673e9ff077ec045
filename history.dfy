/**
 * The history merges: each update converts the records the account API
 * delivered and, when history is kept, merges them with what the owner already
 * holds. New records override earlier ones under the same key, and nothing else
 * changes. Each merge is a method with the loops of the converter, proved equal
 * to a function whose properties are proved beside it.
 */
module History {
  import opened Wrappers
  import opened DomainRecords

  /** The keys of the records in `xs`. */
  function KeysOf<T>(xs: seq<T>, key: T -> int): set<int>
  {
    set j | 0 <= j < |xs| :: key(xs[j])
  }

  /** `xs[j]` is the first record in `xs` with its key. */
  predicate FirstOfKey<T>(xs: seq<T>, j: nat, key: T -> int)
    requires j < |xs|
  {
    forall i :: 0 <= i < j ==> key(xs[i]) != key(xs[j])
  }

  /** Adding the records `xs`, in order, to a set keyed by `key`: a record whose
      key is already present is dropped, as a HashSet's add does. */
  function Added<T>(m: map<int, T>, xs: seq<T>, key: T -> int): map<int, T>
  {
    if xs == [] then m
    else
      var r := Added(m, xs[..|xs| - 1], key);
      var x := xs[|xs| - 1];
      if key(x) in r then r else r[key(x) := x]
  }

  lemma {:induction false} KeysOfAppend<T>(xs: seq<T>, key: T -> int)
    requires xs != []
    ensures KeysOf(xs, key) == KeysOf(xs[..|xs| - 1], key) + {key(xs[|xs| - 1])}
  {
    var front := xs[..|xs| - 1];
    forall y ensures y in KeysOf(xs, key) <==> y in KeysOf(front, key) + {key(xs[|xs| - 1])} {
      if y in KeysOf(xs, key) {
        var j :| 0 <= j < |xs| && key(xs[j]) == y;
        if j < |front| {
          assert key(front[j]) == y;
        }
      }
      if y in KeysOf(front, key) {
        var j :| 0 <= j < |front| && key(front[j]) == y;
        assert key(xs[j]) == y;
      }
    }
  }

  /** Adding keeps every record already present and adds exactly the new keys. */
  lemma {:induction false} AddedKeeps<T>(m: map<int, T>, xs: seq<T>, key: T -> int)
    ensures Added(m, xs, key).Keys == m.Keys + KeysOf(xs, key)
    ensures forall k :: k in m ==> Added(m, xs, key)[k] == m[k]
  {
    if xs != [] {
      AddedKeeps(m, xs[..|xs| - 1], key);
      KeysOfAppend(xs, key);
    }
  }

  /** A new key gets the first record that has it. */
  lemma {:induction false} AddedFirst<T>(m: map<int, T>, xs: seq<T>, key: T -> int, j: nat)
    requires j < |xs| && key(xs[j]) !in m && FirstOfKey(xs, j, key)
    ensures key(xs[j]) in Added(m, xs, key)
    ensures Added(m, xs, key)[key(xs[j])] == xs[j]
    decreases |xs|
  {
    var front, x := xs[..|xs| - 1], xs[|xs| - 1];
    AddedKeeps(m, front, key);
    if j < |front| {
      assert front[j] == xs[j];
      assert FirstOfKey(front, j, key);
      AddedFirst(m, front, key, j);
    } else {
      assert key(x) !in KeysOf(front, key);
    }
  }

  /** Some element of a non-empty set of keys: the next one a set's iteration visits. */
  method AnyKey(keys: set<int>) returns (k: int)
    requires keys != {}
    ensures k in keys
  {
    if forall x :: x !in keys {
      NoKeysIsEmpty(keys);
    }
    k :| k in keys;
  }

  lemma NoKeysIsEmpty(keys: set<int>)
    requires forall x :: x !in keys
    ensures keys == {}
  {
    var none: set<int> := {};
    forall x ensures x in keys <==> x in none {
    }
  }

  /** Adds the records of `earlier` whose keys are not present yet, as a HashSet's
      addAll does; the result is `earlier` overridden by `r`. */
  method AddAllAbsent<T>(r: map<int, T>, earlier: map<int, T>) returns (merged: map<int, T>)
    ensures merged == earlier + r
  {
    merged := r;
    var rest: set<int> := earlier.Keys;
    while rest != {}
      invariant rest <= earlier.Keys
      invariant merged == (map k | k in earlier.Keys - rest :: earlier[k]) + r
      decreases rest
    {
      var k := AnyKey(rest);
      if k !in merged {
        merged := merged[k := earlier[k]];
      }
      rest := rest - {k};
    }
    assert earlier.Keys - rest == earlier.Keys;
  }

  /** The merge of newly converted records with the earlier ones: the new records
      added in order (the first under each key taken), then, when history is kept,
      the earlier records under keys still absent. */
  function Merged<T>(earlier: map<int, T>, news: seq<T>, key: T -> int, saveHistory: bool): map<int, T>
  {
    if saveHistory then earlier + Added(map[], news, key) else Added(map[], news, key)
  }

  /** New records override earlier ones and nothing else changes: the keys are those
      of the new records, plus the earlier ones when history is kept; a new key holds
      its first new record; an earlier key no new record has keeps its earlier record. */
  lemma MergedSpec<T>(earlier: map<int, T>, news: seq<T>, key: T -> int, saveHistory: bool)
    ensures Merged(earlier, news, key, saveHistory).Keys == KeysOf(news, key) + (if saveHistory then earlier.Keys else {})
    ensures forall j :: 0 <= j < |news| && FirstOfKey(news, j, key) ==> Merged(earlier, news, key, saveHistory)[key(news[j])] == news[j]
    ensures saveHistory ==> forall k :: k in earlier && k !in KeysOf(news, key) ==> Merged(earlier, news, key, saveHistory)[k] == earlier[k]
  {
    AddedKeeps(map[], news, key);
    forall j | 0 <= j < |news| && FirstOfKey(news, j, key)
      ensures Added(map[], news, key)[key(news[j])] == news[j]
    {
      AddedFirst(map[], news, key, j);
    }
  }

  // Journal entries and transactions

  /** The journal after an update. */
  function Journals(rawJournals: seq<RawJournal>, owner: Owner, saveHistory: bool): map<int, MyJournal>
  {
    Merged(owner.journal, seq(|rawJournals|, j requires 0 <= j < |rawJournals| => MyJournal(rawJournals[j], owner.ownerID)),
           JournalKey, saveHistory)
  }

  method ConvertRawJournals(rawJournals: seq<RawJournal>, owner: Owner, saveHistory: bool) returns (journals: map<int, MyJournal>)
    ensures journals == Journals(rawJournals, owner, saveHistory)
  {
    ghost var news := seq(|rawJournals|, j requires 0 <= j < |rawJournals| => MyJournal(rawJournals[j], owner.ownerID));
    journals := map[];
    for k := 0 to |rawJournals|
      invariant journals == Added(map[], news[..k], JournalKey)
    {
      var journal := MyJournal(rawJournals[k], owner.ownerID);
      assert news[..k + 1][..k] == news[..k] && news[k] == journal;
      if journal.raw.refID !in journals {
        journals := journals[journal.raw.refID := journal];
      }
    }
    assert news[..|rawJournals|] == news;
    if saveHistory {
      journals := AddAllAbsent(journals, owner.journal);
    }
  }

  /** The transactions after an update. */
  function Transactions(rawTransactions: seq<RawTransaction>, owner: Owner, saveHistory: bool): map<int, MyTransaction>
  {
    Merged(owner.transactions,
           seq(|rawTransactions|, j requires 0 <= j < |rawTransactions| => MyTransaction(rawTransactions[j], owner.ownerID)),
           TransactionKey, saveHistory)
  }

  method ConvertRawTransactions(rawTransactions: seq<RawTransaction>, owner: Owner, saveHistory: bool)
    returns (transactions: map<int, MyTransaction>)
    ensures transactions == Transactions(rawTransactions, owner, saveHistory)
  {
    ghost var news := seq(|rawTransactions|, j requires 0 <= j < |rawTransactions| => MyTransaction(rawTransactions[j], owner.ownerID));
    transactions := map[];
    for k := 0 to |rawTransactions|
      invariant transactions == Added(map[], news[..k], TransactionKey)
    {
      var transaction := MyTransaction(rawTransactions[k], owner.ownerID);
      assert news[..k + 1][..k] == news[..k] && news[k] == transaction;
      if transaction.raw.transactionID !in transactions {
        transactions := transactions[transaction.raw.transactionID := transaction];
      }
    }
    assert news[..|rawTransactions|] == news;
    if saveHistory {
      transactions := AddAllAbsent(transactions, owner.transactions);
    }
  }

  /** Two lists whose records have the same keys position by position have the
      same key set and the same first records per key. */
  lemma SameKeys<A, B>(xs: seq<A>, kx: A -> int, ys: seq<B>, ky: B -> int)
    requires |xs| == |ys| && forall j :: 0 <= j < |xs| ==> kx(xs[j]) == ky(ys[j])
    ensures KeysOf(xs, kx) == KeysOf(ys, ky)
    ensures forall j :: 0 <= j < |xs| ==> (FirstOfKey(xs, j, kx) <==> FirstOfKey(ys, j, ky))
  {
    forall y ensures y in KeysOf(xs, kx) <==> y in KeysOf(ys, ky) {
      if y in KeysOf(xs, kx) {
        var j :| 0 <= j < |xs| && kx(xs[j]) == y;
        assert ky(ys[j]) == y;
      }
      if y in KeysOf(ys, ky) {
        var j :| 0 <= j < |ys| && ky(ys[j]) == y;
        assert kx(xs[j]) == y;
      }
    }
  }

  /** The journal after an update: one entry per delivered reference ID, the
      first delivered one, belonging to the owner; when history is kept, every
      earlier entry whose ID is not delivered again; without history nothing else. */
  lemma JournalsSpec(rawJournals: seq<RawJournal>, owner: Owner, saveHistory: bool)
    ensures Journals(rawJournals, owner, saveHistory).Keys
              == KeysOf(rawJournals, RawJournalKey) + (if saveHistory then owner.journal.Keys else {})
    ensures forall j :: 0 <= j < |rawJournals| && FirstOfKey(rawJournals, j, RawJournalKey) ==>
              Journals(rawJournals, owner, saveHistory)[rawJournals[j].refID] == MyJournal(rawJournals[j], owner.ownerID)
    ensures saveHistory ==> forall k :: k in owner.journal && k !in KeysOf(rawJournals, RawJournalKey) ==>
              Journals(rawJournals, owner, saveHistory)[k] == owner.journal[k]
  {
    var news := seq(|rawJournals|, j requires 0 <= j < |rawJournals| => MyJournal(rawJournals[j], owner.ownerID));
    MergedSpec(owner.journal, news, JournalKey, saveHistory);
    SameKeys(rawJournals, RawJournalKey, news, JournalKey);
  }

  /** The transactions after an update, as JournalsSpec says for the journal. */
  lemma TransactionsSpec(rawTransactions: seq<RawTransaction>, owner: Owner, saveHistory: bool)
    ensures Transactions(rawTransactions, owner, saveHistory).Keys
              == KeysOf(rawTransactions, RawTransactionKey) + (if saveHistory then owner.transactions.Keys else {})
    ensures forall j :: 0 <= j < |rawTransactions| && FirstOfKey(rawTransactions, j, RawTransactionKey) ==>
              Transactions(rawTransactions, owner, saveHistory)[rawTransactions[j].transactionID]
                == MyTransaction(rawTransactions[j], owner.ownerID)
    ensures saveHistory ==> forall k :: k in owner.transactions && k !in KeysOf(rawTransactions, RawTransactionKey) ==>
              Transactions(rawTransactions, owner, saveHistory)[k] == owner.transactions[k]
  {
    var news := seq(|rawTransactions|, j requires 0 <= j < |rawTransactions| => MyTransaction(rawTransactions[j], owner.ownerID));
    MergedSpec(owner.transactions, news, TransactionKey, saveHistory);
    SameKeys(rawTransactions, RawTransactionKey, news, TransactionKey);
  }

  // Market orders

  /** Every order of the owner stored under its own order ID. */
  predicate OrdersKeyed(orders: map<int, MyMarketOrder>)
  {
    forall k :: k in orders ==> orders[k].orderID == k
  }

  /** The price changes collected so far, by order ID. */
  function ChangesOf(orders: map<int, MyMarketOrder>): map<int, set<int>>
  {
    map k | k in orders :: orders[k].changes
  }

  function Lookup(changed: map<int, set<int>>, orderID: int): (r: Option<set<int>>)
    ensures r.Some? <==> orderID in changed
    ensures r.Some? ==> r.value == changed[orderID]
  {
    if orderID in changed then Some(changed[orderID]) else None
  }

  /** The delivered orders, converted, each with the changes collected for its
      order ID before. */
  function NewOrders(rawMarketOrders: seq<RawMarketOrder>, owner: Owner): seq<MyMarketOrder>
  {
    seq(|rawMarketOrders|, j requires 0 <= j < |rawMarketOrders| =>
          AddChanges(ToMyMarketOrder(rawMarketOrders[j], owner.ownerID), Lookup(ChangesOf(owner.marketOrders), rawMarketOrders[j].orderID)))
  }

  function ClosedAll(orders: map<int, MyMarketOrder>): map<int, MyMarketOrder>
  {
    map k | k in orders :: Close(orders[k])
  }

  /** The market orders after an update: the delivered orders with their earlier
      changes, then, when history is kept, the earlier orders, closed, under order
      IDs still absent. */
  function MarketOrders(rawMarketOrders: seq<RawMarketOrder>, owner: Owner, saveHistory: bool): map<int, MyMarketOrder>
  {
    Merged(ClosedAll(owner.marketOrders), NewOrders(rawMarketOrders, owner), OrderKey, saveHistory)
  }

  /** The orders after an update: one per delivered order ID, taken from its first
      delivered order and carrying that order's changes together with those
      collected before; when history is kept, every earlier order no delivered
      order replaces, closed; without history nothing else. */
  lemma MarketOrdersSpec(rawMarketOrders: seq<RawMarketOrder>, owner: Owner, saveHistory: bool)
    ensures MarketOrders(rawMarketOrders, owner, saveHistory).Keys
              == KeysOf(rawMarketOrders, RawOrderKey) + (if saveHistory then owner.marketOrders.Keys else {})
    ensures forall j :: 0 <= j < |rawMarketOrders| && FirstOfKey(rawMarketOrders, j, RawOrderKey) ==>
              MarketOrders(rawMarketOrders, owner, saveHistory)[rawMarketOrders[j].orderID]
                == ToMyMarketOrder(rawMarketOrders[j], owner.ownerID).(changes := rawMarketOrders[j].changes + EarlierChanges(owner, rawMarketOrders[j].orderID))
    ensures saveHistory ==> forall k :: k in owner.marketOrders && k !in KeysOf(rawMarketOrders, RawOrderKey) ==>
              MarketOrders(rawMarketOrders, owner, saveHistory)[k] == Close(owner.marketOrders[k])
              && !IsActive(MarketOrders(rawMarketOrders, owner, saveHistory)[k])
  {
    var news := NewOrders(rawMarketOrders, owner);
    MergedSpec(ClosedAll(owner.marketOrders), news, OrderKey, saveHistory);
    SameKeys(rawMarketOrders, RawOrderKey, news, OrderKey);
  }

  /** The changes collected before for an order ID. */
  function EarlierChanges(owner: Owner, orderID: int): set<int>
  {
    if orderID in owner.marketOrders then owner.marketOrders[orderID].changes else {}
  }

  /** The changes of every earlier order, by its order ID. */
  method CollectChanges(earlier: map<int, MyMarketOrder>) returns (changed: map<int, set<int>>)
    requires OrdersKeyed(earlier)
    ensures changed == ChangesOf(earlier)
  {
    changed := map[];
    var rest: set<int> := earlier.Keys;
    while rest != {}
      invariant rest <= earlier.Keys
      invariant changed == map k | k in earlier.Keys - rest :: earlier[k].changes
      decreases rest
    {
      var k := AnyKey(rest);
      var marketOrder := earlier[k];
      changed := changed[marketOrder.orderID := marketOrder.changes];
      rest := rest - {k};
    }
    assert earlier.Keys - rest == earlier.Keys;
  }

  /** Closes every earlier order and adds it under its order ID when absent. */
  method AddClosed(delivered: map<int, MyMarketOrder>, earlier: map<int, MyMarketOrder>) returns (marketOrders: map<int, MyMarketOrder>)
    ensures marketOrders == ClosedAll(earlier) + delivered
  {
    marketOrders := delivered;
    var rest: set<int> := earlier.Keys;
    while rest != {}
      invariant rest <= earlier.Keys
      invariant marketOrders == (map k | k in earlier.Keys - rest :: Close(earlier[k])) + delivered
      decreases rest
    {
      var k := AnyKey(rest);
      var marketOrder := Close(earlier[k]);
      if k !in marketOrders {
        marketOrders := marketOrders[k := marketOrder];
      }
      rest := rest - {k};
    }
    assert earlier.Keys - rest == earlier.Keys;
  }

  method ConvertRawMarketOrders(rawMarketOrders: seq<RawMarketOrder>, owner: Owner, saveHistory: bool)
    returns (marketOrders: map<int, MyMarketOrder>)
    requires OrdersKeyed(owner.marketOrders)
    ensures marketOrders == MarketOrders(rawMarketOrders, owner, saveHistory)
  {
    var changed := CollectChanges(owner.marketOrders);
    ghost var news := NewOrders(rawMarketOrders, owner);
    marketOrders := map[];
    for j := 0 to |rawMarketOrders|
      invariant marketOrders == Added(map[], news[..j], OrderKey)
    {
      var marketOrder := ToMyMarketOrder(rawMarketOrders[j], owner.ownerID);
      marketOrder := AddChanges(marketOrder, if marketOrder.orderID in changed then Some(changed[marketOrder.orderID]) else None);
      assert news[..j + 1][..j] == news[..j] && news[j] == marketOrder;
      if marketOrder.orderID !in marketOrders {
        marketOrders := marketOrders[marketOrder.orderID := marketOrder];
      }
    }
    assert news[..|rawMarketOrders|] == news;
    if saveHistory {
      marketOrders := AddClosed(marketOrders, owner.marketOrders);
    }
  }

  // Contracts

  /** The items of a contract, each pointing to the contract `c`. */
  function Repointed(items: seq<MyContractItem>, c: MyContract): (r: seq<MyContractItem>)
    ensures |r| == |items|
    ensures forall i :: 0 <= i < |r| ==> r[i].raw == items[i].raw && r[i].contract == c
  {
    seq(|items|, i requires 0 <= i < |items| => items[i].(contract := c))
  }

  /** The items the owner already knows for the contract's key, pointing to the
      new contract object, or none for a contract not seen before. */
  function KnownItems(owner: Owner, c: MyContract): seq<MyContractItem>
  {
    if ContractKey(c) in owner.contracts then Repointed(owner.contracts[ContractKey(c)].items, c) else []
  }

  /** The contract map after an update: the owner's map when history is kept
      (empty otherwise), then each delivered contract stored under its key with
      its known items, replacing whatever was there. */
  function ContractsAfter(rawContracts: seq<RawContract>, owner: Owner, saveHistory: bool): map<int, ContractEntry>
  {
    if rawContracts == [] then (if saveHistory then owner.contracts else map[])
    else
      var c := MyContract(rawContracts[|rawContracts| - 1]);
      ContractsAfter(rawContracts[..|rawContracts| - 1], owner, saveHistory)[ContractKey(c) := ContractEntry(c, KnownItems(owner, c))]
  }

  /** `rs[j]` is the last delivered contract with its ID. */
  predicate LastOfId(rs: seq<RawContract>, j: nat)
    requires j < |rs|
  {
    forall i :: j < i < |rs| ==> rs[i].contractID != rs[j].contractID
  }

  /** The keys of the contract map after an update: the delivered contract IDs,
      plus the earlier ones when history is kept. */
  lemma {:induction false} ContractsKeys(rawContracts: seq<RawContract>, owner: Owner, saveHistory: bool)
    ensures ContractsAfter(rawContracts, owner, saveHistory).Keys
              == KeysOf(rawContracts, RawContractKey) + (if saveHistory then owner.contracts.Keys else {})
  {
    if rawContracts != [] {
      ContractsKeys(rawContracts[..|rawContracts| - 1], owner, saveHistory);
      KeysOfAppend(rawContracts, RawContractKey);
    }
  }

  /** A delivered contract ID holds its last delivered contract with the items
      known for it, re-pointed to it, or no items when it is new. */
  lemma {:induction false} ContractsLastWins(rawContracts: seq<RawContract>, owner: Owner, saveHistory: bool, j: nat)
    requires j < |rawContracts| && LastOfId(rawContracts, j)
    ensures rawContracts[j].contractID in ContractsAfter(rawContracts, owner, saveHistory)
    ensures ContractsAfter(rawContracts, owner, saveHistory)[rawContracts[j].contractID]
              == ContractEntry(MyContract(rawContracts[j]), KnownItems(owner, MyContract(rawContracts[j])))
    decreases |rawContracts|
  {
    var front := rawContracts[..|rawContracts| - 1];
    if j < |front| {
      assert front[j] == rawContracts[j];
      assert LastOfId(front, j);
      ContractsLastWins(front, owner, saveHistory, j);
    }
  }

  /** With history kept, an earlier contract no delivered one replaces stays as
      it was, items included. */
  lemma {:induction false} ContractsKept(rawContracts: seq<RawContract>, owner: Owner, k: int)
    requires k in owner.contracts && k !in KeysOf(rawContracts, RawContractKey)
    ensures k in ContractsAfter(rawContracts, owner, true)
    ensures ContractsAfter(rawContracts, owner, true)[k] == owner.contracts[k]
  {
    if rawContracts != [] {
      KeysOfAppend(rawContracts, RawContractKey);
      ContractsKept(rawContracts[..|rawContracts| - 1], owner, k);
    }
  }

  method ConvertRawContracts(rawContracts: seq<RawContract>, owner: Owner, saveHistory: bool)
    returns (contracts: map<int, ContractEntry>)
    ensures contracts == ContractsAfter(rawContracts, owner, saveHistory)
  {
    contracts := if saveHistory then owner.contracts else map[];
    for j := 0 to |rawContracts|
      invariant contracts == ContractsAfter(rawContracts[..j], owner, saveHistory)
    {
      assert rawContracts[..j + 1][..j] == rawContracts[..j];
      var myContract := MyContract(rawContracts[j]);
      var contractItems: seq<MyContractItem> := [];
      if myContract.raw.contractID in owner.contracts {
        var known := owner.contracts[myContract.raw.contractID].items;
        for m := 0 to |known|
          invariant contractItems == Repointed(known[..m], myContract)
        {
          contractItems := contractItems + [known[m].(contract := myContract)];
        }
        assert known[..|known|] == known;
      }
      contracts := contracts[myContract.raw.contractID := ContractEntry(myContract, contractItems)];
    }
    assert rawContracts[..|rawContracts|] == rawContracts;
  }

  /** The owner's contract map with the entry of `contract` replaced by the
      delivered items, in order, each pointing to `contract`; every other entry
      is unchanged. */
  method ConvertRawContractItems(contract: MyContract, rawContractItems: seq<RawContractItem>, owner: Owner)
    returns (contracts: map<int, ContractEntry>)
    ensures contracts.Keys == owner.contracts.Keys + {ContractKey(contract)}
    ensures forall k :: k in owner.contracts && k != ContractKey(contract) ==> contracts[k] == owner.contracts[k]
    ensures contracts[ContractKey(contract)].contract == contract
    ensures var items := contracts[ContractKey(contract)].items;
            |items| == |rawContractItems| && forall i :: 0 <= i < |items| ==> items[i] == MyContractItem(rawContractItems[i], contract)
  {
    contracts := owner.contracts;
    var contractItems: seq<MyContractItem> := [];
    for j := 0 to |rawContractItems|
      invariant |contractItems| == j
      invariant forall i :: 0 <= i < j ==> contractItems[i] == MyContractItem(rawContractItems[i], contract)
    {
      contractItems := contractItems + [MyContractItem(rawContractItems[j], contract)];
    }
    contracts := contracts[contract.raw.contractID := ContractEntry(contract, contractItems)];
  }
}
