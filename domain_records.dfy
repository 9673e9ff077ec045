/**
 * The account data the converter merges and projects, besides assets:
 * industry jobs, market orders, contracts with their items, journal entries
 * and transactions, and the owner that holds what an earlier update produced.
 *
 * A HashSet or HashMap of records that the code keys by record equality is a
 * `map` from the record's key (its order, contract, journal or transaction ID)
 * to the record. Fields the converter never looks at are left out; `details`
 * stands for the remaining fields of a journal entry or transaction, which the
 * converter carries over unchanged.
 */
module DomainRecords {
  import opened Wrappers

  /** An industry job: delivered or not, manufacturing or not, and the type
      it produces when there is one. */
  datatype MyIndustryJob = MyIndustryJob(jobID: int, delivered: bool, manufacturing: bool, productTypeID: Option<int>)

  /** The state of a market order. */
  datatype OrderState = Open | Closed | Expired | Cancelled

  /** A market order as the account API delivers it; `changes` are the price
      changes it reports. */
  datatype RawMarketOrder = RawMarketOrder(orderID: int, buyOrder: bool, volumeRemain: int, state: OrderState, changes: set<int>)

  /** A market order of an owner, with the price changes collected so far. */
  datatype MyMarketOrder = MyMarketOrder(orderID: int, ownerID: int, buyOrder: bool, volumeRemain: int,
                                         state: OrderState, changes: set<int>)

  predicate IsActive(o: MyMarketOrder)
  {
    o.state == Open
  }

  function ToMyMarketOrder(raw: RawMarketOrder, ownerID: int): (o: MyMarketOrder)
    ensures o.orderID == raw.orderID && o.ownerID == ownerID && o.changes == raw.changes && o.state == raw.state
  {
    MyMarketOrder(raw.orderID, ownerID, raw.buyOrder, raw.volumeRemain, raw.state, raw.changes)
  }

  /** Closing an order that is still open; any other state stays. */
  function Close(o: MyMarketOrder): (c: MyMarketOrder)
    ensures !IsActive(c)
    ensures c == o.(state := c.state)
    ensures !IsActive(o) ==> c == o
  {
    if o.state == Open then o.(state := Closed) else o
  }

  /** Adding the changes recorded for the same order earlier, when there are any. */
  function AddChanges(o: MyMarketOrder, earlier: Option<set<int>>): (r: MyMarketOrder)
    ensures r == o.(changes := r.changes)
    ensures r.changes == o.changes + (if earlier.Some? then earlier.value else {})
  {
    if earlier.Some? then o.(changes := o.changes + earlier.value) else o
  }

  /** A contract. Contracts are keyed by their contract ID. */
  datatype RawContract = RawContract(contractID: int, issuerID: int, open: bool, itemContract: bool)
  datatype MyContract = MyContract(raw: RawContract)

  function ContractKey(c: MyContract): int
  {
    c.raw.contractID
  }

  function RawContractKey(r: RawContract): int
  {
    r.contractID
  }

  /** One item of a contract; `included` is true when the issuer gives the item
      away (a sale) and false when the issuer asks for it (a purchase). */
  datatype RawContractItem = RawContractItem(recordID: int, typeID: int, quantity: int, included: bool)
  datatype MyContractItem = MyContractItem(raw: RawContractItem, contract: MyContract)

  /** A key of the contract map with the contract object it is stored under
      and the items of that contract. */
  datatype ContractEntry = ContractEntry(contract: MyContract, items: seq<MyContractItem>)

  datatype RawJournal = RawJournal(refID: int, details: int)
  datatype MyJournal = MyJournal(raw: RawJournal, ownerID: int)

  function RawJournalKey(r: RawJournal): int
  {
    r.refID
  }

  function JournalKey(j: MyJournal): int
  {
    j.raw.refID
  }

  datatype RawTransaction = RawTransaction(transactionID: int, details: int)
  datatype MyTransaction = MyTransaction(raw: RawTransaction, ownerID: int)

  function RawTransactionKey(r: RawTransaction): int
  {
    r.transactionID
  }

  function TransactionKey(t: MyTransaction): int
  {
    t.raw.transactionID
  }

  function OrderKey(o: MyMarketOrder): int
  {
    o.orderID
  }

  function RawOrderKey(r: RawMarketOrder): int
  {
    r.orderID
  }

  /** What an owner holds from the previous update. */
  datatype Owner = Owner(ownerID: int,
                         contracts: map<int, ContractEntry>,
                         journal: map<int, MyJournal>,
                         transactions: map<int, MyTransaction>,
                         marketOrders: map<int, MyMarketOrder>)
}
