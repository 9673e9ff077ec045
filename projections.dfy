/**
 * The projections that turn industry jobs, market orders and contract items
 * into extra asset rows: order-preserving selections, each computed by a loop
 * that appends to a list, and each proved equal to a function whose properties
 * are proved beside it.
 */
module Projections {
  import opened Wrappers
  import opened DomainRecords

  /** An asset row made from something other than an inventory record: an
      industry job (its blueprint, or with `output` its product), a market
      order, or a contract item together with the owner that issued it. */
  datatype ProjectedAsset =
    | JobAsset(job: MyIndustryJob, output: bool)
    | OrderAsset(order: MyMarketOrder)
    | ContractAsset(item: MyContractItem, issuerID: int)

  /** The rows `wrap(x)` of the elements `x` of `xs` for which `shown(x)`, in order. */
  function Select<T, U>(xs: seq<T>, shown: T -> bool, wrap: T -> U): seq<U>
  {
    if xs == [] then []
    else Select(xs[..|xs| - 1], shown, wrap) + (if shown(xs[|xs| - 1]) then [wrap(xs[|xs| - 1])] else [])
  }

  /** Selection keeps the order of its input: selecting from a concatenation
      concatenates the selections. */
  lemma {:induction false} SelectAppend<T, U>(a: seq<T>, b: seq<T>, shown: T -> bool, wrap: T -> U)
    ensures Select(a + b, shown, wrap) == Select(a, shown, wrap) + Select(b, shown, wrap)
    decreases |b|
  {
    if b == [] {
      assert a + b == a;
    } else {
      var front := b[..|b| - 1];
      assert (a + b)[..|a + b| - 1] == a + front;
      SelectAppend(a, front, shown, wrap);
    }
  }

  /** A row is selected exactly when it wraps a shown element; there are at
      most as many rows as elements. */
  lemma {:induction false} SelectExactly<T, U>(xs: seq<T>, shown: T -> bool, wrap: T -> U)
    ensures forall y :: y in Select(xs, shown, wrap) <==> exists j :: 0 <= j < |xs| && shown(xs[j]) && y == wrap(xs[j])
    ensures |Select(xs, shown, wrap)| <= |xs|
  {
    if xs != [] {
      var front := xs[..|xs| - 1];
      SelectExactly(front, shown, wrap);
      forall y ensures y in Select(xs, shown, wrap) <==> exists j :: 0 <= j < |xs| && shown(xs[j]) && y == wrap(xs[j]) {
        if y in Select(front, shown, wrap) {
          var j :| 0 <= j < |front| && shown(front[j]) && y == wrap(front[j]);
          assert xs[j] == front[j];
        }
        if j :| 0 <= j < |xs| && shown(xs[j]) && y == wrap(xs[j]) {
          if j < |front| {
            assert front[j] == xs[j];
          }
        }
      }
    }
  }

  // Industry jobs

  /** A job whose product gets a row of its own. */
  predicate HasProductRow(job: MyIndustryJob, includeManufacturing: bool)
  {
    includeManufacturing && job.manufacturing && job.productTypeID.Some?
  }

  /** The rows of one job: nothing once it is delivered; otherwise the job itself,
      followed by its product when that gets a row. */
  function JobRows(job: MyIndustryJob, includeManufacturing: bool): seq<ProjectedAsset>
  {
    if job.delivered then []
    else [JobAsset(job, false)] + (if HasProductRow(job, includeManufacturing) then [JobAsset(job, true)] else [])
  }

  function IndustryJobAssets(jobs: seq<MyIndustryJob>, includeManufacturing: bool): seq<ProjectedAsset>
  {
    if jobs == [] then []
    else IndustryJobAssets(jobs[..|jobs| - 1], includeManufacturing) + JobRows(jobs[|jobs| - 1], includeManufacturing)
  }

  /** The jobs that are not delivered yet, in order. */
  function Undelivered(jobs: seq<MyIndustryJob>): seq<MyIndustryJob>
  {
    if jobs == [] then []
    else Undelivered(jobs[..|jobs| - 1]) + (if jobs[|jobs| - 1].delivered then [] else [jobs[|jobs| - 1]])
  }

  /** The undelivered jobs whose product gets a row, in order. */
  function WithProduct(jobs: seq<MyIndustryJob>, includeManufacturing: bool): seq<MyIndustryJob>
  {
    if jobs == [] then []
    else
      var job := jobs[|jobs| - 1];
      WithProduct(jobs[..|jobs| - 1], includeManufacturing)
        + (if !job.delivered && HasProductRow(job, includeManufacturing) then [job] else [])
  }

  /** The jobs of the job rows with the given `output` flag, in order. */
  function JobsOf(rows: seq<ProjectedAsset>, output: bool): seq<MyIndustryJob>
  {
    if rows == [] then []
    else
      var a := rows[|rows| - 1];
      JobsOf(rows[..|rows| - 1], output) + (if a.JobAsset? && a.output == output then [a.job] else [])
  }

  lemma {:induction false} JobsOfAppend(a: seq<ProjectedAsset>, b: seq<ProjectedAsset>, output: bool)
    ensures JobsOf(a + b, output) == JobsOf(a, output) + JobsOf(b, output)
    decreases |b|
  {
    if b == [] {
      assert a + b == a;
    } else {
      assert (a + b)[..|a + b| - 1] == a + b[..|b| - 1];
      JobsOfAppend(a, b[..|b| - 1], output);
    }
  }

  lemma {:induction false} WithProductFewer(jobs: seq<MyIndustryJob>, includeManufacturing: bool)
    ensures |WithProduct(jobs, includeManufacturing)| <= |Undelivered(jobs)|
  {
    if jobs != [] {
      WithProductFewer(jobs[..|jobs| - 1], includeManufacturing);
    }
  }

  /** The rows of the job projection: the blueprint rows are exactly the
      undelivered jobs in order, and the product rows are exactly the undelivered
      jobs that have one, in order. */
  lemma {:induction false} IndustryJobRows(jobs: seq<MyIndustryJob>, includeManufacturing: bool)
    ensures var rows := IndustryJobAssets(jobs, includeManufacturing);
            && (forall k :: 0 <= k < |rows| ==> rows[k].JobAsset?)
            && JobsOf(rows, false) == Undelivered(jobs)
            && JobsOf(rows, true) == WithProduct(jobs, includeManufacturing)
  {
    if jobs != [] {
      var front, job := jobs[..|jobs| - 1], jobs[|jobs| - 1];
      IndustryJobRows(front, includeManufacturing);
      var pre := IndustryJobAssets(front, includeManufacturing);
      var rows := JobRows(job, includeManufacturing);
      JobsOfAppend(pre, rows, false);
      JobsOfAppend(pre, rows, true);
      if !job.delivered {
        var first := [JobAsset(job, false)];
        assert first[..0] == [];
        assert JobsOf(first, false) == [job] && JobsOf(first, true) == [];
        if HasProductRow(job, includeManufacturing) {
          assert rows[..1] == first;
          assert JobsOf(rows, false) == [job] && JobsOf(rows, true) == [job];
        } else {
          assert rows == first;
        }
      }
    }
  }

  /** Each product row comes right after the row of its own job. */
  predicate ProductsPaired(rows: seq<ProjectedAsset>)
  {
    forall k :: 0 <= k < |rows| && rows[k].JobAsset? && rows[k].output ==> 0 < k && rows[k - 1] == JobAsset(rows[k].job, false)
  }

  lemma {:induction false} IndustryJobPairing(jobs: seq<MyIndustryJob>, includeManufacturing: bool)
    ensures ProductsPaired(IndustryJobAssets(jobs, includeManufacturing))
  {
    if jobs != [] {
      var front, job := jobs[..|jobs| - 1], jobs[|jobs| - 1];
      IndustryJobPairing(front, includeManufacturing);
      var pre := IndustryJobAssets(front, includeManufacturing);
      var rows := IndustryJobAssets(jobs, includeManufacturing);
      assert rows == pre + JobRows(job, includeManufacturing);
      forall k | 0 <= k < |rows| && rows[k].JobAsset? && rows[k].output
        ensures 0 < k && rows[k - 1] == JobAsset(rows[k].job, false)
      {
        if k < |pre| {
          assert rows[k] == pre[k];
          assert 0 < k && pre[k - 1] == JobAsset(pre[k].job, false);
          assert rows[k - 1] == pre[k - 1];
        } else {
          assert k == |pre| + 1 && rows[k] == JobAsset(job, true) && rows[k - 1] == JobAsset(job, false);
        }
      }
    }
  }

  /** One or two rows per undelivered job, none for a delivered one. */
  lemma {:induction false} IndustryJobCount(jobs: seq<MyIndustryJob>, includeManufacturing: bool)
    ensures var rows := IndustryJobAssets(jobs, includeManufacturing);
            && |rows| == |Undelivered(jobs)| + |WithProduct(jobs, includeManufacturing)|
            && |Undelivered(jobs)| <= |rows| <= 2 * |Undelivered(jobs)|
  {
    if jobs != [] {
      IndustryJobCount(jobs[..|jobs| - 1], includeManufacturing);
    }
    WithProductFewer(jobs, includeManufacturing);
  }

  /** Lists the asset rows of the jobs: see IndustryJobRows, IndustryJobPairing and IndustryJobCount. */
  method AssetIndustryJob(industryJobs: seq<MyIndustryJob>, includeManufacturing: bool) returns (assets: seq<ProjectedAsset>)
    ensures assets == IndustryJobAssets(industryJobs, includeManufacturing)
  {
    assets := [];
    for k := 0 to |industryJobs|
      invariant assets == IndustryJobAssets(industryJobs[..k], includeManufacturing)
    {
      var job := industryJobs[k];
      assert industryJobs[..k + 1][..k] == industryJobs[..k];
      if !job.delivered {
        assets := assets + [JobAsset(job, false)];
        if includeManufacturing && job.manufacturing && job.productTypeID.Some? {
          assets := assets + [JobAsset(job, true)];
        }
      }
    }
    assert industryJobs[..|industryJobs|] == industryJobs;
  }

  // Market orders

  /** An order that gets a row: active, with volume left, on a side that is shown. */
  predicate OrderShown(o: MyMarketOrder, includeSellOrders: bool, includeBuyOrders: bool)
  {
    IsActive(o) && o.volumeRemain > 0 && ((!o.buyOrder && includeSellOrders) || (o.buyOrder && includeBuyOrders))
  }

  function MarketOrderAssets(orders: seq<MyMarketOrder>, includeSellOrders: bool, includeBuyOrders: bool): seq<ProjectedAsset>
  {
    Select(orders, (o: MyMarketOrder) => OrderShown(o, includeSellOrders, includeBuyOrders), (o: MyMarketOrder) => OrderAsset(o))
  }

  /** Exactly the shown orders get a row, in the order of the input. */
  lemma MarketOrderAssetsSpec(orders: seq<MyMarketOrder>, other: seq<MyMarketOrder>, includeSellOrders: bool, includeBuyOrders: bool)
    ensures forall o :: OrderAsset(o) in MarketOrderAssets(orders, includeSellOrders, includeBuyOrders)
              <==> o in orders && OrderShown(o, includeSellOrders, includeBuyOrders)
    ensures forall a :: a in MarketOrderAssets(orders, includeSellOrders, includeBuyOrders) ==> a.OrderAsset?
    ensures |MarketOrderAssets(orders, includeSellOrders, includeBuyOrders)| <= |orders|
    ensures MarketOrderAssets(orders + other, includeSellOrders, includeBuyOrders)
              == MarketOrderAssets(orders, includeSellOrders, includeBuyOrders) + MarketOrderAssets(other, includeSellOrders, includeBuyOrders)
  {
    var shown := (o: MyMarketOrder) => OrderShown(o, includeSellOrders, includeBuyOrders);
    var wrap := (o: MyMarketOrder) => OrderAsset(o);
    SelectExactly(orders, shown, wrap);
    SelectAppend(orders, other, shown, wrap);
  }

  /** Lists the asset rows of the orders: see MarketOrderAssetsSpec. */
  method AssetMarketOrder(marketOrders: seq<MyMarketOrder>, includeSellOrders: bool, includeBuyOrders: bool)
    returns (assets: seq<ProjectedAsset>)
    ensures assets == MarketOrderAssets(marketOrders, includeSellOrders, includeBuyOrders)
  {
    assets := [];
    for k := 0 to |marketOrders|
      invariant assets == MarketOrderAssets(marketOrders[..k], includeSellOrders, includeBuyOrders)
    {
      var marketOrder := marketOrders[k];
      assert marketOrders[..k + 1][..k] == marketOrders[..k];
      if IsActive(marketOrder) && marketOrder.volumeRemain > 0
        && ((!marketOrder.buyOrder && includeSellOrders) || (marketOrder.buyOrder && includeBuyOrders))
      {
        assets := assets + [OrderAsset(marketOrder)];
      }
    }
    assert marketOrders[..|marketOrders|] == marketOrders;
  }

  // Contract items

  /** A contract item that gets a row: its contract is an open item contract
      (not a courier contract) issued by a known owner, and the item is on a side
      that is shown (given away: a sale; asked for: a purchase). */
  predicate ContractItemShown(ci: MyContractItem, owners: set<int>, includeSellContracts: bool, includeBuyContracts: bool)
  {
    && ci.contract.raw.open
    && ci.contract.raw.issuerID in owners
    && ci.contract.raw.itemContract
    && ((ci.raw.included && includeSellContracts) || (!ci.raw.included && includeBuyContracts))
  }

  function ContractAssets(items: seq<MyContractItem>, owners: set<int>, includeSellContracts: bool, includeBuyContracts: bool)
    : seq<ProjectedAsset>
  {
    Select(items, (ci: MyContractItem) => ContractItemShown(ci, owners, includeSellContracts, includeBuyContracts),
           (ci: MyContractItem) => ContractAsset(ci, ci.contract.raw.issuerID))
  }

  /** Exactly the shown items get a row, attached to their issuer, in the order of
      the input. */
  lemma ContractAssetsSpec(items: seq<MyContractItem>, other: seq<MyContractItem>, owners: set<int>,
                           includeSellContracts: bool, includeBuyContracts: bool)
    ensures forall ci, issuer :: ContractAsset(ci, issuer) in ContractAssets(items, owners, includeSellContracts, includeBuyContracts)
              <==> ci in items && ContractItemShown(ci, owners, includeSellContracts, includeBuyContracts) && issuer == ci.contract.raw.issuerID
    ensures forall a :: a in ContractAssets(items, owners, includeSellContracts, includeBuyContracts) ==>
              a.ContractAsset? && a.issuerID in owners
    ensures |ContractAssets(items, owners, includeSellContracts, includeBuyContracts)| <= |items|
    ensures ContractAssets(items + other, owners, includeSellContracts, includeBuyContracts)
              == ContractAssets(items, owners, includeSellContracts, includeBuyContracts)
                 + ContractAssets(other, owners, includeSellContracts, includeBuyContracts)
  {
    var shown := (ci: MyContractItem) => ContractItemShown(ci, owners, includeSellContracts, includeBuyContracts);
    var wrap := (ci: MyContractItem) => ContractAsset(ci, ci.contract.raw.issuerID);
    SelectExactly(items, shown, wrap);
    SelectAppend(items, other, shown, wrap);
  }

  /** Lists the asset rows of the contract items: see ContractAssetsSpec. */
  method AssetContracts(contractItems: seq<MyContractItem>, owners: set<int>, includeSellContracts: bool, includeBuyContracts: bool)
    returns (list: seq<ProjectedAsset>)
    ensures list == ContractAssets(contractItems, owners, includeSellContracts, includeBuyContracts)
  {
    list := [];
    for k := 0 to |contractItems|
      invariant list == ContractAssets(contractItems[..k], owners, includeSellContracts, includeBuyContracts)
    {
      var contractItem := contractItems[k];
      assert contractItems[..k + 1][..k] == contractItems[..k];
      var contract := contractItem.contract.raw;
      if contract.open && contract.issuerID in owners && contract.itemContract
        && ((contractItem.raw.included && includeSellContracts) || (!contractItem.raw.included && includeBuyContracts))
      {
        list := list + [ContractAsset(contractItem, contract.issuerID)];
      }
    }
    assert contractItems[..|contractItems|] == contractItems;
  }
}
