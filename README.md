# jEveAssets data conversion core, modelled in Dafny

jEveAssets is a desktop tool for EVE Online players. It downloads an account's
inventory and trade history and shows them in tables. This project models the
conversion layer that turns the account API's raw records into the application's
own records, plus the grand-total rule of the industry slots tab:

- **Asset forest** (`asset_records.dfy`, `asset_index.dfy`, `asset_forest.dfy`,
  `asset_writes.dfy`, `asset_properties.dfy`). The API delivers a flat list of raw assets. Each one
  names either the item that contains it or an external location.
  - The converter indexes the list in two passes. The first builds a lookup by
    item ID, with a later duplicate replacing an earlier one, and an empty child
    list per item. The second fills the child lists and collects the roots.
  - It then materialises each root recursively. A contained record has its
    location overwritten in place with the location of its root ancestor. A
    record that is ignored is dropped together with its whole subtree. Ignored
    records are skills, the skill in training, boosters and implants (flags 7,
    61, 88, 89), and anything located on the owner itself.
  - The record list is an `array<RawAsset>`. Each slot stands for one record
    object, so the overwrite is a write to that slot. The methods are proved
    equal to ghost functions (`Deep`, `DeepChildren`, `ForestRun`, `Forest`).
    Those functions return the forest together with the array content left
    behind. `asset_writes.dfy` proves exactly which slots that content rewrites,
    and `asset_properties.dfy` proves the forest's shape about them.
- **Projections** (`projections.dfy`). These turn industry jobs, market orders
  and contract items into extra asset rows: order-preserving selections computed
  by loops.
- **History merges** (`history.dfy`, records in `domain_records.dfy`).
  - Journal entries and transactions: the new records are added to a hash set,
    then, when history is kept, the owner's earlier ones.
  - Market orders: each delivered order also carries the price changes recorded
    for its order ID before. When history is kept, the earlier orders are closed
    and added.
  - Contracts: when history is kept, the contract map starts from the owner's
    map. Each delivered contract then replaces its entry and takes over the
    known items, which are re-pointed to the new contract object.
  - Contract items: replacing one contract's item list.
  - A hash set or hash map keyed by record equality is a `map` from the record's
    key to the record. `HashSet.add` keeps the element already present, so the
    first record under a key wins.
- **Industry slots tab** (`industry_slots.dfy`). The comparator sorts grand-total
  rows after the others. The status-bar listener counts every shown row except
  the grand totals.

The code raises no error for duplicate item IDs or for containment cycles, and
the model follows it: it adds no such error.
- With unique item IDs, a record stored inside itself, or in a ring of
  containers, is never a root and is never reached. It is silently dropped
  (`CycleNeverVisited`, `SelfContainedRecordDropped`). With duplicate IDs a ring
  can be reached: in the batch 5@6, 6@5, 5@100 the second record with ID 5 is a
  root, and the lookup sends the descent into the ring through it. Unless a
  record on the ring is ignored, the recursion is then unbounded. In Java it
  ends in a StackOverflowError thrown out of `convertRawAssets`, and the model
  gives no result for such a batch.
- Records with the same item ID share one child list. Its records are then
  materialised once under each kept one, and the last visit decides the location
  they are left with (`DuplicateIdSharedChild`, `DuplicateIdSharedChildForest`;
  in general `ForestRunWrites`: the last root whose descent reaches a record
  decides its location).
- A record can also land in its own child list through a duplicate ID. Then the
  recursion can revisit it without bound (`DuplicateIdRevisits`). In Java it
  ends in a StackOverflowError thrown out of `convertRawAssets`, and the model
  gives no result for such a batch.
  - The ignore rule stops a descent. An ignored record is not materialised, and
    its child list is never read. So a revisit only matters on a descent whose
    records are all kept.
  - `ConvertRawAssets` requires `Terminating`: no descent through kept records
    reaches the same position twice. A record counts as kept as the code judges
    it. The root is taken as it stands. A record below it takes the root's
    location, so only its flag can rule it out (`LivePath`, `LivePathExactly`).
  - Every batch with unique item IDs is `Terminating` (`UniqueIdsTerminate`).
    So are batches whose revisits are cut off by the ignore rule.
    `IgnoredRevisitFinishes` shows an on-the-body record revisited below a kept
    root. `IgnoredRootFinishes` shows a root on the owner.
- The converter rewrites the caller's record objects in place. The model keeps
  that write and states it (`ToMyAsset`, `DeepWrites`, `ForestRunWrites`,
  `ForestShape`, `UniqueIdsForestWrites`). A record is rewritten exactly when a
  descent reaches it. A descent reaches a record along child lists through kept
  records (`Reached`). A record on the descent's own chain of ancestors is never
  reached (`ReachAvoidsPath`).

## Model

| member | source | states |
|---|---|---|
| AssetRecords.IgnoreAssetExactly | src/main/java/net/nikr/eve/jeveasset/io/shared/DataConverter.java:175-181 | A record is ignored exactly when its flag is 7, 61, 88 or 89, or its location is the owner's ID. |
| AssetRecords.ParentsOf | src/main/java/net/nikr/eve/jeveasset/io/shared/DataConverter.java:145-149 | A root has no ancestors. A child's ancestor list is its parent's whole list followed by the parent's record. |
| AssetRecords.Relocated | src/main/java/net/nikr/eve/jeveasset/io/shared/DataConverter.java:164-167 | Only the location can change. A root keeps its record. A contained record takes its first ancestor's location. |
| AssetRecords.Materialize | src/main/java/net/nikr/eve/jeveasset/io/shared/DataConverter.java:169-172 | No node exactly when the record is ignored. Otherwise the node carries the record and its ancestors, with no children yet. |
| AssetIndex.LookupByItemId | src/main/java/net/nikr/eve/jeveasset/io/shared/DataConverter.java:120-126 | The lookup covers exactly the batch's item IDs, each mapped to the last position holding that ID. Every item gets an empty child list. |
| AssetIndex.IndexAssets | src/main/java/net/nikr/eve/jeveasset/io/shared/DataConverter.java:120-134 | The index loops produce exactly the child map and the root list that ChildMap and RootIndices define. |
| AssetIndex.RootIndicesExactly | src/main/java/net/nikr/eve/jeveasset/io/shared/DataConverter.java:127-134 | A position is a root exactly when its location is no item ID of the batch. Roots are listed in input order. |
| AssetIndex.ChildMapExactly | src/main/java/net/nikr/eve/jeveasset/io/shared/DataConverter.java:127-134 | Each item's child list holds exactly the positions located in it, in input order. Every item of the batch has a list. |
| AssetIndex.RootOrChild | src/main/java/net/nikr/eve/jeveasset/io/shared/DataConverter.java:127-134 | A record is in no child list exactly when it is a root. |
| AssetIndex.IndexShapedAlways | src/main/java/net/nikr/eve/jeveasset/io/shared/DataConverter.java:120-134 | For any batch, every item has a child list, every child list holds batch positions, a position is in at most one list, and each root starts a descent path. |
| AssetIndex.UniqueIdsRepeatFree | src/main/java/net/nikr/eve/jeveasset/io/shared/DataConverter.java:120-134 | With unique item IDs, no descent path over a well-shaped index reaches the same position twice. |
| AssetIndex.UniqueIdsTerminate | src/main/java/net/nikr/eve/jeveasset/io/shared/DataConverter.java:117-142 | Every batch with unique item IDs is Terminating and well indexed, whoever the owner is. |
| AssetIndex.LivePathExactly | src/main/java/net/nikr/eve/jeveasset/io/shared/DataConverter.java:164-180 | A descent path is through kept records exactly when every record on it, given the root's location, passes the ignore rule. This is the test the code applies, since lines 164-167 rewrite each contained record's location before line 169 tests it. |
| AssetIndex.LivePathExtend | src/main/java/net/nikr/eve/jeveasset/io/shared/DataConverter.java:150-153 | A record that passes the ignore rule after relocation extends a path of kept records: as a root, or below one. |
| AssetIndex.UnvisitedShrinks | src/main/java/net/nikr/eve/jeveasset/io/shared/DataConverter.java:150-153 | On a well-indexed batch (Terminating, on a given index), descending into a kept record leaves strictly fewer positions unvisited. This is why the recursion ends. |
| AssetForest.ToMyAsset | src/main/java/net/nikr/eve/jeveasset/io/shared/DataConverter.java:162-173 | The record's slot is rewritten to the relocated record and nothing else changes. The result is the node made from the relocated record, or none. |
| AssetForest.Descend | src/main/java/net/nikr/eve/jeveasset/io/shared/DataConverter.java:150-152 | One materialisation rewrites only a location and never a root slot. The result is still well indexed. When the record is kept, the path through it and through each of its children is a descent path through kept records. |
| AssetForest.Forest | src/main/java/net/nikr/eve/jeveasset/io/shared/DataConverter.java:117-142 | The converter changes only locations and never rewrites a root record. |
| AssetForest.DeepAsset | src/main/java/net/nikr/eve/jeveasset/io/shared/DataConverter.java:144-160 | The result and the new array content are exactly those of the recursive specification Deep. |
| AssetForest.DeepChildAssets | src/main/java/net/nikr/eve/jeveasset/io/shared/DataConverter.java:151-158 | The children loop yields exactly the kept children, and the array content that DeepChildren defines. |
| AssetForest.ConvertRawAssets | src/main/java/net/nikr/eve/jeveasset/io/shared/DataConverter.java:117-142 | For any batch with no revisit on a descent through kept records (Terminating; duplicate IDs allowed, ignored records cut descents off), the forest and the rewritten records are exactly those of Forest. |
| AssetProperties.DeepShape | src/main/java/net/nikr/eve/jeveasset/io/shared/DataConverter.java:144-173 | A node exists exactly when its relocated record passes the ignore rule. It carries that record and the ancestors built from its parent. Its subtree is Chained: every node owned, none ignored, each child lists its parent chain and has the root's location. At every depth, the subtree is built from slot i (BuiltFrom): each node carries its slot's record relocated below its ancestors, and its children are built, in input order, from exactly the kept slots of that record's child list. Its children carry exactly those kept records, relocated. |
| AssetProperties.BuiltNode | src/main/java/net/nikr/eve/jeveasset/io/shared/DataConverter.java:150-159 | A node whose children built on the content its own rewrite left is built from its slot on the content before the rewrite, with the same child records. |
| AssetProperties.BuiltFromCarry | src/main/java/net/nikr/eve/jeveasset/io/shared/DataConverter.java:152-166 | A subtree built from a slot stays built from it across later rewrites, since they change no root and only locations that relocation overwrites. |
| AssetProperties.KeptStable | src/main/java/net/nikr/eve/jeveasset/io/shared/DataConverter.java:164-169 | Which child slots are kept below non-empty ancestors does not depend on those slots' old locations. |
| AssetProperties.BuiltRaws | src/main/java/net/nikr/eve/jeveasset/io/shared/DataConverter.java:150-156 | Nodes built from a list of slots carry, in order, those slots' records relocated below their ancestors. |
| AssetProperties.NodesAppend | src/main/java/net/nikr/eve/jeveasset/io/shared/DataConverter.java:152-156 | The children so far, followed by the next child when it is kept, are built from the kept slots among the slots so far and the next one. |
| AssetProperties.DeepChildrenShape | src/main/java/net/nikr/eve/jeveasset/io/shared/DataConverter.java:151-158 | Every materialised child lists the parent's chain, carries the root's location and is Chained. The children are built, at every depth and in order, from exactly the kept slots of the child list. Their records are those slots' records relocated below the parent. |
| AssetProperties.DeepFrame | src/main/java/net/nikr/eve/jeveasset/io/shared/DataConverter.java:144-168 | A descent leaves its own slot with its record relocated below its ancestors. It never changes a root's slot or a slot on its chain of ancestors. Every other slot either keeps its record or takes the descent's root location and keeps all other fields. |
| AssetProperties.ForestRunShape | src/main/java/net/nikr/eve/jeveasset/io/shared/DataConverter.java:135-140 | The root loop returns trees with no ancestors, each an unchanged batch record and Chained. The trees are built, at every depth and in order, from exactly the roots that pass the ignore rule. Their records are exactly those roots' records. |
| AssetProperties.ForestRunFrame | src/main/java/net/nikr/eve/jeveasset/io/shared/DataConverter.java:135-140 | The root loop keeps every root slot. Every other slot keeps its record or takes some root's location. Each slot ends exactly as the last root whose descent reaches it leaves it (LeftBy). |
| AssetProperties.ForestShape | src/main/java/net/nikr/eve/jeveasset/io/shared/DataConverter.java:117-142 | For any Terminating batch, the converter returns trees without ancestors and Chained. They are built at every depth from exactly the non-ignored roots, in input order, and their records are those roots' records, unchanged. A record located outside the batch is never rewritten. A rewritten record carries a root's location. Each record ends exactly as the last root whose descent reaches it leaves it (LeftBy). |
| AssetProperties.UniqueIdsForestWrites | src/main/java/net/nikr/eve/jeveasset/io/shared/DataConverter.java:117-168 | With unique item IDs the batch is Terminating. A record the descent from a root reaches ends with that root's location and all its other fields unchanged. A record no root reaches ends unchanged. |
| AssetWrites.WalkCarry | src/main/java/net/nikr/eve/jeveasset/io/shared/DataConverter.java:164-169 | Whether a sequence of slots is a walk through kept records does not depend on the locations a run has rewritten. |
| AssetWrites.ReachedCarry | src/main/java/net/nikr/eve/jeveasset/io/shared/DataConverter.java:164-169 | Which slots a descent reaches does not depend on the locations a run has rewritten. |
| AssetWrites.ReachedFromAnyExactly | src/main/java/net/nikr/eve/jeveasset/io/shared/DataConverter.java:151-158 | A slot is reached from a list of child slots exactly when it is reached from one of them. |
| AssetWrites.ReachSplit | src/main/java/net/nikr/eve/jeveasset/io/shared/DataConverter.java:150-158 | The descent from a slot reaches that slot. When the slot's relocated record is kept, it also reaches exactly what the descents from its child list reach. When the record is ignored, it reaches nothing else. |
| AssetWrites.DeepWrites | src/main/java/net/nikr/eve/jeveasset/io/shared/DataConverter.java:144-168 | A descent leaves its own slot with its record relocated below its ancestors. Every slot it reaches takes the descent's root location and keeps all its other fields, whatever the duplicate IDs. Every other slot keeps its record. |
| AssetWrites.DeepChildrenWrites | src/main/java/net/nikr/eve/jeveasset/io/shared/DataConverter.java:151-158 | The loop over a child list leaves every slot that some child's descent reaches with the root location of the parent's chain. Every other slot keeps its record. |
| AssetWrites.ForestRunWrites | src/main/java/net/nikr/eve/jeveasset/io/shared/DataConverter.java:135-140 | After the root loop each slot holds what LeftBy says: the record with the location of the last root whose descent reaches it, or the original record when no root reaches it. |
| AssetWrites.ReachAvoidsPath | src/main/java/net/nikr/eve/jeveasset/io/shared/DataConverter.java:150-158 | On a batch whose kept descents never repeat a position, a descent never reaches a slot on its own chain of ancestors. |
| AssetWrites.WalkRootUnique | src/main/java/net/nikr/eve/jeveasset/io/shared/DataConverter.java:127-133 | With unique item IDs, two walks from roots that end at the same slot start at the same root. |
| AssetWrites.UniqueIdsLeftBy | src/main/java/net/nikr/eve/jeveasset/io/shared/DataConverter.java:135-140 | With unique item IDs, a slot that some root reaches is left with that root's location, whatever the other roots do. |
| AssetWrites.UnreachedLeftBy | src/main/java/net/nikr/eve/jeveasset/io/shared/DataConverter.java:135-140 | A slot that no root reaches keeps its record. |
| AssetProperties.CycleNeverVisited | src/main/java/net/nikr/eve/jeveasset/io/shared/DataConverter.java:127-140 | With unique item IDs, records on a containment ring are never roots and never lie on any descent path. |
| AssetProperties.DuplicateIdRevisits | src/main/java/net/nikr/eve/jeveasset/io/shared/DataConverter.java:123-134 | Two records with item ID 1, the second inside item 1 and neither ignored: the first is the only root, and the second is in its own child list. The descent root, second, second runs through kept records, so the batch is not Terminating. |
| AssetProperties.RevisitIndex | src/main/java/net/nikr/eve/jeveasset/io/shared/DataConverter.java:120-134 | In that batch, whatever the second record's flag, the first record is the only root, the one child list holds the second, and every descent is first, second, second, and so on. |
| AssetProperties.IgnoredRevisitFinishes | src/main/java/net/nikr/eve/jeveasset/io/shared/DataConverter.java:117-181 | The same batch with the second record a skill (flag 7): the IDs are not unique and the descent root, second, second exists, yet the batch is Terminating. The converter returns the root alone and leaves the skill with the root's location. |
| AssetProperties.IgnoredRootFinishes | src/main/java/net/nikr/eve/jeveasset/io/shared/DataConverter.java:117-181 | The same batch with the root located on the owner: the batch is Terminating, and the converter returns nothing and leaves the batch unchanged. |
| AssetProperties.DuplicateIdSharedChild | src/main/java/net/nikr/eve/jeveasset/io/shared/DataConverter.java:123-134 | Records 1@100, 2@1, 1@200: the IDs are not unique, yet the batch is Terminating. Both records with ID 1 are roots and both read the child list holding record 2. |
| AssetProperties.DuplicateIdSharedChildForest | src/main/java/net/nikr/eve/jeveasset/io/shared/DataConverter.java:117-160 | For that batch the converter returns both roots, each with record 2 as its child: first with location 100, then with 200. Record 2 is left with location 200. |
| AssetProperties.SelfContainedRecordDropped | src/main/java/net/nikr/eve/jeveasset/io/shared/DataConverter.java:117-142 | A record located in itself has no root, so the result is empty and the record is left unchanged. |
| Projections.AssetIndustryJob | src/main/java/net/nikr/eve/jeveasset/io/shared/DataConverter.java:52-65 | The loop yields exactly IndustryJobAssets of the jobs. |
| Projections.IndustryJobRows | src/main/java/net/nikr/eve/jeveasset/io/shared/DataConverter.java:52-65 | All rows are job rows. The blueprint rows are exactly the undelivered jobs, in order. The product rows are exactly the undelivered manufacturing jobs with a product type, when included, in order. |
| Projections.IndustryJobPairing | src/main/java/net/nikr/eve/jeveasset/io/shared/DataConverter.java:55-61 | Every product row comes right after the blueprint row of the same job. |
| Projections.IndustryJobCount | src/main/java/net/nikr/eve/jeveasset/io/shared/DataConverter.java:52-65 | One or two rows per undelivered job and none for a delivered one. |
| Projections.AssetMarketOrder | src/main/java/net/nikr/eve/jeveasset/io/shared/DataConverter.java:67-78 | The loop yields exactly MarketOrderAssets of the orders. |
| Projections.MarketOrderAssetsSpec | src/main/java/net/nikr/eve/jeveasset/io/shared/DataConverter.java:67-78 | An order gets a row exactly when it is active, has volume left, and its side (sell or buy) is included. Only order rows appear, at most one per order, and the selection distributes over concatenation (order kept). |
| Projections.AssetContracts | src/main/java/net/nikr/eve/jeveasset/io/shared/DataConverter.java:80-103 | The loop yields exactly ContractAssets of the items. |
| Projections.ContractAssetsSpec | src/main/java/net/nikr/eve/jeveasset/io/shared/DataConverter.java:80-103 | An item gets a row, attached to its issuer, exactly when its contract is open, issued by a known owner and an item contract, and the item's side is included. Every row's issuer is a known owner. At most one row per item, in input order. |
| History.MergedSpec | src/main/java/net/nikr/eve/jeveasset/io/shared/DataConverter.java:238-247 | The keys are the new records' keys, plus the earlier keys when history is kept. A new key holds its first new record. An earlier key no new record has keeps its earlier record. |
| History.AddAllAbsent | src/main/java/net/nikr/eve/jeveasset/io/shared/DataConverter.java:243-245 | Adding the earlier records to the set gives the earlier map overridden by the new one. |
| History.ConvertRawJournals | src/main/java/net/nikr/eve/jeveasset/io/shared/DataConverter.java:238-247 | The loops yield exactly Journals of the input. |
| History.JournalsSpec | src/main/java/net/nikr/eve/jeveasset/io/shared/DataConverter.java:238-247 | One entry per delivered reference ID, from its first delivered record and owned by the owner. With history, earlier entries not delivered again are kept. Without history there are no other entries. |
| History.ConvertRawTransactions | src/main/java/net/nikr/eve/jeveasset/io/shared/DataConverter.java:278-287 | The loops yield exactly Transactions of the input. |
| History.TransactionsSpec | src/main/java/net/nikr/eve/jeveasset/io/shared/DataConverter.java:278-287 | As JournalsSpec, keyed by transaction ID. |
| DomainRecords.ToMyMarketOrder | src/main/java/net/nikr/eve/jeveasset/io/shared/DataConverter.java:273-276 | The order keeps the raw order's ID, state and changes, and belongs to the owner. |
| DomainRecords.AddChanges | src/main/java/net/nikr/eve/jeveasset/io/shared/DataConverter.java:262 | Only the changes of the order change. They grow by the earlier changes when there are any. |
| DomainRecords.Close | src/main/java/net/nikr/eve/jeveasset/io/shared/DataConverter.java:266 | A closed order is not active. Only its state changes, and an order already inactive is untouched. |
| History.CollectChanges | src/main/java/net/nikr/eve/jeveasset/io/shared/DataConverter.java:255-258 | The change map holds every earlier order's changes under its order ID. |
| History.AddClosed | src/main/java/net/nikr/eve/jeveasset/io/shared/DataConverter.java:264-269 | The result is the closed earlier orders overridden by the delivered ones. |
| History.ConvertRawMarketOrders | src/main/java/net/nikr/eve/jeveasset/io/shared/DataConverter.java:253-271 | The loops yield exactly MarketOrders of the input. |
| History.MarketOrdersSpec | src/main/java/net/nikr/eve/jeveasset/io/shared/DataConverter.java:253-271 | One order per delivered order ID, from its first delivered order, with that order's changes joined with those recorded before. With history, every earlier order not delivered again is kept, closed and inactive. Without history there are no other orders. |
| History.Repointed | src/main/java/net/nikr/eve/jeveasset/io/shared/DataConverter.java:194-196 | Same number of items, each keeping its raw item and pointing to the new contract. |
| History.ConvertRawContracts | src/main/java/net/nikr/eve/jeveasset/io/shared/DataConverter.java:183-202 | The loops yield exactly ContractsAfter of the input. |
| History.ContractsKeys | src/main/java/net/nikr/eve/jeveasset/io/shared/DataConverter.java:183-202 | The keys are the delivered contract IDs, plus the owner's when history is kept. |
| History.ContractsLastWins | src/main/java/net/nikr/eve/jeveasset/io/shared/DataConverter.java:188-200 | A delivered ID holds its last delivered contract. Its items are the owner's known items for that ID, re-pointed, or none for a new contract. |
| History.ContractsKept | src/main/java/net/nikr/eve/jeveasset/io/shared/DataConverter.java:185-187 | With history, an earlier contract not delivered again stays exactly as it was, items included. |
| History.ConvertRawContractItems | src/main/java/net/nikr/eve/jeveasset/io/shared/DataConverter.java:204-213 | The contract's entry holds the delivered items, in order, each pointing to the contract. The key set gains only that contract, and every other entry is unchanged. |
| IndustrySlots.Compare | src/main/java/net/nikr/eve/jeveasset/gui/tabs/jobs/IndustrySlotsTab.java:296-306 | The comparison is the difference of the two rows' ranks (ordinary rows 0, grand totals 1). |
| IndustrySlots.CompareCases | src/main/java/net/nikr/eve/jeveasset/gui/tabs/jobs/IndustrySlotsTab.java:296-306 | The four branches: both totals give 0, only the first 1, only the second -1, neither 0. |
| IndustrySlots.CompareAntisymmetric | src/main/java/net/nikr/eve/jeveasset/gui/tabs/jobs/IndustrySlotsTab.java:296-306 | Swapping the arguments negates the result. |
| IndustrySlots.ComparePreorder | src/main/java/net/nikr/eve/jeveasset/gui/tabs/jobs/IndustrySlotsTab.java:296-306 | Reflexive, total and transitive, and equality is transitive, as a sort comparator must be. |
| IndustrySlots.CompareTwoClasses | src/main/java/net/nikr/eve/jeveasset/gui/tabs/jobs/IndustrySlotsTab.java:296-306 | Rows compare equal exactly when both or neither are grand totals. A row comes first exactly when it is ordinary and the other is a total. |
| IndustrySlots.SortedTotalsLast | src/main/java/net/nikr/eve/jeveasset/gui/tabs/jobs/IndustrySlotsTab.java:294-307 | In a list sorted by the comparator, no grand total precedes an ordinary row. |
| IndustrySlots.TotalsLastSplit | src/main/java/net/nikr/eve/jeveasset/gui/tabs/jobs/IndustrySlotsTab.java:294-307 | Such a list is its ordinary rows followed by its grand totals. |
| IndustrySlots.NonTotalsCounts | src/main/java/net/nikr/eve/jeveasset/gui/tabs/jobs/IndustrySlotsTab.java:252-257 | Each ordinary row is counted as often as it occurs, and no grand total is counted. |
| IndustrySlots.SlotTotal.constructor | src/main/java/net/nikr/eve/jeveasset/gui/tabs/jobs/IndustrySlotsTab.java:249 | A new total has the given name and has counted nothing. |
| IndustrySlots.SlotTotal.Count | src/main/java/net/nikr/eve/jeveasset/gui/tabs/jobs/IndustrySlotsTab.java:256 | Counting appends the row to what the total has counted and keeps the name. |
| IndustrySlots.ListChanged | src/main/java/net/nikr/eve/jeveasset/gui/tabs/jobs/IndustrySlotsTab.java:248-262 | The listener returns a fresh, unnamed total that has counted exactly the shown rows that are not grand totals, in order. |

## Left out

- ProfileReader.java is context that loads stored profiles from XML. It is not part of this model.
- The Swing and Glazed Lists wiring of the industry slots tab is left out: the table, the read lock around the loop, and the labels set from the total. These are UI and concurrency, not logic.
- SlotTotal: the counters that IndustrySlot.count adds up (done, free, active and max slots per activity) are not modelled. The total records the rows it counted, so which rows are counted and how often is exact, but the sums are not. The IndustrySlot class is not part of this model.
- The item lookup (ApiIdConverter.getItemUpdate) reads an external item database. The models carry the type ID instead.
- Owners are represented by their owner ID only. For contracts, the map of known owners is the set of their IDs.
- Floating-point fields (prices, ISK amounts) and dates are left out. The converter copies them without looking at them. The other fields of journal entries and transactions are a single opaque `details` value.
- Close: MyMarketOrder.close() is not part of this model. The model assumes it turns an open order into a closed one and leaves other states alone.
- AddChanges: the model assumes MyMarketOrder.addChanges(null) leaves the order unchanged, and that a non-null argument is joined to the order's changes as a set union.
- MyMarketOrder and MyContract are not part of this model. The model assumes that MyMarketOrder.isActive() holds exactly when the order's state is open (IsActive), and it carries MyContract.isOpen() and MyContract.isItemContract() as the plain boolean fields `open` and `itemContract`.
- The equality of MyJournal, MyTransaction, MyMarketOrder and MyContract is not part of this model. The records are keyed by reference ID, transaction ID, order ID and contract ID.
- History.ConvertRawMarketOrders requires that the owner's earlier orders are stored under their own order IDs, since the change lookup is built from the orders' IDs.
- Aliasing is left out. The code re-points each known contract item in place inside the owner's map, and with history closes the owner's market order objects themselves. The model computes new values instead, so it does not say that the owner's earlier collections change as a side effect.
- Iteration order over hash sets and hash maps is left out. The projections take their input as a sequence in iteration order, and the merges' sets are maps, whose order does not matter.
- AssetForest.ConvertRawAssets requires Terminating: no descent through records the converter keeps reaches the same position twice. On a batch that breaks it, such as DuplicateIdRevisits, the recursion is unbounded. In Java it ends in a StackOverflowError thrown out of convertRawAssets. The model gives no result for such a batch.
- MyAsset.java is not part of this model. The model assumes that the MyAsset constructor called at DataConverter.java:172 copies the raw record's fields. A node therefore holds the record value as it was at that moment, and later writes to the raw record do not reach it.
- An ancestor list holds the ancestors' relocated raw records, not the MyAsset objects that DataConverter.java:148 stores. Only an ancestor's record is ever read (its location, at line 166), so nothing the model states depends on the difference.
- The code reports no error for duplicate item IDs or containment cycles, and the model adds none.
- The converter's trivial wrappers (toMyContract, toMyContractItem, toMyJournal, toMyTransaction, toMyIndustryJob, toMyAccountBalance) are constructor calls inlined where they are used.
- convertRawAccountBalance and convertRawIndustryJobs are plain per-record conversions outside the modelled core.
