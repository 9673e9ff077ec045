/**
 * What the forest builder guarantees, proved about its specification in
 * AssetForest: the shape of every materialised node (ancestor list, rewritten
 * location, no ignored record on the way down), which records become children
 * and roots and in which order, which slots of the batch are rewritten, and why
 * cycles are never reached.
 */
module AssetProperties {
  import opened Wrappers
  import opened AssetRecords
  import opened AssetIndex
  import opened AssetForest
  import opened AssetWrites

  /** A materialised subtree as the builder promises it: the node belongs to the
      owner, passed the
      ignore rule and so did every ancestor it lists; each child lists this node's
      ancestors followed by this node, carries the location of the root ancestor,
      and is itself such a subtree. */
  ghost predicate Chained(n: MyAsset, ownerID: int)
    decreases n
  {
    && n.ownerID == ownerID
    && !IgnoreAsset(n.raw, ownerID)
    && (forall p :: p in n.parents ==> !IgnoreAsset(p, ownerID))
    && (forall c :: c in n.assets ==>
          && c.parents == n.parents + [n.raw]
          && c.raw.locationID == (n.parents + [n.raw])[0].locationID
          && Chained(c, ownerID))
  }

  /** Every slot in `ks` is a slot of the batch. */
  predicate InBatch(s: seq<RawAsset>, ks: seq<nat>)
  {
    forall j :: 0 <= j < |ks| ==> ks[j] < |s|
  }

  /** The slots in `ks`, in order, whose records pass the ignore rule once
      relocated below the ancestors `parents`; with no ancestors, as they stand. */
  function Kept(s: seq<RawAsset>, ks: seq<nat>, parents: seq<RawAsset>, ownerID: int): (kept: seq<nat>)
    requires InBatch(s, ks)
    ensures InBatch(s, kept)
  {
    if ks == [] then []
    else
      var last := ks[|ks| - 1];
      Kept(s, ks[..|ks| - 1], parents, ownerID)
        + (if IgnoreAsset(Relocated(s[last], parents), ownerID) then [] else [last])
  }

  /** The records in slots `ks`, in order, relocated below the ancestors `parents`. */
  function RelocatedAll(s: seq<RawAsset>, ks: seq<nat>, parents: seq<RawAsset>): (recs: seq<RawAsset>)
    requires InBatch(s, ks)
    ensures |recs| == |ks|
    ensures forall j :: 0 <= j < |ks| ==> recs[j] == Relocated(s[ks[j]], parents)
  {
    if ks == [] then [] else RelocatedAll(s, ks[..|ks| - 1], parents) + [Relocated(s[ks[|ks| - 1]], parents)]
  }

  /** The records the nodes carry, in order. */
  function RawsOf(nodes: seq<MyAsset>): (recs: seq<RawAsset>)
    ensures |recs| == |nodes|
    ensures forall k :: 0 <= k < |nodes| ==> recs[k] == nodes[k].raw
  {
    if nodes == [] then [] else RawsOf(nodes[..|nodes| - 1]) + [nodes[|nodes| - 1].raw]
  }

  /** Node `n` is what the builder makes of slot `k` at every depth: it carries
      the slot's record relocated below its ancestors, and its children are, in
      order, made from exactly the slots of the item's child list whose records
      pass the ignore rule below it, each attached below `n`. */
  ghost predicate BuiltFrom(n: MyAsset, s: seq<RawAsset>, cm: map<int, seq<nat>>, ownerID: int, k: nat)
    decreases n
  {
    && k < |s|
    && n.raw == Relocated(s[k], n.parents)
    && s[k].itemID in cm
    && InBatch(s, cm[s[k].itemID])
    && BuiltAll(n.assets, s, cm, ownerID, Kept(s, cm[s[k].itemID], n.parents + [n.raw], ownerID), n.parents + [n.raw])
  }

  /** The nodes are, in order, built from slots `ks`, each attached below the
      ancestors `parents`. */
  ghost predicate BuiltAll(nodes: seq<MyAsset>, s: seq<RawAsset>, cm: map<int, seq<nat>>, ownerID: int,
                           ks: seq<nat>, parents: seq<RawAsset>)
    decreases nodes
  {
    |nodes| == |ks| && forall j :: 0 <= j < |ks| ==> nodes[j].parents == parents && BuiltFrom(nodes[j], s, cm, ownerID, ks[j])
  }

  lemma RelocatedIgnoresOldLocation(s: seq<RawAsset>, t: seq<RawAsset>, c: nat, parents: seq<RawAsset>)
    requires OnlyLocationChanged(s, t) && c < |s| && parents != []
    ensures Relocated(t[c], parents) == Relocated(s[c], parents)
  {
  }

  lemma {:induction false} KeptStable(s: seq<RawAsset>, t: seq<RawAsset>, ks: seq<nat>,
                                      parents: seq<RawAsset>, ownerID: int)
    requires OnlyLocationChanged(s, t) && parents != [] && InBatch(s, ks)
    ensures Kept(s, ks, parents, ownerID) == Kept(t, ks, parents, ownerID)
  {
    if ks != [] {
      KeptStable(s, t, ks[..|ks| - 1], parents, ownerID);
      RelocatedIgnoresOldLocation(s, t, ks[|ks| - 1], parents);
    }
  }

  lemma BuiltAppend(a: seq<MyAsset>, b: seq<MyAsset>, s: seq<RawAsset>, cm: map<int, seq<nat>>, ownerID: int,
                    ka: seq<nat>, kb: seq<nat>, parents: seq<RawAsset>)
    requires BuiltAll(a, s, cm, ownerID, ka, parents) && BuiltAll(b, s, cm, ownerID, kb, parents)
    ensures BuiltAll(a + b, s, cm, ownerID, ka + kb, parents)
  {
    forall j | 0 <= j < |ka + kb|
      ensures (a + b)[j].parents == parents && BuiltFrom((a + b)[j], s, cm, ownerID, (ka + kb)[j])
    {
      if j < |ka| {
        assert (a + b)[j] == a[j] && (ka + kb)[j] == ka[j];
      } else {
        assert (a + b)[j] == b[j - |ka|] && (ka + kb)[j] == kb[j - |ka|];
      }
    }
  }

  /** A node built from the content a run left behind is built from the
      content before it: the run rewrote no root and only locations of
      contained records, which relocation overwrites. */
  lemma {:induction false} BuiltFromCarry(n: MyAsset, s: seq<RawAsset>, t: seq<RawAsset>,
                                          cm: map<int, seq<nat>>, ownerID: int, k: nat)
    requires OnlyLocationChanged(s, t) && RootsKept(cm, s, t)
    requires BuiltFrom(n, t, cm, ownerID, k)
    requires n.parents == [] ==> IsRootIn(cm, k)
    ensures BuiltFrom(n, s, cm, ownerID, k)
    decreases n
  {
    if n.parents != [] {
      RelocatedIgnoresOldLocation(s, t, k, n.parents);
    }
    var kids := cm[s[k].itemID];
    KeptStable(s, t, kids, n.parents + [n.raw], ownerID);
    var kept := Kept(s, kids, n.parents + [n.raw], ownerID);
    forall j | 0 <= j < |kept| ensures BuiltFrom(n.assets[j], s, cm, ownerID, kept[j]) {
      BuiltFromCarry(n.assets[j], s, t, cm, ownerID, kept[j]);
    }
    assert BuiltAll(n.assets, s, cm, ownerID, kept, n.parents + [n.raw]);
  }

  /** Nodes built from slots `ks` below the same ancestors carry, in order, the
      records of those slots relocated below them. */
  lemma {:induction false} BuiltRaws(nodes: seq<MyAsset>, s: seq<RawAsset>, cm: map<int, seq<nat>>, ownerID: int,
                                     ks: seq<nat>, parents: seq<RawAsset>)
    requires InBatch(s, ks) && BuiltAll(nodes, s, cm, ownerID, ks, parents)
    ensures RawsOf(nodes) == RelocatedAll(s, ks, parents)
  {
    forall j | 0 <= j < |ks| ensures RawsOf(nodes)[j] == RelocatedAll(s, ks, parents)[j] {
      assert BuiltFrom(nodes[j], s, cm, ownerID, ks[j]);
    }
  }

  lemma SplitLast(q: seq<nat>)
    requires |q| > 0
    ensures q == q[..|q| - 1] + [q[|q| - 1]]
  {
  }

  /** The nodes a loop has built so far, followed by the node it makes of slot
      `last` on the content `t` it has left, if any, are built from the kept
      slots among the slots so far and `last`. */
  lemma NodesAppend(s: seq<RawAsset>, t: seq<RawAsset>, cm: map<int, seq<nat>>, ownerID: int,
                    front: seq<nat>, last: nat, parents: seq<RawAsset>, nodes: seq<MyAsset>, child: Option<MyAsset>)
    requires OnlyLocationChanged(s, t) && RootsKept(cm, s, t) && InBatch(s, front) && last < |s|
    requires parents == [] ==> IsRootIn(cm, last)
    requires BuiltAll(nodes, s, cm, ownerID, Kept(s, front, parents, ownerID), parents)
    requires child.Some? <==> !IgnoreAsset(Relocated(t[last], parents), ownerID)
    requires child.Some? ==> child.value.parents == parents && BuiltFrom(child.value, t, cm, ownerID, last)
    ensures InBatch(s, front + [last])
    ensures var all := nodes + (if child.Some? then [child.value] else []);
            var kept := Kept(s, front + [last], parents, ownerID);
            BuiltAll(all, s, cm, ownerID, kept, parents) && RawsOf(all) == RelocatedAll(s, kept, parents)
  {
    var ks := front + [last];
    assert ks[..|ks| - 1] == front && ks[|ks| - 1] == last;
    assert InBatch(s, ks);
    if parents != [] {
      RelocatedIgnoresOldLocation(s, t, last, parents);
    }
    var extra, keptExtra := if child.Some? then [child.value] else [], if child.Some? then [last] else [];
    assert Kept(s, ks, parents, ownerID) == Kept(s, front, parents, ownerID) + keptExtra;
    if child.Some? {
      BuiltFromCarry(child.value, s, t, cm, ownerID, last);
    }
    assert BuiltAll(extra, s, cm, ownerID, keptExtra, parents);
    BuiltAppend(nodes, extra, s, cm, ownerID, Kept(s, front, parents, ownerID), keptExtra, parents);
    BuiltRaws(nodes + extra, s, cm, ownerID, Kept(s, ks, parents, ownerID), parents);
  }

  /** Shape of one materialisation: the node exists exactly when the relocated
      record passes the ignore rule; it carries that record and the ancestor list
      built from its parent; its subtree is Chained and is built from slot `i`
      at every depth; its children carry, in input order, exactly the relocated
      child records that pass the ignore rule. */
  lemma {:induction false} DeepShape(s: seq<RawAsset>, ownerID: int, cm: map<int, seq<nat>>, i: nat,
                                     parent: Option<MyAsset>, path: seq<nat>)
    requires WellIndexed(s, cm, ownerID) && Chain(ItemIDs(s), cm, path + [i]) && LivePath(s, ownerID, path)
    requires parent.None? <==> path == []
    requires forall p :: p in ParentsOf(parent) ==> !IgnoreAsset(p, ownerID)
    ensures i < |s| && InBatch(s, cm[ItemIDs(s)[i]])
    ensures var parents := ParentsOf(parent);
            var rec := Relocated(s[i], parents);
            var r := Deep(s, ownerID, cm, i, parent, path);
            && (r.0.Some? <==> !IgnoreAsset(rec, ownerID))
            && (r.0.Some? ==>
                  && r.0.value.raw == rec
                  && r.0.value.parents == parents
                  && Chained(r.0.value, ownerID)
                  && BuiltFrom(r.0.value, s, cm, ownerID, i)
                  && RawsOf(r.0.value.assets)
                       == RelocatedAll(s, Kept(s, cm[ItemIDs(s)[i]], parents + [rec], ownerID), parents + [rec]))
    decreases Unvisited(|s|, path), 0, 0
  {
    DeepStep(s, ownerID, cm, i, parent, path);
    var ids := ItemIDs(s);
    var kids := cm[ids[i]];
    assert InBatch(s, kids) by {
      forall j | 0 <= j < |kids| ensures kids[j] < |s| {
        assert kids[j] in cm[ids[i]];
      }
    }
    var parents := ParentsOf(parent);
    var rec := Relocated(s[i], parents);
    var asset := Materialize(rec, ownerID, parents);
    if asset.Some? {
      UnvisitedShrinks(s, cm, ownerID, path, i);
      var s1 := s[i := rec];
      var self := asset.value;
      Descend(s, ownerID, cm, i, parent, path);
      DeepChildrenShape(s1, ownerID, cm, kids, self, path + [i]);
      var res := DeepChildren(s1, ownerID, cm, kids, self, path + [i]);
      var n := Deep(s, ownerID, cm, i, parent, path).0.value;
      assert n == self.(assets := res.0);
      assert ParentsOf(Some(self)) == n.parents + [n.raw];
      BuiltNode(n, s, s1, cm, ownerID, i);
    }
  }

  /** The node a materialisation returns, from the children its loop made on the
      rewritten content `t`. */
  lemma BuiltNode(n: MyAsset, s: seq<RawAsset>, t: seq<RawAsset>, cm: map<int, seq<nat>>, ownerID: int, i: nat)
    requires OnlyLocationChanged(s, t) && RootsKept(cm, s, t) && i < |s|
    requires n.raw == Relocated(s[i], n.parents) && s[i].itemID in cm && InBatch(s, cm[s[i].itemID])
    requires BuiltAll(n.assets, t, cm, ownerID, Kept(t, cm[s[i].itemID], n.parents + [n.raw], ownerID), n.parents + [n.raw])
    ensures BuiltFrom(n, s, cm, ownerID, i)
    ensures RawsOf(n.assets) == RelocatedAll(s, Kept(s, cm[s[i].itemID], n.parents + [n.raw], ownerID), n.parents + [n.raw])
  {
    var ps := n.parents + [n.raw];
    KeptStable(s, t, cm[s[i].itemID], ps, ownerID);
    var kept := Kept(s, cm[s[i].itemID], ps, ownerID);
    forall j | 0 <= j < |kept| ensures BuiltFrom(n.assets[j], s, cm, ownerID, kept[j]) {
      BuiltFromCarry(n.assets[j], s, t, cm, ownerID, kept[j]);
    }
    BuiltRaws(n.assets, s, cm, ownerID, kept, ps);
  }

  lemma {:induction false} DeepChildrenShape(s: seq<RawAsset>, ownerID: int, cm: map<int, seq<nat>>, kids: seq<nat>,
                                             parent: MyAsset, path: seq<nat>)
    requires WellIndexed(s, cm, ownerID) && Chain(ItemIDs(s), cm, path) && LivePath(s, ownerID, path)
    requires forall j :: 0 <= j < |kids| ==> Chain(ItemIDs(s), cm, path + [kids[j]])
    requires forall p :: p in ParentsOf(Some(parent)) ==> !IgnoreAsset(p, ownerID)
    ensures InBatch(s, kids)
    ensures var parents := ParentsOf(Some(parent));
            var r := DeepChildren(s, ownerID, cm, kids, parent, path);
            var kept := Kept(s, kids, parents, ownerID);
            && (forall a :: a in r.0 ==>
                  a.parents == parents && a.raw.locationID == parents[0].locationID && Chained(a, ownerID))
            && BuiltAll(r.0, s, cm, ownerID, kept, parents)
            && RawsOf(r.0) == RelocatedAll(s, kept, parents)
    decreases Unvisited(|s|, path), 1, |kids|
  {
    forall j | 0 <= j < |kids| ensures kids[j] < |s| {
      ChainLast(ItemIDs(s), cm, path + [kids[j]]);
    }
    var parents := ParentsOf(Some(parent));
    if kids != [] {
      var k := |kids| - 1;
      DeepChildrenStep(s, ownerID, cm, kids, parent, path, k);
      assert kids[..k + 1] == kids;
      var front, last := kids[..k], kids[k];
      var pre := DeepChildren(s, ownerID, cm, front, parent, path);
      DeepChildrenShape(s, ownerID, cm, front, parent, path);
      DeepShape(pre.1, ownerID, cm, last, Some(parent), path);
      RelocatedIgnoresOldLocation(s, pre.1, last, parents);
      var child := Deep(pre.1, ownerID, cm, last, Some(parent), path);
      var r := DeepChildren(s, ownerID, cm, kids, parent, path);
      assert r.0 == pre.0 + (if child.0.Some? then [child.0.value] else []);
      SplitLast(kids);
      NodesAppend(s, pre.1, cm, ownerID, front, last, parents, pre.0, child.0);
    } else {
      assert DeepChildren(s, ownerID, cm, kids, parent, path).0 == [];
    }
  }

  /** Which slots one materialisation rewrites: its own slot takes the
      relocated record, a root slot and a slot on the path of ancestors never
      change, and every other slot either keeps its record or takes over the
      location of the root the descent started from (DeepWrites says which). */
  lemma DeepFrame(s: seq<RawAsset>, ownerID: int, cm: map<int, seq<nat>>, i: nat,
                  parent: Option<MyAsset>, path: seq<nat>)
    requires WellIndexed(s, cm, ownerID) && Chain(ItemIDs(s), cm, path + [i]) && LivePath(s, ownerID, path)
    requires parent.None? <==> path == []
    ensures i < |s|
    ensures var r := Deep(s, ownerID, cm, i, parent, path);
            var loc := RootLocation(s, i, parent);
            && r.1[i] == Relocated(s[i], ParentsOf(parent))
            && (forall j :: 0 <= j < |s| && IsRootIn(cm, j) ==> r.1[j] == s[j])
            && (forall x :: x in path ==> r.1[x] == s[x])
            && (forall j :: 0 <= j < |s| ==> r.1[j] == s[j] || r.1[j] == s[j].(locationID := loc))
  {
    DeepWrites(s, ownerID, cm, i, parent, path);
    var loc := RootLocation(s, i, parent);
    forall x | x in path ensures x < |s| && !Reached(s, ownerID, cm, i, loc, x) {
      ChainLast(ItemIDs(s), cm, path + [i]);
      ReachAvoidsPath(s, ownerID, cm, path, i, loc, x);
    }
  }

  /** A run that keeps root slots and otherwise takes locations in `earlier`,
      followed by one that keeps root slots and otherwise takes location `loc`,
      keeps root slots and otherwise takes locations in `all`. */
  lemma FrameAfterRun(cm: map<int, seq<nat>>, s: seq<RawAsset>, pre: seq<RawAsset>, t: seq<RawAsset>,
                      earlier: set<int>, all: set<int>, loc: int)
    requires |pre| == |s| && |t| == |s|
    requires forall j :: 0 <= j < |s| && IsRootIn(cm, j) ==> pre[j] == s[j]
    requires forall j :: 0 <= j < |s| ==> pre[j] == s[j] || pre[j].locationID in earlier
    requires forall j :: 0 <= j < |pre| && IsRootIn(cm, j) ==> t[j] == pre[j]
    requires forall j :: 0 <= j < |pre| ==> t[j] == pre[j] || t[j] == pre[j].(locationID := loc)
    requires earlier <= all && loc in all
    ensures forall j :: 0 <= j < |s| && IsRootIn(cm, j) ==> t[j] == s[j]
    ensures forall j :: 0 <= j < |s| ==> t[j] == s[j] || t[j].locationID in all
  {
  }

  /** The root locations of the batch. */
  function RootLocations(s: seq<RawAsset>, roots: seq<nat>): set<int>
    requires forall j :: 0 <= j < |roots| ==> roots[j] < |s|
  {
    set k | 0 <= k < |roots| :: s[roots[k]].locationID
  }

  /** The loop over the roots: every produced tree starts at an unchanged root
      record with no ancestors, is Chained and is built from its root slot at
      every depth, and the trees are exactly those of the roots that pass the
      ignore rule, in order. */
  lemma {:induction false} ForestRunShape(s: seq<RawAsset>, ownerID: int, cm: map<int, seq<nat>>, roots: seq<nat>)
    requires WellIndexed(s, cm, ownerID)
    requires forall j :: 0 <= j < |roots| ==> Chain(ItemIDs(s), cm, [roots[j]])
    ensures InBatch(s, roots)
    ensures var r := ForestRun(s, ownerID, cm, roots);
            var kept := Kept(s, roots, [], ownerID);
            && (forall a :: a in r.0 ==> a.parents == [] && a.raw in s && Chained(a, ownerID))
            && BuiltAll(r.0, s, cm, ownerID, kept, [])
            && RawsOf(r.0) == RelocatedAll(s, kept, [])
    decreases |roots|
  {
    forall j | 0 <= j < |roots| ensures roots[j] < |s| {
      ChainLast(ItemIDs(s), cm, [roots[j]]);
    }
    if roots != [] {
      ForestRunShape(s, ownerID, cm, roots[..|roots| - 1]);
      ForestRunLast(s, ownerID, cm, roots);
    } else {
      assert ForestRun(s, ownerID, cm, roots).0 == [];
    }
  }

  /** One step of the loop over the roots: the trees so far, followed by the tree
      of the last root if it is retained. */
  lemma ForestRunLast(s: seq<RawAsset>, ownerID: int, cm: map<int, seq<nat>>, roots: seq<nat>)
    requires WellIndexed(s, cm, ownerID) && |roots| > 0 && InBatch(s, roots)
    requires forall j :: 0 <= j < |roots| ==> Chain(ItemIDs(s), cm, [roots[j]])
    requires var front := roots[..|roots| - 1];
             var pre := ForestRun(s, ownerID, cm, front);
             && (forall a :: a in pre.0 ==> a.parents == [] && a.raw in s && Chained(a, ownerID))
             && BuiltAll(pre.0, s, cm, ownerID, Kept(s, front, [], ownerID), [])
    ensures var r := ForestRun(s, ownerID, cm, roots);
            var kept := Kept(s, roots, [], ownerID);
            && (forall a :: a in r.0 ==> a.parents == [] && a.raw in s && Chained(a, ownerID))
            && BuiltAll(r.0, s, cm, ownerID, kept, [])
            && RawsOf(r.0) == RelocatedAll(s, kept, [])
  {
    var k := |roots| - 1;
    ForestRunStep(s, ownerID, cm, roots, k);
    assert roots[..k + 1] == roots;
    var front, last := roots[..k], roots[k];
    var pre := ForestRun(s, ownerID, cm, front);
    assert [] + [last] == [last];
    DeepShape(pre.1, ownerID, cm, last, None, []);
    var tree := Deep(pre.1, ownerID, cm, last, None, []);
    assert IsRootIn(cm, last);
    assert pre.1[last] == s[last];
    assert ForestRun(s, ownerID, cm, roots).0 == pre.0 + (if tree.0.Some? then [tree.0.value] else []);
    if tree.0.Some? {
      assert tree.0.value.raw == s[last] && s[last] in s;
    }
    RootsAppend(s, ownerID, pre.0, tree.0);
    SplitLast(roots);
    NodesAppend(s, pre.1, cm, ownerID, front, last, [], pre.0, tree.0);
  }

  lemma RootsAppend(s: seq<RawAsset>, ownerID: int, nodes: seq<MyAsset>, tree: Option<MyAsset>)
    requires forall a :: a in nodes ==> a.parents == [] && a.raw in s && Chained(a, ownerID)
    requires tree.Some? ==> tree.value.parents == [] && tree.value.raw in s && Chained(tree.value, ownerID)
    ensures forall a :: a in nodes + (if tree.Some? then [tree.value] else []) ==>
              a.parents == [] && a.raw in s && Chained(a, ownerID)
  {
  }

  /** The loop over the roots keeps every root slot's record, every other slot
      keeps its record or takes over a root's location, and each slot ends as
      the last root that reaches it leaves it (ForestRunWrites). */
  lemma {:induction false} ForestRunFrame(s: seq<RawAsset>, ownerID: int, cm: map<int, seq<nat>>, roots: seq<nat>)
    requires WellIndexed(s, cm, ownerID)
    requires forall j :: 0 <= j < |roots| ==> Chain(ItemIDs(s), cm, [roots[j]])
    ensures forall j :: 0 <= j < |roots| ==> roots[j] < |s|
    ensures var r := ForestRun(s, ownerID, cm, roots);
            && (forall j :: 0 <= j < |s| && IsRootIn(cm, j) ==> r.1[j] == s[j])
            && (forall j :: 0 <= j < |s| ==> r.1[j] == s[j] || r.1[j].locationID in RootLocations(s, roots))
            && (forall j :: 0 <= j < |s| ==> r.1[j] == LeftBy(s, ownerID, cm, roots, j))
    decreases |roots|
  {
    ForestRunWrites(s, ownerID, cm, roots);
    forall j | 0 <= j < |roots| ensures roots[j] < |s| {
      ChainLast(ItemIDs(s), cm, [roots[j]]);
    }
    if roots != [] {
      var k := |roots| - 1;
      ForestRunStep(s, ownerID, cm, roots, k);
      assert roots[..k + 1] == roots;
      var front, last := roots[..k], roots[k];
      var pre := ForestRun(s, ownerID, cm, front);
      ForestRunFrame(s, ownerID, cm, front);
      assert [] + [last] == [last];
      DeepFrame(pre.1, ownerID, cm, last, None, []);
      assert pre.1[last] == s[last];
      var after := Deep(pre.1, ownerID, cm, last, None, []).1;
      assert ForestRun(s, ownerID, cm, roots).1 == after;
      assert RootLocations(s, front) <= RootLocations(s, roots) by {
        forall x | x in RootLocations(s, front) ensures x in RootLocations(s, roots) {
          var m :| 0 <= m < |front| && s[front[m]].locationID == x;
          assert roots[m] == front[m];
        }
      }
      var loc := s[last].locationID;
      assert loc in RootLocations(s, roots);
      assert RootLocation(pre.1, last, None) == loc;
      FrameAfterRun(cm, s, pre.1, after, RootLocations(s, front), RootLocations(s, roots), loc);
    }
  }

  /** The converter's promise for a batch it finishes: it returns the trees of
      the retained roots in input order, each root unchanged and without
      ancestors, each tree Chained and built from its root slot at every depth;
      it never rewrites a root record, every record it rewrites takes over the
      location of some root, and each record ends as the last root that reaches
      it leaves it (UniqueIdsForestWrites: with unique item IDs, as the one root
      that reaches it leaves it). */
  lemma ForestShape(s: seq<RawAsset>, ownerID: int)
    requires Terminating(s, ownerID)
    ensures InBatch(s, RootIndices(s))
    ensures var r := Forest(s, ownerID);
            var kept := Kept(s, RootIndices(s), [], ownerID);
            && (forall a :: a in r.0 ==> a.parents == [] && a.raw in s && Chained(a, ownerID))
            && BuiltAll(r.0, s, ChildMap(s), ownerID, kept, [])
            && RawsOf(r.0) == RelocatedAll(s, kept, [])
            && (forall j :: 0 <= j < |s| && s[j].locationID !in IdSet(s) ==> r.1[j] == s[j])
            && (forall j :: 0 <= j < |s| ==> r.1[j] == s[j] || r.1[j].locationID in RootLocations(s, RootIndices(s)))
            && (forall j :: 0 <= j < |s| ==> r.1[j] == LeftBy(s, ownerID, ChildMap(s), RootIndices(s), j))
  {
    IndexShapedAlways(s);
    ForestRunShape(s, ownerID, ChildMap(s), RootIndices(s));
    ForestRunFrame(s, ownerID, ChildMap(s), RootIndices(s));
    forall j | 0 <= j < |s| && s[j].locationID !in IdSet(s) ensures IsRootIn(ChildMap(s), j) {
      RootIndicesExactly(s);
      RootOrChild(s, j);
    }
  }

  /** With unique item IDs the final batch is determined slot by slot: a record
      that the descent from some root reaches has taken over that root's
      location and kept all its other fields, and a record no root reaches is
      unchanged. */
  lemma UniqueIdsForestWrites(s: seq<RawAsset>, ownerID: int)
    requires UniqueIds(ItemIDs(s))
    ensures Terminating(s, ownerID)
    ensures var r := Forest(s, ownerID);
            var roots := RootIndices(s);
            && InBatch(s, roots)
            && (forall j, m :: 0 <= j < |s| && 0 <= m < |roots|
                  && Reached(s, ownerID, ChildMap(s), roots[m], s[roots[m]].locationID, j)
                  ==> r.1[j] == s[j].(locationID := s[roots[m]].locationID))
            && (forall j :: 0 <= j < |s|
                  && (forall m :: 0 <= m < |roots| ==> !Reached(s, ownerID, ChildMap(s), roots[m], s[roots[m]].locationID, j))
                  ==> r.1[j] == s[j])
  {
    UniqueIdsTerminate(s, ownerID);
    IndexShapedAlways(s);
    ForestShape(s, ownerID);
    var cm, roots := ChildMap(s), RootIndices(s);
    forall j, m | 0 <= j < |s| && 0 <= m < |roots| && Reached(s, ownerID, cm, roots[m], s[roots[m]].locationID, j)
      ensures Forest(s, ownerID).1[j] == s[j].(locationID := s[roots[m]].locationID)
    {
      UniqueIdsLeftBy(s, ownerID, cm, roots, m, j);
    }
    forall j | 0 <= j < |s| && (forall m :: 0 <= m < |roots| ==> !Reached(s, ownerID, cm, roots[m], s[roots[m]].locationID, j))
      ensures Forest(s, ownerID).1[j] == s[j]
    {
      UnreachedLeftBy(s, ownerID, cm, roots, j);
    }
  }

  /** Positions `c` whose records contain one another in a ring: each record's
      location is the item ID of the one before it, and the first record's
      location is the item ID of the last. */
  predicate LocationCycle(s: seq<RawAsset>, c: seq<nat>)
  {
    && |c| > 0
    && (forall k :: 0 <= k < |c| ==> c[k] < |s|)
    && (forall k :: 0 <= k < |c| ==> s[c[k]].locationID == s[c[(k + |c| - 1) % |c|]].itemID)
  }

  lemma {:induction false} CycleNotOnChainAt(s: seq<RawAsset>, c: seq<nat>, p: seq<nat>, m: nat, t: nat)
    requires UniqueIds(ItemIDs(s)) && LocationCycle(s, c) && Chain(ItemIDs(s), ChildMap(s), p)
    requires m < |p| && t < |c|
    ensures p[m] != c[t]
    decreases m
  {
    var prev := (t + |c| - 1) % |c|;
    assert s[c[t]].locationID == s[c[prev]].itemID;
    if p[m] == c[t] {
      if m == 0 {
        RootOrChild(s, p[0]);
        RootIndicesExactly(s);
        assert false;
      } else {
        var id := ItemIDs(s)[p[m - 1]];
        assert id in ChildMap(s) && p[m] in ChildMap(s)[id];
        InChildMap(s, id, p[m]);
        assert s[p[m - 1]].itemID == s[c[prev]].itemID;
        assert p[m - 1] == c[prev];
        CycleNotOnChainAt(s, c, p, m - 1, prev);
        assert false;
      }
    }
  }

  /** With unique item IDs, records that contain one another in a ring are on
      no descent path from a root, and none of them is a root. */
  lemma CycleNeverVisited(s: seq<RawAsset>, c: seq<nat>)
    requires UniqueIds(ItemIDs(s)) && LocationCycle(s, c)
    ensures forall p, m, t :: Chain(ItemIDs(s), ChildMap(s), p) && 0 <= m < |p| && 0 <= t < |c| ==> p[m] != c[t]
    ensures forall t :: 0 <= t < |c| ==> c[t] !in RootIndices(s)
  {
    forall p, m, t | Chain(ItemIDs(s), ChildMap(s), p) && 0 <= m < |p| && 0 <= t < |c| ensures p[m] != c[t] {
      CycleNotOnChainAt(s, c, p, m, t);
    }
    forall t | 0 <= t < |c| ensures c[t] !in RootIndices(s) {
      var prev := (t + |c| - 1) % |c|;
      assert s[c[t]].locationID == s[c[prev]].itemID;
      RootIndicesExactly(s);
      assert s[c[prev]].itemID in IdSet(s);
    }
  }

  /** The index of a batch in which records 0 and 1 share item ID 1 and the
      second one is stored inside item 1: record 0 is the only root, and the
      one child list holds record 1, so every descent is 0, 1, 1, ... */
  lemma RevisitIndex(s: seq<RawAsset>, flagID: int)
    requires s == [RawAsset(1, 100, 0, 0, 1), RawAsset(1, 1, 0, flagID, 1)]
    ensures var cm := ChildMap(s);
            && !UniqueIds(ItemIDs(s))
            && RootIndices(s) == [0]
            && cm == map[1 := [1]]
            && Chain(ItemIDs(s), cm, [0])
            && forall p :: Chain(ItemIDs(s), cm, p) ==> p[0] == 0 && forall k :: 0 < k < |p| ==> p[k] == 1
  {
    var ids := ItemIDs(s);
    assert ids[0] == ids[1];
    assert IdSet(s) == {1} by {
      assert s[0].itemID == 1 && s[1].itemID == 1;
    }
    assert ChildrenUpTo(s, 1, 1) == [];
    assert ChildrenUpTo(s, 1, 2) == [1];
    assert RootsUpTo(s, 1) == [0];
    assert RootsUpTo(s, 2) == [0];
    var cm := ChildMap(s);
    assert cm == map[1 := [1]];
    assert IsRootIn(cm, 0);
    forall p | Chain(ids, cm, p) ensures p[0] == 0 && forall k :: 0 < k < |p| ==> p[k] == 1 {
      assert p[0] != 1 by {
        assert IsRootIn(cm, p[0]);
        assert 1 in cm[1];
      }
      forall k | 0 < k < |p| ensures p[k] == 1 {
        assert p[k] in cm[ids[p[k - 1]]];
      }
    }
  }

  /** A duplicate item ID can make the recursion unbounded: in the batch of
      RevisitIndex with no record ignored, the descent 0, 1, 1, ... through
      kept records has no last step. In Java it ends in a StackOverflowError
      thrown out of convertRawAssets; the model gives no result for the batch. */
  lemma DuplicateIdRevisits(ownerID: int)
    requires ownerID != 100
    ensures var s := [RawAsset(1, 100, 0, 0, 1), RawAsset(1, 1, 0, 0, 1)];
            && !UniqueIds(ItemIDs(s))
            && RootIndices(s) == [0]
            && ChildMap(s)[s[0].itemID] == [1]
            && ChildMap(s)[s[1].itemID] == [1]
            && Chain(ItemIDs(s), ChildMap(s), [0, 1, 1])
            && LivePath(s, ownerID, [0, 1, 1])
            && !Terminating(s, ownerID)
  {
    var s := [RawAsset(1, 100, 0, 0, 1), RawAsset(1, 1, 0, 0, 1)];
    RevisitIndex(s, 0);
    RevisitLive(s, ChildMap(s), ownerID);
  }

  /** The endless descent of DuplicateIdRevisits, on its index. */
  lemma RevisitLive(s: seq<RawAsset>, cm: map<int, seq<nat>>, ownerID: int)
    requires s == [RawAsset(1, 100, 0, 0, 1), RawAsset(1, 1, 0, 0, 1)]
    requires cm == map[1 := [1]] && ownerID != 100
    ensures Chain(ItemIDs(s), cm, [0, 1, 1]) && LivePath(s, ownerID, [0, 1, 1]) && !RepeatFree([0, 1, 1])
  {
    var p: seq<nat> := [0, 1, 1];
    assert ItemIDs(s)[0] == 1 && ItemIDs(s)[1] == 1;
    assert IsRootIn(cm, 0);
    assert p[1] == p[2];
  }

  /** The loop over a single root: its tree, if the root is retained, and the
      content its descent leaves. */
  lemma ForestRunOne(s: seq<RawAsset>, ownerID: int, cm: map<int, seq<nat>>, r: nat)
    requires WellIndexed(s, cm, ownerID) && Chain(ItemIDs(s), cm, [r])
    ensures Chain(ItemIDs(s), cm, [] + [r])
    ensures var tree := Deep(s, ownerID, cm, r, None, []);
            ForestRun(s, ownerID, cm, [r]) == ((if tree.0.Some? then [tree.0.value] else []), tree.1)
  {
    ForestRunStep(s, ownerID, cm, [r], 0);
    assert [r][..1] == [r] && [r][..0] == [] && [] + [r] == [r];
    assert ForestRun(s, ownerID, cm, []) == ([], s);
    var tree := Deep(s, ownerID, cm, r, None, []);
    var none: seq<MyAsset> := [];
    assert none + (if tree.0.Some? then [tree.0.value] else []) == (if tree.0.Some? then [tree.0.value] else []);
  }

  /** The same batch with the inner record a skill: the descent reaches record 1
      once, rewrites its location to the root's and drops it, so the converter
      finishes and returns the root alone, although record 1 lies in its own
      child list. */
  lemma IgnoredRevisitFinishes(ownerID: int)
    requires ownerID != 100
    ensures var s := [RawAsset(1, 100, 0, 0, 1), RawAsset(1, 1, 0, SkillFlag, 1)];
            && !UniqueIds(ItemIDs(s))
            && Chain(ItemIDs(s), ChildMap(s), [0, 1, 1])
            && Terminating(s, ownerID)
            && Forest(s, ownerID) == ([MyAsset(s[0], ownerID, [], [])], s[1 := RawAsset(1, 100, 0, SkillFlag, 1)])
  {
    var s := [RawAsset(1, 100, 0, 0, 1), RawAsset(1, 1, 0, SkillFlag, 1)];
    RevisitIndex(s, SkillFlag);
    IgnoredRevisitLive(s, ChildMap(s), ownerID);
    IndexShapedAlways(s);
    IgnoredRevisitRun(s, ChildMap(s), ownerID);
  }

  /** In the batch of IgnoredRevisitFinishes the only descent through kept
      records is the root alone. */
  lemma IgnoredRevisitLive(s: seq<RawAsset>, cm: map<int, seq<nat>>, ownerID: int)
    requires s == [RawAsset(1, 100, 0, 0, 1), RawAsset(1, 1, 0, SkillFlag, 1)]
    requires cm == map[1 := [1]]
    requires forall p :: Chain(ItemIDs(s), cm, p) ==> p[0] == 0 && forall k :: 0 < k < |p| ==> p[k] == 1
    ensures Chain(ItemIDs(s), cm, [0, 1, 1])
    ensures LiveDescentsRepeatFree(s, cm, ownerID)
  {
    assert ItemIDs(s)[0] == 1 && ItemIDs(s)[1] == 1;
    assert IsRootIn(cm, 0);
    assert Chain(ItemIDs(s), cm, [0, 1, 1]);
    forall p | Chain(ItemIDs(s), cm, p) && LivePath(s, ownerID, p) ensures RepeatFree(p) {
      assert |p| < 2 by {
        if |p| >= 2 {
          assert p[1] == 1;
          assert OnBody(s[p[1]].flagID);
        }
      }
    }
  }

  /** The converter's run on the batch of IgnoredRevisitFinishes, on its index. */
  lemma IgnoredRevisitRun(s: seq<RawAsset>, cm: map<int, seq<nat>>, ownerID: int)
    requires s == [RawAsset(1, 100, 0, 0, 1), RawAsset(1, 1, 0, SkillFlag, 1)]
    requires cm == map[1 := [1]] && WellIndexed(s, cm, ownerID) && Chain(ItemIDs(s), cm, [0])
    requires ownerID != 100
    ensures ForestRun(s, ownerID, cm, [0]) == ([MyAsset(s[0], ownerID, [], [])], s[1 := RawAsset(1, 100, 0, SkillFlag, 1)])
  {
    ForestRunOne(s, ownerID, cm, 0);
    SkillChildDropped(s, cm, ownerID, s[1 := RawAsset(1, 100, 0, SkillFlag, 1)]);
  }

  /** A kept root whose one child is an on-the-body record: the child is
      relocated to the root's location and dropped. */
  lemma SkillChildDropped(s: seq<RawAsset>, cm: map<int, seq<nat>>, ownerID: int, t: seq<RawAsset>)
    requires |s| == 2 && s[0].itemID == 1 && s[0].flagID == 0 && s[1].itemID == 1 && OnBody(s[1].flagID)
    requires cm == map[1 := [1]] && WellIndexed(s, cm, ownerID) && Chain(ItemIDs(s), cm, [0])
    requires ownerID != s[0].locationID
    requires t == s[1 := s[1].(locationID := s[0].locationID)]
    ensures Deep(s, ownerID, cm, 0, None, []) == (Some(MyAsset(s[0], ownerID, [], [])), t)
  {
    assert [] + [0] == [0];
    DeepStep(s, ownerID, cm, 0, None, []);
    assert ItemIDs(s)[0] == 1;
    assert s[0 := s[0]] == s;
    assert !IgnoreAsset(s[0], ownerID);
    var a := MyAsset(s[0], ownerID, [], []);
    var kids := DeepChildren(s, ownerID, cm, [1], a, [0]);
    assert Deep(s, ownerID, cm, 0, None, []) == (Some(a.(assets := kids.0)), kids.1);
    SkillChildLoop(s, cm, ownerID, a, t);
  }

  /** The loop over the one child slot of SkillChildDropped's root. */
  lemma SkillChildLoop(s: seq<RawAsset>, cm: map<int, seq<nat>>, ownerID: int, a: MyAsset, t: seq<RawAsset>)
    requires |s| == 2 && s[0].itemID == 1 && OnBody(s[1].flagID)
    requires cm == map[1 := [1]] && WellIndexed(s, cm, ownerID) && Chain(ItemIDs(s), cm, [0])
    requires LivePath(s, ownerID, [0]) && a == MyAsset(s[0], ownerID, [], [])
    requires t == s[1 := s[1].(locationID := s[0].locationID)]
    ensures forall j :: 0 <= j < |[1]| ==> Chain(ItemIDs(s), cm, [0] + [[1][j]])
    ensures DeepChildren(s, ownerID, cm, [1], a, [0]) == ([], t)
  {
    assert ItemIDs(s)[0] == 1;
    assert [0] + [1] == [0, 1];
    assert Chain(ItemIDs(s), cm, [0, 1]);
    DeepChildrenStep(s, ownerID, cm, [1], a, [0], 0);
    assert [1][..1] == [1] && [1][..0] == [];
    var pre := DeepChildren(s, ownerID, cm, [], a, [0]);
    assert pre == ([], s);
    OnBodyChildDropped(s, cm, ownerID, a, t);
    var none: seq<MyAsset> := [];
    assert none + none == none;
  }

  /** The on-the-body child of SkillChildDropped, below its root. */
  lemma OnBodyChildDropped(s: seq<RawAsset>, cm: map<int, seq<nat>>, ownerID: int, a: MyAsset, t: seq<RawAsset>)
    requires |s| == 2 && OnBody(s[1].flagID)
    requires WellIndexed(s, cm, ownerID) && Chain(ItemIDs(s), cm, [0] + [1]) && LivePath(s, ownerID, [0])
    requires a == MyAsset(s[0], ownerID, [], [])
    requires t == s[1 := s[1].(locationID := s[0].locationID)]
    ensures Deep(s, ownerID, cm, 1, Some(a), [0]) == (None, t)
  {
    assert [0] + [1] == [0, 1];
    DeepStep(s, ownerID, cm, 1, Some(a), [0]);
    assert ParentsOf(Some(a)) == [s[0]];
    assert Relocated(s[1], [s[0]]) == t[1];
    assert IgnoreAsset(t[1], ownerID);
    assert s[1 := t[1]] == t;
  }

  /** The same batch again, with the root on the owner: the root is ignored and
      nothing below it is visited, so the converter finishes at once with no
      asset and the batch unchanged, although the recursion would not end for
      any other owner (DuplicateIdRevisits). */
  lemma IgnoredRootFinishes()
    ensures var s := [RawAsset(1, 100, 0, 0, 1), RawAsset(1, 1, 0, 0, 1)];
            && !UniqueIds(ItemIDs(s))
            && Terminating(s, 100)
            && Forest(s, 100) == ([], s)
  {
    var s := [RawAsset(1, 100, 0, 0, 1), RawAsset(1, 1, 0, 0, 1)];
    RevisitIndex(s, 0);
    IgnoredRootLive(s, ChildMap(s));
    IndexShapedAlways(s);
    IgnoredRootRun(s, ChildMap(s));
  }

  /** In the batch of IgnoredRootFinishes, with the root on the owner, no
      descent is through kept records. */
  lemma IgnoredRootLive(s: seq<RawAsset>, cm: map<int, seq<nat>>)
    requires s == [RawAsset(1, 100, 0, 0, 1), RawAsset(1, 1, 0, 0, 1)]
    requires forall p :: Chain(ItemIDs(s), cm, p) ==> p[0] == 0 && forall k :: 0 < k < |p| ==> p[k] == 1
    ensures LiveDescentsRepeatFree(s, cm, 100)
  {
    forall p | Chain(ItemIDs(s), cm, p) ensures !LivePath(s, 100, p) {
      assert p[0] == 0 && IgnoreAsset(s[0], 100);
    }
  }

  /** The converter's run on the batch of IgnoredRootFinishes, on its index. */
  lemma IgnoredRootRun(s: seq<RawAsset>, cm: map<int, seq<nat>>)
    requires s == [RawAsset(1, 100, 0, 0, 1), RawAsset(1, 1, 0, 0, 1)]
    requires cm == map[1 := [1]] && WellIndexed(s, cm, 100) && Chain(ItemIDs(s), cm, [0])
    ensures ForestRun(s, 100, cm, [0]) == ([], s)
  {
    ForestRunOne(s, 100, cm, 0);
    IgnoredRootDeep(s, cm);
  }

  /** The root of that batch is on the owner and is neither materialised nor
      relocated. */
  lemma IgnoredRootDeep(s: seq<RawAsset>, cm: map<int, seq<nat>>)
    requires s == [RawAsset(1, 100, 0, 0, 1), RawAsset(1, 1, 0, 0, 1)]
    requires cm == map[1 := [1]] && WellIndexed(s, cm, 100) && Chain(ItemIDs(s), cm, [] + [0])
    ensures Deep(s, 100, cm, 0, None, []) == (None, s)
  {
    DeepStep(s, 100, cm, 0, None, []);
    assert s[0 := s[0]] == s;
    assert IgnoreAsset(s[0], 100);
  }

  /** A duplicate item ID the converter finishes with, sharing a child: records
      0 and 2 share item ID 1 and are both roots; the lookup keeps record 2, so
      record 1, stored inside item 1, is in the one child list both roots read. */
  lemma DuplicateIdSharedChild(ownerID: int)
    ensures var s := [RawAsset(1, 100, 0, 0, 1), RawAsset(2, 1, 0, 0, 1), RawAsset(1, 200, 0, 0, 1)];
            && !UniqueIds(ItemIDs(s))
            && Terminating(s, ownerID)
            && RootIndices(s) == [0, 2]
            && ChildMap(s)[s[0].itemID] == [1]
            && ChildMap(s)[s[2].itemID] == [1]
  {
    var s := [RawAsset(1, 100, 0, 0, 1), RawAsset(2, 1, 0, 0, 1), RawAsset(1, 200, 0, 0, 1)];
    var ids := ItemIDs(s);
    assert !UniqueIds(ids) by {
      assert ids[0] == ids[2];
    }
    assert IdSet(s) == {1, 2} by {
      assert s[0].itemID == 1 && s[1].itemID == 2;
    }
    assert ChildrenUpTo(s, 1, 3) == [1];
    assert ChildrenUpTo(s, 2, 3) == [];
    assert RootsUpTo(s, 3) == [0, 2];
    var cm := ChildMap(s);
    assert cm[1] == [1] && cm[2] == [];
    forall p | Chain(ids, cm, p) && LivePath(s, ownerID, p) ensures RepeatFree(p) {
      assert p[0] != 1 by {
        assert IsRootIn(cm, p[0]);
        assert 1 in cm[1];
      }
      forall k {:trigger p[k]} | 0 <= k < |p| - 1 ensures ids[p[k]] == 1 && p[k + 1] == 1 {
        assert p[k + 1] in cm[ids[p[k]]];
        assert ids[p[k]] in IdSet(s);
      }
      assert ids[1] == 2;
      if |p| > 2 {
        assert false;
      }
    }
  }

  /** What the converter makes of the batch of DuplicateIdSharedChild: both
      roots are kept, each with record 1 as its child. Record 1 is materialised
      twice: below the first root with that root's location 100, and below the
      second with 200, which is the location the record is left with. */
  lemma DuplicateIdSharedChildForest(ownerID: int)
    requires ownerID != 100 && ownerID != 200
    ensures var s := [RawAsset(1, 100, 0, 0, 1), RawAsset(2, 1, 0, 0, 1), RawAsset(1, 200, 0, 0, 1)];
            Terminating(s, ownerID) &&
            Forest(s, ownerID)
              == ([MyAsset(s[0], ownerID, [], [MyAsset(RawAsset(2, 100, 0, 0, 1), ownerID, [s[0]], [])]),
                   MyAsset(s[2], ownerID, [], [MyAsset(RawAsset(2, 200, 0, 0, 1), ownerID, [s[2]], [])])],
                  s[1 := RawAsset(2, 200, 0, 0, 1)])
  {
    var s := [RawAsset(1, 100, 0, 0, 1), RawAsset(2, 1, 0, 0, 1), RawAsset(1, 200, 0, 0, 1)];
    SharedChildIndex(ownerID);
    SharedChildForest(s, ChildMap(s), ownerID);
  }

  /** The index of the batch of DuplicateIdSharedChild. */
  lemma SharedChildIndex(ownerID: int)
    ensures var s := [RawAsset(1, 100, 0, 0, 1), RawAsset(2, 1, 0, 0, 1), RawAsset(1, 200, 0, 0, 1)];
            var cm := ChildMap(s);
            && WellIndexed(s, cm, ownerID)
            && RootIndices(s) == [0, 2]
            && cm == map[1 := [1], 2 := []]
            && Chain(ItemIDs(s), cm, [0]) && Chain(ItemIDs(s), cm, [2])
  {
    var s := [RawAsset(1, 100, 0, 0, 1), RawAsset(2, 1, 0, 0, 1), RawAsset(1, 200, 0, 0, 1)];
    DuplicateIdSharedChild(ownerID);
    IndexShapedAlways(s);
    SharedChildMap(s);
    SharedChildRoots(s);
    assert ItemIDs(s)[0] == 1 && ItemIDs(s)[2] == 1;
  }

  /** The child map of that batch. */
  lemma SharedChildMap(s: seq<RawAsset>)
    requires s == [RawAsset(1, 100, 0, 0, 1), RawAsset(2, 1, 0, 0, 1), RawAsset(1, 200, 0, 0, 1)]
    ensures ChildMap(s) == map[1 := [1], 2 := []]
  {
    assert IdSet(s) == {1, 2} by {
      assert s[0].itemID == 1 && s[1].itemID == 2;
    }
    assert ChildrenUpTo(s, 1, 1) == [];
    assert ChildrenUpTo(s, 1, 2) == [1];
    assert ChildrenUpTo(s, 1, 3) == [1];
    assert ChildrenUpTo(s, 2, 1) == [];
    assert ChildrenUpTo(s, 2, 2) == [];
    assert ChildrenUpTo(s, 2, 3) == [];
  }

  /** The roots of that batch. */
  lemma SharedChildRoots(s: seq<RawAsset>)
    requires s == [RawAsset(1, 100, 0, 0, 1), RawAsset(2, 1, 0, 0, 1), RawAsset(1, 200, 0, 0, 1)]
    ensures RootIndices(s) == [0, 2]
  {
    assert IdSet(s) == {1, 2} by {
      assert s[0].itemID == 1 && s[1].itemID == 2;
    }
    assert RootsUpTo(s, 1) == [0];
    assert RootsUpTo(s, 2) == [0];
    assert RootsUpTo(s, 3) == [0, 2];
  }

  /** The run over the two roots of that batch, on its index. */
  lemma SharedChildForest(s: seq<RawAsset>, cm: map<int, seq<nat>>, ownerID: int)
    requires s == [RawAsset(1, 100, 0, 0, 1), RawAsset(2, 1, 0, 0, 1), RawAsset(1, 200, 0, 0, 1)]
    requires cm == map[1 := [1], 2 := []] && WellIndexed(s, cm, ownerID)
    requires Chain(ItemIDs(s), cm, [0]) && Chain(ItemIDs(s), cm, [2])
    requires ownerID != 100 && ownerID != 200
    ensures ForestRun(s, ownerID, cm, [0, 2])
              == ([MyAsset(s[0], ownerID, [], [MyAsset(RawAsset(2, 100, 0, 0, 1), ownerID, [s[0]], [])]),
                   MyAsset(s[2], ownerID, [], [MyAsset(RawAsset(2, 200, 0, 0, 1), ownerID, [s[2]], [])])],
                  s[1 := RawAsset(2, 200, 0, 0, 1)])
  {
    SharedChildFirstRun(s, cm, ownerID);
    SharedChildSecondRun(s, cm, ownerID);
  }

  /** The run over both roots of that batch, from the run over the first. */
  lemma SharedChildSecondRun(s: seq<RawAsset>, cm: map<int, seq<nat>>, ownerID: int)
    requires s == [RawAsset(1, 100, 0, 0, 1), RawAsset(2, 1, 0, 0, 1), RawAsset(1, 200, 0, 0, 1)]
    requires cm == map[1 := [1], 2 := []] && WellIndexed(s, cm, ownerID)
    requires Chain(ItemIDs(s), cm, [0]) && Chain(ItemIDs(s), cm, [2])
    requires ownerID != 100 && ownerID != 200
    requires ForestRun(s, ownerID, cm, [0])
               == ([MyAsset(s[0], ownerID, [], [MyAsset(RawAsset(2, 100, 0, 0, 1), ownerID, [s[0]], [])])],
                   s[1 := RawAsset(2, 100, 0, 0, 1)])
    ensures ForestRun(s, ownerID, cm, [0, 2])
              == ([MyAsset(s[0], ownerID, [], [MyAsset(RawAsset(2, 100, 0, 0, 1), ownerID, [s[0]], [])]),
                   MyAsset(s[2], ownerID, [], [MyAsset(RawAsset(2, 200, 0, 0, 1), ownerID, [s[2]], [])])],
                  s[1 := RawAsset(2, 200, 0, 0, 1)])
  {
    var s1 := s[1 := RawAsset(2, 100, 0, 0, 1)];
    var s2 := s[1 := RawAsset(2, 200, 0, 0, 1)];
    var tree0 := MyAsset(s[0], ownerID, [], [MyAsset(s1[1], ownerID, [s[0]], [])]);
    ForestRunStep(s, ownerID, cm, [0, 2], 1);
    assert [0, 2][..1] == [0] && [0, 2][..2] == [0, 2];
    SharedChildSecondRoot(s, s1, cm, ownerID);
    var tree2 := MyAsset(s[2], ownerID, [], [MyAsset(s2[1], ownerID, [s[2]], [])]);
    assert [tree0] + [tree2] == [tree0, tree2];
  }

  /** The second root of that batch, on the content the first root left. */
  lemma SharedChildSecondRoot(s: seq<RawAsset>, s1: seq<RawAsset>, cm: map<int, seq<nat>>, ownerID: int)
    requires s == [RawAsset(1, 100, 0, 0, 1), RawAsset(2, 1, 0, 0, 1), RawAsset(1, 200, 0, 0, 1)]
    requires s1 == s[1 := RawAsset(2, 100, 0, 0, 1)]
    requires cm == map[1 := [1], 2 := []] && WellIndexed(s1, cm, ownerID) && Chain(ItemIDs(s), cm, [2])
    requires ownerID != 200
    ensures Deep(s1, ownerID, cm, 2, None, [])
              == (Some(MyAsset(s[2], ownerID, [], [MyAsset(RawAsset(2, 200, 0, 0, 1), ownerID, [s[2]], [])])),
                  s[1 := RawAsset(2, 200, 0, 0, 1)])
  {
    assert ItemIDs(s1) == ItemIDs(s);
    var s2 := s[1 := RawAsset(2, 200, 0, 0, 1)];
    assert s1[1 := s1[1].(locationID := 200)] == s2;
    SharedChildRoot(s1, cm, ownerID, 2, s2);
  }

  /** The run over the first root of that batch alone. */
  lemma SharedChildFirstRun(s: seq<RawAsset>, cm: map<int, seq<nat>>, ownerID: int)
    requires s == [RawAsset(1, 100, 0, 0, 1), RawAsset(2, 1, 0, 0, 1), RawAsset(1, 200, 0, 0, 1)]
    requires cm == map[1 := [1], 2 := []] && WellIndexed(s, cm, ownerID)
    requires Chain(ItemIDs(s), cm, [0]) && Chain(ItemIDs(s), cm, [2])
    requires ownerID != 100 && ownerID != 200
    ensures ForestRun(s, ownerID, cm, [0])
              == ([MyAsset(s[0], ownerID, [], [MyAsset(RawAsset(2, 100, 0, 0, 1), ownerID, [s[0]], [])])],
                  s[1 := RawAsset(2, 100, 0, 0, 1)])
  {
    var s1 := s[1 := RawAsset(2, 100, 0, 0, 1)];
    ForestRunOne(s, ownerID, cm, 0);
    SharedChildRoot(s, cm, ownerID, 0, s1);
  }

  /** A root of that batch takes record 1 along with the root's own location. */
  lemma SharedChildRoot(s: seq<RawAsset>, cm: map<int, seq<nat>>, ownerID: int, i: nat, t: seq<RawAsset>)
    requires |s| == 3 && (i == 0 || i == 2)
    requires s[1].itemID == 2 && s[1].flagID == 0 && s[i].itemID == 1 && s[i].flagID == 0
    requires cm == map[1 := [1], 2 := []] && WellIndexed(s, cm, ownerID) && Chain(ItemIDs(s), cm, [i])
    requires ownerID != s[i].locationID
    requires t == s[1 := s[1].(locationID := s[i].locationID)]
    ensures Deep(s, ownerID, cm, i, None, [])
              == (Some(MyAsset(s[i], ownerID, [], [MyAsset(t[1], ownerID, [s[i]], [])])), t)
  {
    assert [] + [i] == [i];
    DeepStep(s, ownerID, cm, i, None, []);
    assert ItemIDs(s)[i] == 1;
    assert s[i := s[i]] == s;
    assert !IgnoreAsset(s[i], ownerID);
    var a := MyAsset(s[i], ownerID, [], []);
    var kids := DeepChildren(s, ownerID, cm, [1], a, [i]);
    assert Deep(s, ownerID, cm, i, None, []) == (Some(a.(assets := kids.0)), kids.1);
    assert LivePath(s, ownerID, [i]);
    SharedChildLeaf(s, cm, ownerID, i, a, t);
  }

  /** The loop over that root's one child: record 1 is retained with the root's
      location and has no children of its own. */
  lemma SharedChildLeaf(s: seq<RawAsset>, cm: map<int, seq<nat>>, ownerID: int, i: nat, a: MyAsset, t: seq<RawAsset>)
    requires |s| == 3 && (i == 0 || i == 2)
    requires s[1].itemID == 2 && s[1].flagID == 0 && s[i].itemID == 1 && s[i].flagID == 0
    requires cm == map[1 := [1], 2 := []] && WellIndexed(s, cm, ownerID) && Chain(ItemIDs(s), cm, [i])
    requires ownerID != s[i].locationID && LivePath(s, ownerID, [i])
    requires a == MyAsset(s[i], ownerID, [], [])
    requires t == s[1 := s[1].(locationID := s[i].locationID)]
    ensures DeepChildren(s, ownerID, cm, [1], a, [i]) == ([MyAsset(t[1], ownerID, [s[i]], [])], t)
  {
    assert ItemIDs(s)[i] == 1 && ItemIDs(s)[1] == 2;
    assert [i] + [1] == [i, 1];
    DeepChildrenStep(s, ownerID, cm, [1], a, [i], 0);
    assert [1][..1] == [1] && [1][..0] == [];
    DeepStep(s, ownerID, cm, 1, Some(a), [i]);
    assert ParentsOf(Some(a)) == [s[i]];
    assert Relocated(s[1], [s[i]]) == t[1];
    assert !IgnoreAsset(t[1], ownerID);
    assert s[1 := t[1]] == t;
    var c := MyAsset(t[1], ownerID, [s[i]], []);
    assert DeepChildren(t, ownerID, cm, [], c, [i, 1]) == ([], t);
    assert Deep(s, ownerID, cm, 1, Some(a), [i]) == (Some(c), t);
    assert DeepChildren(s, ownerID, cm, [], a, [i]) == ([], s);
    assert [] + [c] == [c];
  }

  /** A record stored inside itself is on a cycle of length one: the batch made of
      it alone has no root, so the converter returns no asset and leaves the
      record as it was. */
  lemma SelfContainedRecordDropped(rec: RawAsset, ownerID: int)
    requires rec.locationID == rec.itemID
    ensures UniqueIds(ItemIDs([rec]))
    ensures RootIndices([rec]) == []
    ensures Forest([rec], ownerID) == ([], [rec])
  {
    assert IdSet([rec]) == {rec.itemID} by {
      assert [rec][0].itemID == rec.itemID;
    }
    assert RootsUpTo([rec], 1) == [];
  }
}
