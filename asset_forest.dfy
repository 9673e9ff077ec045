/**
 * The containment forest builder of the converter. The caller's list of raw
 * asset records is an array: slot `k` is the k-th record object, and the
 * builder's rewrite of a contained item's location is a write to its slot.
 *
 * The ghost functions Deep, DeepChildren and ForestRun describe one run of the
 * builder on a given array content: each returns what the run produces and the
 * array content it leaves behind. The methods are proved to do exactly that.
 */
module AssetForest {
  import opened Wrappers
  import opened AssetRecords
  import opened AssetIndex

  /** `t` is `s` with at most the locations of some records changed. */
  predicate OnlyLocationChanged(s: seq<RawAsset>, t: seq<RawAsset>)
  {
    |t| == |s| && forall j :: 0 <= j < |s| ==> t[j] == s[j].(locationID := t[j].locationID)
  }

  lemma OnlyLocationChangedIds(s: seq<RawAsset>, t: seq<RawAsset>)
    requires OnlyLocationChanged(s, t)
    ensures ItemIDs(t) == ItemIDs(s)
  {
    assert forall j :: 0 <= j < |s| ==> t[j].itemID == s[j].itemID;
  }

  lemma OnlyLocationChangedTrans(s: seq<RawAsset>, t: seq<RawAsset>, u: seq<RawAsset>)
    requires OnlyLocationChanged(s, t) && OnlyLocationChanged(t, u)
    ensures OnlyLocationChanged(s, u)
  {
    forall j | 0 <= j < |s| ensures u[j] == s[j].(locationID := u[j].locationID) {
      assert u[j] == t[j].(locationID := u[j].locationID);
    }
  }

  /** The builder never rewrites a root: a root of `cm` holds in `t` what it holds in `s`. */
  predicate RootsKept(cm: map<int, seq<nat>>, s: seq<RawAsset>, t: seq<RawAsset>)
  {
    |t| == |s| && forall j :: 0 <= j < |s| && IsRootIn(cm, j) ==> t[j] == s[j]
  }

  lemma RootsKeptTrans(cm: map<int, seq<nat>>, s: seq<RawAsset>, t: seq<RawAsset>, u: seq<RawAsset>)
    requires RootsKept(cm, s, t) && RootsKept(cm, t, u)
    ensures RootsKept(cm, s, u)
  {
  }

  lemma ChainLast(ids: seq<int>, cm: map<int, seq<nat>>, p: seq<nat>)
    requires Chain(ids, cm, p)
    ensures p[|p| - 1] < |ids|
  {
  }

  /** Whether a path of kept records stays one does not depend on the locations
      a run rewrites: those of records below a root. */
  lemma LiveCarry(s: seq<RawAsset>, t: seq<RawAsset>, cm: map<int, seq<nat>>, ownerID: int, p: seq<nat>)
    requires OnlyLocationChanged(s, t) && RootsKept(cm, s, t)
    requires |p| > 0 ==> p[0] < |s| && IsRootIn(cm, p[0])
    ensures LivePath(t, ownerID, p) <==> LivePath(s, ownerID, p)
  {
    if |p| > 0 {
      assert t[p[0]] == s[p[0]];
    }
  }

  /** What the builder relies on about a batch holds of the content a run
      leaves behind. */
  lemma Carry(s: seq<RawAsset>, t: seq<RawAsset>, cm: map<int, seq<nat>>, ownerID: int, path: seq<nat>)
    requires OnlyLocationChanged(s, t) && RootsKept(cm, s, t) && WellIndexed(s, cm, ownerID)
    requires path != [] ==> Chain(ItemIDs(s), cm, path)
    requires LivePath(s, ownerID, path)
    ensures ItemIDs(t) == ItemIDs(s) && WellIndexed(t, cm, ownerID) && LivePath(t, ownerID, path)
  {
    OnlyLocationChangedIds(s, t);
    forall p | Chain(ItemIDs(t), cm, p) && LivePath(t, ownerID, p) ensures RepeatFree(p) {
      LiveCarry(s, t, cm, ownerID, p);
    }
    LiveCarry(s, t, cm, ownerID, path);
  }

  /** What one call of the materialisation on slot `i` hands to the loop over
      the children: the rewritten content keeps what the builder relies on, and
      a kept record extends the path of kept records. */
  lemma Descend(s: seq<RawAsset>, ownerID: int, cm: map<int, seq<nat>>, i: nat,
                parent: Option<MyAsset>, path: seq<nat>)
    requires WellIndexed(s, cm, ownerID) && Chain(ItemIDs(s), cm, path + [i]) && LivePath(s, ownerID, path)
    requires parent.None? <==> path == []
    ensures i < |s|
    ensures var rec := Relocated(s[i], ParentsOf(parent));
            var s1 := s[i := rec];
            && OnlyLocationChanged(s, s1) && RootsKept(cm, s, s1)
            && ItemIDs(s1) == ItemIDs(s) && WellIndexed(s1, cm, ownerID)
            && (!IgnoreAsset(rec, ownerID) ==>
                  && LivePath(s, ownerID, path + [i]) && LivePath(s1, ownerID, path + [i])
                  && Chain(ItemIDs(s1), cm, path + [i])
                  && var kids := cm[ItemIDs(s)[i]];
                     forall j :: 0 <= j < |kids| ==> Chain(ItemIDs(s1), cm, (path + [i]) + [kids[j]]))
  {
    var ids := ItemIDs(s);
    ChainLast(ids, cm, path + [i]);
    var parents := ParentsOf(parent);
    var rec := Relocated(s[i], parents);
    var s1 := s[i := rec];
    assert OnlyLocationChanged(s, s1);
    assert (path + [i])[|path|] == i;
    if path != [] {
      assert (path + [i])[|path| - 1] == path[|path| - 1];
      assert i in cm[ids[path[|path| - 1]]];
      assert !IsRootIn(cm, i);
    } else {
      assert s1 == s;
    }
    assert RootsKept(cm, s, s1);
    Carry(s, s1, cm, ownerID, []);
    if !IgnoreAsset(rec, ownerID) {
      LivePathExtend(s, ownerID, path, i, parents);
      assert (path + [i])[0] == (if path == [] then i else path[0]);
      LiveCarry(s, s1, cm, ownerID, path + [i]);
      var kids := cm[ids[i]];
      forall j | 0 <= j < |kids| ensures Chain(ids, cm, (path + [i]) + [kids[j]]) {
        assert kids[j] in kids;
        ChainExtend(ids, cm, path + [i], kids[j]);
      }
    }
  }

  /** One call of the recursive materialisation on the record in slot `i`,
      attached below `parent`; `path` holds the slots of the ancestors. */
  ghost function Deep(s: seq<RawAsset>, ownerID: int, cm: map<int, seq<nat>>, i: nat,
                      parent: Option<MyAsset>, path: seq<nat>): (r: (Option<MyAsset>, seq<RawAsset>))
    requires WellIndexed(s, cm, ownerID) && Chain(ItemIDs(s), cm, path + [i]) && LivePath(s, ownerID, path)
    requires parent.None? <==> path == []
    ensures OnlyLocationChanged(s, r.1) && RootsKept(cm, s, r.1)
    decreases Unvisited(|s|, path), 0, 0
  {
    Descend(s, ownerID, cm, i, parent, path);
    var parents := ParentsOf(parent);
    var rec := Relocated(s[i], parents);
    var s1 := s[i := rec];
    var asset := Materialize(rec, ownerID, parents);
    if asset.None? then (None, s1)
    else
      UnvisitedShrinks(s, cm, ownerID, path, i);
      var res := DeepChildren(s1, ownerID, cm, cm[s[i].itemID], asset.value, path + [i]);
      OnlyLocationChangedTrans(s, s1, res.1);
      RootsKeptTrans(cm, s, s1, res.1);
      (Some(asset.value.(assets := res.0)), res.1)
  }

  /** The loop over the child slots `kids` of `parent`, in order, keeping the
      children that are materialised. */
  ghost function DeepChildren(s: seq<RawAsset>, ownerID: int, cm: map<int, seq<nat>>, kids: seq<nat>,
                              parent: MyAsset, path: seq<nat>): (r: (seq<MyAsset>, seq<RawAsset>))
    requires WellIndexed(s, cm, ownerID) && Chain(ItemIDs(s), cm, path) && LivePath(s, ownerID, path)
    requires forall j :: 0 <= j < |kids| ==> Chain(ItemIDs(s), cm, path + [kids[j]])
    ensures OnlyLocationChanged(s, r.1) && RootsKept(cm, s, r.1)
    decreases Unvisited(|s|, path), 1, |kids|
  {
    if kids == [] then ([], s)
    else
      var front, last := kids[..|kids| - 1], kids[|kids| - 1];
      var res := DeepChildren(s, ownerID, cm, front, parent, path);
      Carry(s, res.1, cm, ownerID, path);
      var child := Deep(res.1, ownerID, cm, last, Some(parent), path);
      OnlyLocationChangedTrans(s, res.1, child.1);
      RootsKeptTrans(cm, s, res.1, child.1);
      (res.0 + (if child.0.Some? then [child.0.value] else []), child.1)
  }

  /** The loop over the roots, in order, keeping the roots that are materialised. */
  ghost function ForestRun(s: seq<RawAsset>, ownerID: int, cm: map<int, seq<nat>>, roots: seq<nat>)
    : (r: (seq<MyAsset>, seq<RawAsset>))
    requires WellIndexed(s, cm, ownerID)
    requires forall j :: 0 <= j < |roots| ==> Chain(ItemIDs(s), cm, [roots[j]])
    ensures OnlyLocationChanged(s, r.1) && RootsKept(cm, s, r.1)
    decreases |roots|
  {
    if roots == [] then ([], s)
    else
      var front, last := roots[..|roots| - 1], roots[|roots| - 1];
      var res := ForestRun(s, ownerID, cm, front);
      Carry(s, res.1, cm, ownerID, []);
      assert [] + [last] == [last];
      var tree := Deep(res.1, ownerID, cm, last, None, []);
      OnlyLocationChangedTrans(s, res.1, tree.1);
      RootsKeptTrans(cm, s, res.1, tree.1);
      (res.0 + (if tree.0.Some? then [tree.0.value] else []), tree.1)
  }

  /** What the converter produces from a batch it finishes: the forest of
      retained roots, and the batch as the run leaves it. */
  ghost function Forest(s: seq<RawAsset>, ownerID: int): (r: (seq<MyAsset>, seq<RawAsset>))
    requires Terminating(s, ownerID)
    ensures OnlyLocationChanged(s, r.1) && RootsKept(ChildMap(s), s, r.1)
  {
    IndexShapedAlways(s);
    ForestRun(s, ownerID, ChildMap(s), RootIndices(s))
  }

  /** One step of the loop over child slots, as DeepChildren describes it. */
  lemma DeepChildrenStep(s: seq<RawAsset>, ownerID: int, cm: map<int, seq<nat>>, kids: seq<nat>,
                         parent: MyAsset, path: seq<nat>, k: nat)
    requires WellIndexed(s, cm, ownerID) && Chain(ItemIDs(s), cm, path) && LivePath(s, ownerID, path)
    requires forall j :: 0 <= j < |kids| ==> Chain(ItemIDs(s), cm, path + [kids[j]])
    requires k < |kids|
    ensures forall j :: 0 <= j < k ==> Chain(ItemIDs(s), cm, path + [kids[..k][j]])
    ensures var pre := DeepChildren(s, ownerID, cm, kids[..k], parent, path);
            && OnlyLocationChanged(s, pre.1) && RootsKept(cm, s, pre.1)
            && ItemIDs(pre.1) == ItemIDs(s) && WellIndexed(pre.1, cm, ownerID) && LivePath(pre.1, ownerID, path)
            && Chain(ItemIDs(pre.1), cm, path + [kids[k]])
            && var child := Deep(pre.1, ownerID, cm, kids[k], Some(parent), path);
               DeepChildren(s, ownerID, cm, kids[..k + 1], parent, path)
                 == (pre.0 + (if child.0.Some? then [child.0.value] else []), child.1)
  {
    assert kids[..k + 1][..k] == kids[..k];
    var pre := DeepChildren(s, ownerID, cm, kids[..k], parent, path);
    Carry(s, pre.1, cm, ownerID, path);
  }

  /** One call of the materialisation, as Deep describes it. */
  lemma DeepStep(s: seq<RawAsset>, ownerID: int, cm: map<int, seq<nat>>, i: nat,
                 parent: Option<MyAsset>, path: seq<nat>)
    requires WellIndexed(s, cm, ownerID) && Chain(ItemIDs(s), cm, path + [i]) && LivePath(s, ownerID, path)
    requires parent.None? <==> path == []
    ensures i < |s|
    ensures var parents := ParentsOf(parent);
            var rec := Relocated(s[i], parents);
            var asset := Materialize(rec, ownerID, parents);
            && ItemIDs(s[i := rec]) == ItemIDs(s) && WellIndexed(s[i := rec], cm, ownerID)
            && (asset.None? ==> Deep(s, ownerID, cm, i, parent, path) == (None, s[i := rec]))
            && (asset.Some? ==>
                  && LivePath(s, ownerID, path + [i]) && LivePath(s[i := rec], ownerID, path + [i])
                  && Chain(ItemIDs(s[i := rec]), cm, path + [i])
                  && (var kids := cm[ItemIDs(s)[i]];
                      forall j :: 0 <= j < |kids| ==> Chain(ItemIDs(s[i := rec]), cm, (path + [i]) + [kids[j]]))
                  && var res := DeepChildren(s[i := rec], ownerID, cm, cm[ItemIDs(s)[i]], asset.value, path + [i]);
                     Deep(s, ownerID, cm, i, parent, path) == (Some(asset.value.(assets := res.0)), res.1))
  {
    Descend(s, ownerID, cm, i, parent, path);
  }

  /** One step of the loop over roots, as ForestRun describes it. */
  lemma ForestRunStep(s: seq<RawAsset>, ownerID: int, cm: map<int, seq<nat>>, roots: seq<nat>, k: nat)
    requires WellIndexed(s, cm, ownerID)
    requires forall j :: 0 <= j < |roots| ==> Chain(ItemIDs(s), cm, [roots[j]])
    requires k < |roots|
    ensures forall j :: 0 <= j < k ==> Chain(ItemIDs(s), cm, [roots[..k][j]])
    ensures var pre := ForestRun(s, ownerID, cm, roots[..k]);
            && OnlyLocationChanged(s, pre.1) && RootsKept(cm, s, pre.1)
            && ItemIDs(pre.1) == ItemIDs(s) && WellIndexed(pre.1, cm, ownerID)
            && Chain(ItemIDs(pre.1), cm, [] + [roots[k]])
            && var tree := Deep(pre.1, ownerID, cm, roots[k], None, []);
               ForestRun(s, ownerID, cm, roots[..k + 1])
                 == (pre.0 + (if tree.0.Some? then [tree.0.value] else []), tree.1)
  {
    assert roots[..k + 1][..k] == roots[..k];
    assert [] + [roots[k]] == [roots[k]];
    var pre := ForestRun(s, ownerID, cm, roots[..k]);
    Carry(s, pre.1, cm, ownerID, []);
  }

  /** Materialises the record in slot `i` with the given ancestors: a contained
      record first takes over its root ancestor's location, in place; then the
      ignore rule decides whether a node is made. */
  method ToMyAsset(raws: array<RawAsset>, i: nat, ownerID: int, parents: seq<RawAsset>) returns (asset: Option<MyAsset>)
    requires i < raws.Length
    modifies raws
    ensures raws[..] == old(raws[..])[i := Relocated(old(raws[i]), parents)]
    ensures asset == Materialize(Relocated(old(raws[i]), parents), ownerID, parents)
  {
    if parents != [] {
      var rootAsset := parents[0];
      raws[i] := raws[i].(locationID := rootAsset.locationID);
    }
    if IgnoreAsset(raws[i], ownerID) {
      return None;
    }
    asset := Some(MyAsset(raws[i], ownerID, parents, []));
  }

  /** The recursive materialisation of the record in slot `i` below `parent`. */
  method DeepAsset(raws: array<RawAsset>, ownerID: int, childMap: map<int, seq<nat>>, i: nat,
                   parent: Option<MyAsset>, ghost path: seq<nat>) returns (asset: Option<MyAsset>)
    requires WellIndexed(raws[..], childMap, ownerID) && Chain(ItemIDs(raws[..]), childMap, path + [i])
    requires LivePath(raws[..], ownerID, path)
    requires parent.None? <==> path == []
    modifies raws
    ensures (asset, raws[..]) == Deep(old(raws[..]), ownerID, childMap, i, parent, path)
    decreases Unvisited(raws.Length, path), 0, 0
  {
    ghost var s := raws[..];
    DeepStep(s, ownerID, childMap, i, parent, path);
    var parents: seq<RawAsset> := [];
    if parent.Some? {
      parents := parent.value.parents + [parent.value.raw];
    }
    asset := ToMyAsset(raws, i, ownerID, parents);
    if asset.Some? {
      UnvisitedShrinks(s, childMap, ownerID, path, i);
      var children := childMap[raws[i].itemID];
      assert children == childMap[ItemIDs(s)[i]];
      var kept := DeepChildAssets(raws, ownerID, childMap, children, asset.value, path + [i]);
      asset := Some(asset.value.(assets := kept));
    }
  }

  /** The loop of the recursive materialisation over the child slots of
      `parent`, in order, collecting the children that are not ignored. */
  method DeepChildAssets(raws: array<RawAsset>, ownerID: int, childMap: map<int, seq<nat>>, children: seq<nat>,
                         parent: MyAsset, ghost path: seq<nat>) returns (kept: seq<MyAsset>)
    requires WellIndexed(raws[..], childMap, ownerID) && Chain(ItemIDs(raws[..]), childMap, path)
    requires LivePath(raws[..], ownerID, path)
    requires forall j :: 0 <= j < |children| ==> Chain(ItemIDs(raws[..]), childMap, path + [children[j]])
    modifies raws
    ensures (kept, raws[..]) == DeepChildren(old(raws[..]), ownerID, childMap, children, parent, path)
    decreases Unvisited(raws.Length, path), 1, |children|
  {
    ghost var s := raws[..];
    kept := [];
    for k := 0 to |children|
      invariant (kept, raws[..]) == DeepChildren(s, ownerID, childMap, children[..k], parent, path)
    {
      DeepChildrenStep(s, ownerID, childMap, children, parent, path, k);
      ghost var pre := DeepChildren(s, ownerID, childMap, children[..k], parent, path);
      var child := DeepAsset(raws, ownerID, childMap, children[k], Some(parent), path);
      ghost var sub := Deep(pre.1, ownerID, childMap, children[k], Some(parent), path);
      assert child == sub.0 && raws[..] == sub.1;
      if child.Some? {
        kept := kept + [child.value];
      }
      assert kept == pre.0 + (if sub.0.Some? then [sub.0.value] else []);
    }
    assert children[..|children|] == children;
  }

  /** The converter's asset build: index the batch, then materialise every root
      in input order and keep the ones that are not ignored. */
  method ConvertRawAssets(raws: array<RawAsset>, ownerID: int) returns (assets: seq<MyAsset>)
    requires Terminating(raws[..], ownerID)
    modifies raws
    ensures (assets, raws[..]) == Forest(old(raws[..]), ownerID)
  {
    ghost var s := raws[..];
    var childMap, root := IndexAssets(raws[..]);
    IndexShapedAlways(s);
    assets := [];
    for k := 0 to |root|
      invariant (assets, raws[..]) == ForestRun(s, ownerID, childMap, root[..k])
    {
      ForestRunStep(s, ownerID, childMap, root, k);
      ghost var pre := ForestRun(s, ownerID, childMap, root[..k]);
      assert assets == pre.0 && raws[..] == pre.1;
      var asset := DeepAsset(raws, ownerID, childMap, root[k], None, []);
      ghost var tree := Deep(pre.1, ownerID, childMap, root[k], None, []);
      assert asset == tree.0 && raws[..] == tree.1;
      if asset.Some? {
        assets := assets + [asset.value];
      }
      assert assets == pre.0 + (if tree.0.Some? then [tree.0.value] else []);
    }
    assert root[..|root|] == root;
  }
}
