/**
 * The two indexes the forest builder makes before it materialises anything:
 * which records are roots and which records sit inside which container.
 * Records are referred to by their position in the input list; such a position
 * stands for the record object the converter's maps hold.
 */
module AssetIndex {
  import opened AssetRecords

  /** The item IDs of the records, position by position. */
  function ItemIDs(s: seq<RawAsset>): (ids: seq<int>)
    ensures |ids| == |s|
    ensures forall k :: 0 <= k < |s| ==> ids[k] == s[k].itemID
  {
    seq(|s|, k requires 0 <= k < |s| => s[k].itemID)
  }

  /** The item IDs present in the batch. */
  function IdSet(s: seq<RawAsset>): set<int>
  {
    set k | 0 <= k < |s| :: s[k].itemID
  }

  /** Positions, in input order, of the first `n` records whose location is no
      item of the batch. */
  function RootsUpTo(s: seq<RawAsset>, n: nat): seq<nat>
    requires n <= |s|
  {
    if n == 0 then []
    else RootsUpTo(s, n - 1) + (if s[n - 1].locationID in IdSet(s) then [] else [n - 1])
  }

  /** Positions of the roots of the batch, in input order. */
  function RootIndices(s: seq<RawAsset>): seq<nat>
  {
    RootsUpTo(s, |s|)
  }

  /** Positions, in input order, of the first `n` records located in item `id`. */
  function ChildrenUpTo(s: seq<RawAsset>, id: int, n: nat): seq<nat>
    requires n <= |s|
  {
    if n == 0 then []
    else ChildrenUpTo(s, id, n - 1) + (if s[n - 1].locationID == id then [n - 1] else [])
  }

  /** For every item of the batch, the positions of the records inside it. */
  function ChildMap(s: seq<RawAsset>): map<int, seq<nat>>
  {
    map id | id in IdSet(s) :: ChildrenUpTo(s, id, |s|)
  }

  predicate Increasing(p: seq<nat>)
  {
    forall a, b :: 0 <= a < b < |p| ==> p[a] < p[b]
  }

  predicate UniqueIds(ids: seq<int>)
  {
    forall a, b :: 0 <= a < b < |ids| ==> ids[a] != ids[b]
  }

  /** Position `j` is in no child list. */
  predicate IsRootIn(cm: map<int, seq<nat>>, j: nat)
  {
    forall id :: id in cm ==> j !in cm[id]
  }

  /** The shape of the indexes the converter builds, duplicates or not: every
      item has a child list, child lists hold positions of the batch, and a
      position stands in at most one child list. */
  predicate IndexShaped(ids: seq<int>, cm: map<int, seq<nat>>)
  {
    && (forall k :: 0 <= k < |ids| ==> ids[k] in cm)
    && (forall id, x :: id in cm && x in cm[id] ==> x < |ids|)
    && (forall id1, id2, x :: id1 in cm && id2 in cm && x in cm[id1] && x in cm[id2] ==> id1 == id2)
  }

  predicate RepeatFree(p: seq<nat>)
  {
    forall a, b :: 0 <= a < b < |p| ==> p[a] != p[b]
  }

  /** Every record on the descent path is one the builder keeps, and so one it
      descends below: the root as it stands, every later record once it has
      taken over the root's location, which for a kept root comes down to its
      flag (LivePathExactly). */
  predicate LivePath(s: seq<RawAsset>, ownerID: int, p: seq<nat>)
  {
    && (forall k :: 0 <= k < |p| ==> p[k] < |s|)
    && (|p| > 0 ==> !IgnoreAsset(s[p[0]], ownerID))
    && (forall k :: 0 < k < |p| ==> !OnBody(s[p[k]].flagID))
  }

  /** No descent path through kept records visits a position twice: what makes
      the recursive materialisation end. */
  ghost predicate LiveDescentsRepeatFree(s: seq<RawAsset>, cm: map<int, seq<nat>>, ownerID: int)
  {
    forall p {:trigger Chain(ItemIDs(s), cm, p)} :: Chain(ItemIDs(s), cm, p) && LivePath(s, ownerID, p) ==> RepeatFree(p)
  }

  /** What the builder relies on about its indexes. */
  ghost predicate WellIndexed(s: seq<RawAsset>, cm: map<int, seq<nat>>, ownerID: int)
  {
    IndexShaped(ItemIDs(s), cm) && LiveDescentsRepeatFree(s, cm, ownerID)
  }

  /** A batch on which the converter's recursion ends for the given owner: no
      descent from a root through records the converter keeps reaches the same
      record twice. Every batch with unique item IDs is one (UniqueIdsTerminate);
      some batches with duplicate IDs are too. */
  ghost predicate Terminating(s: seq<RawAsset>, ownerID: int)
  {
    LiveDescentsRepeatFree(s, ChildMap(s), ownerID)
  }

  /** A descent path of the builder: it starts at a root and each next position
      is in the child list of the item before it. */
  predicate Chain(ids: seq<int>, cm: map<int, seq<nat>>, p: seq<nat>)
  {
    && |p| > 0
    && (forall k :: 0 <= k < |p| ==> p[k] < |ids|)
    && IsRootIn(cm, p[0])
    && (forall k :: 0 <= k < |p| - 1 ==> ids[p[k]] in cm && p[k + 1] in cm[ids[p[k]]])
  }

  /** The positions not yet on a descent path; the builder's recursion shrinks this set. */
  function Unvisited(n: nat, p: seq<nat>): set<nat>
  {
    set k: nat | k < n && k !in p
  }

  lemma {:induction false} RootsUpToSpec(s: seq<RawAsset>, n: nat)
    requires n <= |s|
    ensures forall j :: j in RootsUpTo(s, n) <==> 0 <= j < n && s[j].locationID !in IdSet(s)
    ensures Increasing(RootsUpTo(s, n))
    ensures forall k :: 0 <= k < |RootsUpTo(s, n)| ==> RootsUpTo(s, n)[k] < n
  {
    if n > 0 {
      RootsUpToSpec(s, n - 1);
      var prev := RootsUpTo(s, n - 1);
      var extra: seq<nat> := if s[n - 1].locationID in IdSet(s) then [] else [n - 1];
      assert RootsUpTo(s, n) == prev + extra;
      forall j ensures j in RootsUpTo(s, n) <==> j in prev || j in extra {
      }
    }
  }

  lemma {:induction false} ChildrenUpToSpec(s: seq<RawAsset>, id: int, n: nat)
    requires n <= |s|
    ensures forall j :: j in ChildrenUpTo(s, id, n) <==> 0 <= j < n && s[j].locationID == id
    ensures Increasing(ChildrenUpTo(s, id, n))
    ensures forall k :: 0 <= k < |ChildrenUpTo(s, id, n)| ==> ChildrenUpTo(s, id, n)[k] < n
  {
    if n > 0 {
      ChildrenUpToSpec(s, id, n - 1);
      var prev := ChildrenUpTo(s, id, n - 1);
      var extra: seq<nat> := if s[n - 1].locationID == id then [n - 1] else [];
      assert ChildrenUpTo(s, id, n) == prev + extra;
      forall j ensures j in ChildrenUpTo(s, id, n) <==> j in prev || j in extra {
      }
    }
  }

  /** A record is a root exactly when its location is not an item ID of the
      batch; the roots are listed in input order. */
  lemma RootIndicesExactly(s: seq<RawAsset>)
    ensures forall j :: j in RootIndices(s) <==> 0 <= j < |s| && s[j].locationID !in IdSet(s)
    ensures Increasing(RootIndices(s))
  {
    RootsUpToSpec(s, |s|);
  }

  /** Membership in one child list: the records located in that item. */
  lemma InChildMap(s: seq<RawAsset>, id: int, j: int)
    requires id in ChildMap(s)
    ensures j in ChildMap(s)[id] <==> 0 <= j < |s| && s[j].locationID == id
  {
    ChildrenUpToSpec(s, id, |s|);
  }

  /** The child list of an item holds exactly the records located in it, in
      input order. */
  lemma ChildMapExactly(s: seq<RawAsset>)
    ensures ChildMap(s).Keys == IdSet(s)
    ensures forall id, j: int :: id in ChildMap(s) ==> (j in ChildMap(s)[id] <==> 0 <= j < |s| && s[j].locationID == id)
    ensures forall id :: id in ChildMap(s) ==> Increasing(ChildMap(s)[id])
  {
    forall id, j: int | id in ChildMap(s)
      ensures j in ChildMap(s)[id] <==> 0 <= j < |s| && s[j].locationID == id
    {
      InChildMap(s, id, j);
    }
    forall id | id in ChildMap(s) ensures Increasing(ChildMap(s)[id]) {
      ChildrenUpToSpec(s, id, |s|);
    }
  }

  /** Every record is either a root or in some child list, never both. */
  lemma RootOrChild(s: seq<RawAsset>, j: nat)
    requires j < |s|
    ensures IsRootIn(ChildMap(s), j) <==> j in RootIndices(s)
  {
    var cm := ChildMap(s);
    RootIndicesExactly(s);
    if s[j].locationID in IdSet(s) {
      InChildMap(s, s[j].locationID, j);
    } else {
      forall id | id in cm ensures j !in cm[id] {
        InChildMap(s, id, j);
      }
    }
  }

  /** The indexes of any batch are shaped as the builder expects, and every
      root starts a descent path. */
  lemma IndexShapedAlways(s: seq<RawAsset>)
    ensures IndexShaped(ItemIDs(s), ChildMap(s))
    ensures forall j :: 0 <= j < |RootIndices(s)| ==> Chain(ItemIDs(s), ChildMap(s), [RootIndices(s)[j]])
  {
    var ids, cm := ItemIDs(s), ChildMap(s);
    forall k | 0 <= k < |ids| ensures ids[k] in cm {
      assert s[k].itemID in IdSet(s);
    }
    forall id, x | id in cm && x in cm[id] ensures x < |ids| {
      InChildMap(s, id, x);
    }
    forall id1, id2, x | id1 in cm && id2 in cm && x in cm[id1] && x in cm[id2] ensures id1 == id2 {
      InChildMap(s, id1, x);
      InChildMap(s, id2, x);
    }
    RootIndicesExactly(s);
    forall j | 0 <= j < |RootIndices(s)| ensures Chain(ids, cm, [RootIndices(s)[j]]) {
      var r := RootIndices(s)[j];
      assert r in RootIndices(s);
      forall id | id in cm ensures r !in cm[id] {
        InChildMap(s, id, r);
      }
    }
  }

  /** No descent path visits a position twice: a repeat would, going back
      along the path, force the root itself to be a child. */
  lemma {:induction false} ChainRepeatFreeAt(ids: seq<int>, cm: map<int, seq<nat>>, p: seq<nat>, a: nat, b: nat)
    requires UniqueIds(ids) && IndexShaped(ids, cm) && Chain(ids, cm, p)
    requires a < b < |p|
    ensures p[a] != p[b]
    decreases a
  {
    assert p[b] in cm[ids[p[b - 1]]];
    if a > 0 && p[a] == p[b] {
      assert p[a] in cm[ids[p[a - 1]]];
      assert ids[p[a - 1]] == ids[p[b - 1]];
      ChainRepeatFreeAt(ids, cm, p, a - 1, b - 1);
    }
  }

  /** With unique item IDs no descent repeats a position. */
  lemma UniqueIdsRepeatFree(s: seq<RawAsset>, cm: map<int, seq<nat>>, ownerID: int)
    requires UniqueIds(ItemIDs(s)) && IndexShaped(ItemIDs(s), cm)
    ensures LiveDescentsRepeatFree(s, cm, ownerID)
  {
    forall p | Chain(ItemIDs(s), cm, p) && LivePath(s, ownerID, p) ensures RepeatFree(p) {
      forall a, b | 0 <= a < b < |p| ensures p[a] != p[b] {
        ChainRepeatFreeAt(ItemIDs(s), cm, p, a, b);
      }
    }
  }

  /** Every batch with unique item IDs is one the converter finishes. */
  lemma UniqueIdsTerminate(s: seq<RawAsset>, ownerID: int)
    requires UniqueIds(ItemIDs(s))
    ensures Terminating(s, ownerID)
    ensures WellIndexed(s, ChildMap(s), ownerID)
  {
    IndexShapedAlways(s);
    UniqueIdsRepeatFree(s, ChildMap(s), ownerID);
  }

  /** LivePath is the ignore rule applied where the builder applies it: to the
      root as it stands and to every later record with the root's location. */
  lemma LivePathExactly(s: seq<RawAsset>, ownerID: int, p: seq<nat>)
    requires |p| > 0 && forall k :: 0 <= k < |p| ==> p[k] < |s|
    ensures LivePath(s, ownerID, p) <==>
              forall k :: 0 <= k < |p| ==> !IgnoreAsset(s[p[k]].(locationID := s[p[0]].locationID), ownerID)
  {
    assert s[p[0]].(locationID := s[p[0]].locationID) == s[p[0]];
  }

  /** A descent path extends by any record in the child list of its last item. */
  lemma ChainExtend(ids: seq<int>, cm: map<int, seq<nat>>, p: seq<nat>, c: nat)
    requires IndexShaped(ids, cm) && Chain(ids, cm, p)
    requires c in cm[ids[p[|p| - 1]]]
    ensures Chain(ids, cm, p + [c])
  {
    var last := ids[p[|p| - 1]];
    assert last in cm;
    assert c in cm[last];
    assert c < |ids|;
  }

  /** A kept record extends a path of kept records: as a root when the path is
      empty, by its flag below a root. */
  lemma LivePathExtend(s: seq<RawAsset>, ownerID: int, path: seq<nat>, i: nat, parents: seq<RawAsset>)
    requires LivePath(s, ownerID, path) && i < |s|
    requires path == [] <==> parents == []
    requires !IgnoreAsset(Relocated(s[i], parents), ownerID)
    ensures LivePath(s, ownerID, path + [i])
  {
    var p := path + [i];
    assert p[|path|] == i;
    forall k | 0 <= k < |path| ensures p[k] == path[k] { }
    if path == [] {
      assert p == [i];
    } else {
      assert p[0] == path[0];
    }
  }

  /** Extending a path of kept records leaves strictly fewer positions unvisited. */
  lemma UnvisitedShrinks(s: seq<RawAsset>, cm: map<int, seq<nat>>, ownerID: int, path: seq<nat>, i: nat)
    requires WellIndexed(s, cm, ownerID) && Chain(ItemIDs(s), cm, path + [i]) && LivePath(s, ownerID, path + [i])
    ensures Unvisited(|s|, path + [i]) < Unvisited(|s|, path)
  {
    assert RepeatFree(path + [i]);
    assert i !in path by {
      forall a | 0 <= a < |path| ensures path[a] != i {
        assert (path + [i])[a] == path[a] && (path + [i])[|path|] == i;
      }
    }
    assert (path + [i])[|path|] == i;
    assert i in Unvisited(|s|, path);
  }

  /** `k` is the last position of the batch that holds item `id`. */
  predicate LastPosition(s: seq<RawAsset>, id: int, k: nat)
  {
    k < |s| && s[k].itemID == id && forall j :: k < j < |s| ==> s[j].itemID != id
  }

  /** The converter's first pass over the batch: the lookup by item ID (a later
      duplicate replacing an earlier one), and an empty child list per item. */
  method LookupByItemId(rawAssets: seq<RawAsset>) returns (lookup: map<int, nat>, childMap: map<int, seq<nat>>)
    ensures lookup.Keys == IdSet(rawAssets)
    ensures forall id :: id in lookup ==> LastPosition(rawAssets, id, lookup[id])
    ensures childMap.Keys == IdSet(rawAssets)
    ensures forall id :: id in childMap ==> childMap[id] == []
  {
    lookup := map[];
    childMap := map[];
    for j := 0 to |rawAssets|
      invariant lookup.Keys == IdSet(rawAssets[..j])
      invariant forall id :: id in lookup ==> lookup[id] < j && LastPosition(rawAssets[..j], id, lookup[id])
      invariant childMap.Keys == lookup.Keys
      invariant forall id :: id in childMap ==> childMap[id] == []
    {
      assert IdSet(rawAssets[..j + 1]) == IdSet(rawAssets[..j]) + {rawAssets[j].itemID} by {
        assert rawAssets[..j + 1] == rawAssets[..j] + [rawAssets[j]];
      }
      ghost var before := lookup;
      lookup := lookup[rawAssets[j].itemID := j];
      childMap := childMap[rawAssets[j].itemID := []];
      forall id | id in lookup ensures LastPosition(rawAssets[..j + 1], id, lookup[id]) {
        if id != rawAssets[j].itemID {
          assert LastPosition(rawAssets[..j], id, before[id]);
        }
      }
    }
    assert rawAssets[..|rawAssets|] == rawAssets;
  }

  /** The two index-building passes of the converter: the lookup by item ID,
      then the split into roots and child lists. */
  method IndexAssets(rawAssets: seq<RawAsset>) returns (childMap: map<int, seq<nat>>, root: seq<nat>)
    ensures childMap == ChildMap(rawAssets)
    ensures root == RootIndices(rawAssets)
  {
    var lookup;
    lookup, childMap := LookupByItemId(rawAssets);
    root := [];
    for j := 0 to |rawAssets|
      invariant childMap.Keys == IdSet(rawAssets)
      invariant forall id :: id in childMap ==> childMap[id] == ChildrenUpTo(rawAssets, id, j)
      invariant root == RootsUpTo(rawAssets, j)
    {
      var loc := rawAssets[j].locationID;
      if loc in lookup {
        var parent := lookup[loc];
        var pid := rawAssets[parent].itemID;
        assert pid == loc;
        childMap := childMap[pid := childMap[pid] + [j]];
      } else {
        root := root + [j];
      }
    }
  }
}
