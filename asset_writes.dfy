/**
 * What the forest builder leaves in the caller's records. One descent rewrites
 * exactly the slots it reaches, each to the location of the descent's root;
 * the loop over the roots leaves every slot as the last root that reaches it
 * wrote it, and with unique item IDs that root is the only one.
 */
module AssetWrites {
  import opened Wrappers
  import opened AssetRecords
  import opened AssetIndex
  import opened AssetForest

  /** The location a descent rewrites its contained records to: that of its root. */
  function RootLocation(s: seq<RawAsset>, i: nat, parent: Option<MyAsset>): int
    requires i < |s|
  {
    if parent.None? then s[i].locationID else ParentsOf(parent)[0].locationID
  }

  /** `q` is a walk of the builder inside a descent whose root has location
      `loc`: each next slot is in the child list of the one before, and every
      slot but the last is one the builder keeps once it has taken `loc`, so
      the builder goes on below it. */
  predicate Walk(s: seq<RawAsset>, ownerID: int, cm: map<int, seq<nat>>, loc: int, q: seq<nat>)
  {
    && |q| > 0
    && (forall k :: 0 <= k < |q| ==> q[k] < |s|)
    && (forall k :: 0 <= k < |q| - 1 ==> s[q[k]].itemID in cm && q[k + 1] in cm[s[q[k]].itemID])
    && (forall k :: 0 <= k < |q| - 1 ==> !IgnoreAsset(s[q[k]].(locationID := loc), ownerID))
  }

  /** The descent from slot `i`, with root location `loc`, reaches slot `j`:
      the builder rewrites `j`'s location on the way, whether or not it then
      keeps the record. */
  ghost predicate Reached(s: seq<RawAsset>, ownerID: int, cm: map<int, seq<nat>>, i: nat, loc: int, j: nat)
  {
    exists q :: Walk(s, ownerID, cm, loc, q) && q[0] == i && q[|q| - 1] == j
  }

  /** One of the descents from the slots `ks`, all with root location `loc`,
      reaches slot `j`. */
  ghost predicate ReachedFromAny(s: seq<RawAsset>, ownerID: int, cm: map<int, seq<nat>>, ks: seq<nat>, loc: int, j: nat)
    decreases |ks|
  {
    && ks != []
    && (ReachedFromAny(s, ownerID, cm, ks[..|ks| - 1], loc, j) || Reached(s, ownerID, cm, ks[|ks| - 1], loc, j))
  }

  /** The record slot `j` holds once the descents from `roots` have run in
      order: the last root whose descent reaches `j` decides its location, and
      a slot no root reaches keeps its record. */
  ghost function LeftBy(s: seq<RawAsset>, ownerID: int, cm: map<int, seq<nat>>, roots: seq<nat>, j: nat): RawAsset
    requires j < |s| && forall k :: 0 <= k < |roots| ==> roots[k] < |s|
    decreases |roots|
  {
    if roots == [] then s[j]
    else
      var last := roots[|roots| - 1];
      if Reached(s, ownerID, cm, last, s[last].locationID, j) then s[j].(locationID := s[last].locationID)
      else LeftBy(s, ownerID, cm, roots[..|roots| - 1], j)
  }

  /** Walks do not depend on the locations a run rewrites. */
  lemma WalkCarry(s: seq<RawAsset>, t: seq<RawAsset>, ownerID: int, cm: map<int, seq<nat>>, loc: int, q: seq<nat>)
    requires OnlyLocationChanged(s, t)
    ensures Walk(s, ownerID, cm, loc, q) <==> Walk(t, ownerID, cm, loc, q)
  {
    forall x | 0 <= x < |s| ensures t[x].(locationID := loc) == s[x].(locationID := loc) && t[x].itemID == s[x].itemID {
      assert t[x] == s[x].(locationID := t[x].locationID);
    }
  }

  lemma ReachedCarry(s: seq<RawAsset>, t: seq<RawAsset>, ownerID: int, cm: map<int, seq<nat>>, i: nat, loc: int, j: nat)
    requires OnlyLocationChanged(s, t)
    ensures Reached(s, ownerID, cm, i, loc, j) <==> Reached(t, ownerID, cm, i, loc, j)
  {
    if Reached(s, ownerID, cm, i, loc, j) {
      var q :| Walk(s, ownerID, cm, loc, q) && q[0] == i && q[|q| - 1] == j;
      WalkCarry(s, t, ownerID, cm, loc, q);
    }
    if Reached(t, ownerID, cm, i, loc, j) {
      var q :| Walk(t, ownerID, cm, loc, q) && q[0] == i && q[|q| - 1] == j;
      WalkCarry(s, t, ownerID, cm, loc, q);
    }
  }

  /** ReachedFromAny is reachability from one of the slots. */
  lemma {:induction false} ReachedFromAnyExactly(s: seq<RawAsset>, ownerID: int, cm: map<int, seq<nat>>,
                                                 ks: seq<nat>, loc: int, j: nat)
    ensures ReachedFromAny(s, ownerID, cm, ks, loc, j) <==>
              exists m :: 0 <= m < |ks| && Reached(s, ownerID, cm, ks[m], loc, j)
    decreases |ks|
  {
    if ks != [] {
      var front := ks[..|ks| - 1];
      ReachedFromAnyExactly(s, ownerID, cm, front, loc, j);
      if exists m :: 0 <= m < |ks| && Reached(s, ownerID, cm, ks[m], loc, j) {
        var m :| 0 <= m < |ks| && Reached(s, ownerID, cm, ks[m], loc, j);
        if m < |ks| - 1 {
          assert front[m] == ks[m];
        }
      }
      if exists m :: 0 <= m < |front| && Reached(s, ownerID, cm, front[m], loc, j) {
        var m :| 0 <= m < |front| && Reached(s, ownerID, cm, front[m], loc, j);
        assert ks[m] == front[m];
      }
    }
  }

  /** A descent reaches its own slot, and, when the builder keeps that slot's
      record, exactly what the descents from its child slots reach besides; a
      descent whose record is ignored reaches nothing else. */
  lemma ReachSplit(s: seq<RawAsset>, ownerID: int, cm: map<int, seq<nat>>, i: nat, loc: int, j: nat)
    requires i < |s| && s[i].itemID in cm
    ensures !IgnoreAsset(s[i].(locationID := loc), ownerID) ==>
              (Reached(s, ownerID, cm, i, loc, j) <==>
                 j == i || ReachedFromAny(s, ownerID, cm, cm[s[i].itemID], loc, j))
    ensures IgnoreAsset(s[i].(locationID := loc), ownerID) ==> (Reached(s, ownerID, cm, i, loc, j) <==> j == i)
  {
    var kids := cm[s[i].itemID];
    ReachedFromAnyExactly(s, ownerID, cm, kids, loc, j);
    assert Walk(s, ownerID, cm, loc, [i]);
    if Reached(s, ownerID, cm, i, loc, j) && j != i {
      var q :| Walk(s, ownerID, cm, loc, q) && q[0] == i && q[|q| - 1] == j;
      assert |q| > 1;
      assert !IgnoreAsset(s[i].(locationID := loc), ownerID);
      var q' := q[1..];
      assert Walk(s, ownerID, cm, loc, q') by {
        forall k | 0 <= k < |q'| ensures q'[k] == q[k + 1] { }
      }
      assert q[1] in kids;
      var m :| 0 <= m < |kids| && kids[m] == q[1];
      assert Reached(s, ownerID, cm, kids[m], loc, j);
    }
    if !IgnoreAsset(s[i].(locationID := loc), ownerID) && ReachedFromAny(s, ownerID, cm, kids, loc, j) {
      var m :| 0 <= m < |kids| && Reached(s, ownerID, cm, kids[m], loc, j);
      var q' :| Walk(s, ownerID, cm, loc, q') && q'[0] == kids[m] && q'[|q'| - 1] == j;
      var q := [i] + q';
      assert kids[m] in kids;
      assert Walk(s, ownerID, cm, loc, q) by {
        forall k | 1 <= k < |q| ensures q[k] == q'[k - 1] { }
      }
      assert q[0] == i && q[|q| - 1] == j;
    }
  }

  /** What one materialisation leaves in the records: exactly the slots its
      descent reaches take over its root location, the others keep theirs. Its
      own slot ends relocated below its ancestors. */
  lemma {:induction false} DeepWrites(s: seq<RawAsset>, ownerID: int, cm: map<int, seq<nat>>, i: nat,
                                      parent: Option<MyAsset>, path: seq<nat>)
    requires WellIndexed(s, cm, ownerID) && Chain(ItemIDs(s), cm, path + [i]) && LivePath(s, ownerID, path)
    requires parent.None? <==> path == []
    ensures i < |s|
    ensures var r := Deep(s, ownerID, cm, i, parent, path);
            var loc := RootLocation(s, i, parent);
            && r.1[i] == Relocated(s[i], ParentsOf(parent))
            && forall j :: 0 <= j < |s| ==>
                 r.1[j] == (if Reached(s, ownerID, cm, i, loc, j) then s[j].(locationID := loc) else s[j])
    decreases Unvisited(|s|, path), 0, 0
  {
    DeepStep(s, ownerID, cm, i, parent, path);
    var parents := ParentsOf(parent);
    var rec := Relocated(s[i], parents);
    var s1 := s[i := rec];
    var loc := RootLocation(s, i, parent);
    assert rec == s[i].(locationID := loc);
    assert OnlyLocationChanged(s, s1);
    assert s[i].itemID in cm by {
      assert ItemIDs(s)[i] == s[i].itemID;
    }
    var r := Deep(s, ownerID, cm, i, parent, path);
    var asset := Materialize(rec, ownerID, parents);
    if asset.None? {
      forall j | 0 <= j < |s|
        ensures r.1[j] == (if Reached(s, ownerID, cm, i, loc, j) then s[j].(locationID := loc) else s[j])
      {
        ReachSplit(s, ownerID, cm, i, loc, j);
      }
    } else {
      UnvisitedShrinks(s, cm, ownerID, path, i);
      var kids := cm[ItemIDs(s)[i]];
      var self := asset.value;
      assert ParentsOf(Some(self))[0].locationID == loc;
      DeepChildrenWrites(s1, ownerID, cm, kids, self, path + [i]);
      assert s1[i].itemID == s[i].itemID && s1[i].(locationID := loc) == s1[i];
      forall j | 0 <= j < |s|
        ensures r.1[j] == (if Reached(s, ownerID, cm, i, loc, j) then s[j].(locationID := loc) else s[j])
      {
        ReachedCarry(s, s1, ownerID, cm, i, loc, j);
        ReachSplit(s1, ownerID, cm, i, loc, j);
      }
    }
  }

  /** What the loop over child slots leaves: exactly the slots one of their
      descents reaches take over the root location they share. */
  lemma {:induction false} DeepChildrenWrites(s: seq<RawAsset>, ownerID: int, cm: map<int, seq<nat>>, kids: seq<nat>,
                                              parent: MyAsset, path: seq<nat>)
    requires WellIndexed(s, cm, ownerID) && Chain(ItemIDs(s), cm, path) && LivePath(s, ownerID, path)
    requires forall j :: 0 <= j < |kids| ==> Chain(ItemIDs(s), cm, path + [kids[j]])
    ensures var r := DeepChildren(s, ownerID, cm, kids, parent, path);
            var loc := ParentsOf(Some(parent))[0].locationID;
            forall j :: 0 <= j < |s| ==>
              r.1[j] == (if ReachedFromAny(s, ownerID, cm, kids, loc, j) then s[j].(locationID := loc) else s[j])
    decreases Unvisited(|s|, path), 1, |kids|
  {
    var loc := ParentsOf(Some(parent))[0].locationID;
    if kids != [] {
      var k := |kids| - 1;
      DeepChildrenStep(s, ownerID, cm, kids, parent, path, k);
      assert kids[..k + 1] == kids;
      var pre := DeepChildren(s, ownerID, cm, kids[..k], parent, path);
      DeepChildrenWrites(s, ownerID, cm, kids[..k], parent, path);
      DeepWrites(pre.1, ownerID, cm, kids[k], Some(parent), path);
      var r := DeepChildren(s, ownerID, cm, kids, parent, path);
      forall j | 0 <= j < |s|
        ensures r.1[j] == (if ReachedFromAny(s, ownerID, cm, kids, loc, j) then s[j].(locationID := loc) else s[j])
      {
        ReachedCarry(s, pre.1, ownerID, cm, kids[k], loc, j);
        assert pre.1[j].(locationID := loc) == s[j].(locationID := loc) by {
          assert pre.1[j] == s[j].(locationID := pre.1[j].locationID);
        }
      }
    }
  }

  /** What the loop over the roots leaves: every slot as LeftBy says, the last
      root whose descent reaches it deciding its location. */
  lemma {:induction false} ForestRunWrites(s: seq<RawAsset>, ownerID: int, cm: map<int, seq<nat>>, roots: seq<nat>)
    requires WellIndexed(s, cm, ownerID)
    requires forall j :: 0 <= j < |roots| ==> Chain(ItemIDs(s), cm, [roots[j]])
    ensures forall k :: 0 <= k < |roots| ==> roots[k] < |s|
    ensures var r := ForestRun(s, ownerID, cm, roots);
            forall j :: 0 <= j < |s| ==> r.1[j] == LeftBy(s, ownerID, cm, roots, j)
    decreases |roots|
  {
    forall k | 0 <= k < |roots| ensures roots[k] < |s| {
      ChainLast(ItemIDs(s), cm, [roots[k]]);
    }
    if roots != [] {
      var k := |roots| - 1;
      ForestRunStep(s, ownerID, cm, roots, k);
      assert roots[..k + 1] == roots;
      var last := roots[k];
      var pre := ForestRun(s, ownerID, cm, roots[..k]);
      ForestRunWrites(s, ownerID, cm, roots[..k]);
      assert [] + [last] == [last];
      DeepWrites(pre.1, ownerID, cm, last, None, []);
      assert pre.1[last] == s[last];
      var loc := s[last].locationID;
      var r := ForestRun(s, ownerID, cm, roots);
      forall j | 0 <= j < |s| ensures r.1[j] == LeftBy(s, ownerID, cm, roots, j) {
        ReachedCarry(s, pre.1, ownerID, cm, last, loc, j);
        assert pre.1[j].(locationID := loc) == s[j].(locationID := loc) by {
          assert pre.1[j] == s[j].(locationID := pre.1[j].locationID);
        }
      }
    }
  }

  /** One step of a walk: the next slot is a child of the current one. */
  lemma WalkStep(s: seq<RawAsset>, ownerID: int, cm: map<int, seq<nat>>, loc: int, q: seq<nat>, k: nat)
    requires Walk(s, ownerID, cm, loc, q) && k + 1 < |q|
    ensures s[q[k]].itemID in cm && q[k + 1] in cm[s[q[k]].itemID]
  {
  }

  /** One step of a descent path: the next slot is a child of the current one. */
  lemma ChainStep(ids: seq<int>, cm: map<int, seq<nat>>, p: seq<nat>, k: nat)
    requires Chain(ids, cm, p) && k + 1 < |p|
    ensures ids[p[k]] in cm && p[k + 1] in cm[ids[p[k]]]
  {
  }

  /** A descent path followed by a walk from a child of its last record is a
      descent path again, and one through kept records when the walk ends on a
      record with no on-the-body flag. */
  lemma JoinLive(s: seq<RawAsset>, ownerID: int, cm: map<int, seq<nat>>, path: seq<nat>, q: seq<nat>, loc: int)
    requires Walk(s, ownerID, cm, loc, q) && Chain(ItemIDs(s), cm, path + [q[0]]) && LivePath(s, ownerID, path)
    requires path != [] && !OnBody(s[q[|q| - 1]].flagID)
    ensures Chain(ItemIDs(s), cm, path + q) && LivePath(s, ownerID, path + q)
  {
    var ids, pi, p := ItemIDs(s), path + [q[0]], path + q;
    assert p[0] == pi[0];
    forall k | 0 <= k < |p| - 1 ensures ids[p[k]] in cm && p[k + 1] in cm[ids[p[k]]] {
      if k < |path| {
        assert p[k] == pi[k] && p[k + 1] == pi[k + 1];
        ChainStep(ids, cm, pi, k);
      } else {
        assert p[k] == q[k - |path|] && p[k + 1] == q[k - |path| + 1];
        WalkStep(s, ownerID, cm, loc, q, k - |path|);
        assert ids[p[k]] == s[p[k]].itemID;
      }
    }
    forall k | 0 < k < |p| ensures !OnBody(s[p[k]].flagID) {
      if k < |path| {
        assert p[k] == path[k];
      } else if k < |p| - 1 {
        assert p[k] == q[k - |path|];
        assert !IgnoreAsset(s[q[k - |path|]].(locationID := loc), ownerID);
      } else {
        assert p[k] == q[|q| - 1];
      }
    }
  }

  /** A descent never reaches a slot on the path of ancestors it hangs below:
      that would be a descent through kept records that visits a slot twice. */
  lemma ReachAvoidsPath(s: seq<RawAsset>, ownerID: int, cm: map<int, seq<nat>>, path: seq<nat>, i: nat,
                        loc: int, x: nat)
    requires WellIndexed(s, cm, ownerID) && Chain(ItemIDs(s), cm, path + [i]) && LivePath(s, ownerID, path)
    requires x in path
    ensures !Reached(s, ownerID, cm, i, loc, x)
  {
    if Reached(s, ownerID, cm, i, loc, x) {
      var ids := ItemIDs(s);
      var q :| Walk(s, ownerID, cm, loc, q) && q[0] == i && q[|q| - 1] == x;
      var m :| 0 <= m < |path| && path[m] == x;
      var pi := path + [i];
      var p := path + q;
      assert pi[0] == path[0] && pi[|path|] == i;
      assert p[m] == x && p[|p| - 1] == x;
      assert m > 0 by {
        if m == 0 {
          if |q| > 1 {
            WalkStep(s, ownerID, cm, loc, q, |q| - 2);
          } else {
            ChainStep(ids, cm, pi, |path| - 1);
          }
          assert false;
        }
      }
      assert !OnBody(s[q[|q| - 1]].flagID);
      JoinLive(s, ownerID, cm, path, q, loc);
      assert false;
    }
  }

  /** With unique item IDs two walks from roots that end at the same slot start
      at the same root: each slot has at most one container in the batch. */
  lemma WalkRootUnique(s: seq<RawAsset>, ownerID: int, cm: map<int, seq<nat>>, locA: int, locB: int,
                       qa: seq<nat>, qb: seq<nat>)
    requires IndexShaped(ItemIDs(s), cm) && UniqueIds(ItemIDs(s))
    requires Walk(s, ownerID, cm, locA, qa) && Walk(s, ownerID, cm, locB, qb)
    requires IsRootIn(cm, qa[0]) && IsRootIn(cm, qb[0]) && qa[|qa| - 1] == qb[|qb| - 1]
    ensures qa[0] == qb[0]
    decreases |qa| + |qb|
  {
    var j := qa[|qa| - 1];
    if |qa| == 1 && |qb| > 1 {
      WalkStep(s, ownerID, cm, locB, qb, |qb| - 2);
      assert false;
    } else if |qa| > 1 && |qb| == 1 {
      WalkStep(s, ownerID, cm, locA, qa, |qa| - 2);
      assert false;
    } else if |qa| > 1 && |qb| > 1 {
      var a, b := qa[|qa| - 2], qb[|qb| - 2];
      assert j in cm[s[a].itemID] && j in cm[s[b].itemID];
      assert ItemIDs(s)[a] == ItemIDs(s)[b];
      assert a == b;
      WalkRootUnique(s, ownerID, cm, locA, locB, qa[..|qa| - 1], qb[..|qb| - 1]);
    }
  }

  /** With unique item IDs a slot that some root reaches is left with that
      root's location, whatever the other roots do. */
  lemma {:induction false} UniqueIdsLeftBy(s: seq<RawAsset>, ownerID: int, cm: map<int, seq<nat>>,
                                           roots: seq<nat>, m: nat, j: nat)
    requires IndexShaped(ItemIDs(s), cm) && UniqueIds(ItemIDs(s))
    requires forall k :: 0 <= k < |roots| ==> roots[k] < |s| && IsRootIn(cm, roots[k])
    requires j < |s| && m < |roots| && Reached(s, ownerID, cm, roots[m], s[roots[m]].locationID, j)
    ensures LeftBy(s, ownerID, cm, roots, j) == s[j].(locationID := s[roots[m]].locationID)
    decreases |roots|
  {
    var k := |roots| - 1;
    var last := roots[k];
    if Reached(s, ownerID, cm, last, s[last].locationID, j) {
      var qa :| Walk(s, ownerID, cm, s[last].locationID, qa) && qa[0] == last && qa[|qa| - 1] == j;
      var qb :| Walk(s, ownerID, cm, s[roots[m]].locationID, qb) && qb[0] == roots[m] && qb[|qb| - 1] == j;
      WalkRootUnique(s, ownerID, cm, s[last].locationID, s[roots[m]].locationID, qa, qb);
    } else {
      assert m < k;
      assert roots[..k][m] == roots[m];
      UniqueIdsLeftBy(s, ownerID, cm, roots[..k], m, j);
    }
  }

  /** A slot no root reaches keeps its record. */
  lemma {:induction false} UnreachedLeftBy(s: seq<RawAsset>, ownerID: int, cm: map<int, seq<nat>>,
                                           roots: seq<nat>, j: nat)
    requires j < |s| && forall k :: 0 <= k < |roots| ==> roots[k] < |s|
    requires forall k :: 0 <= k < |roots| ==> !Reached(s, ownerID, cm, roots[k], s[roots[k]].locationID, j)
    ensures LeftBy(s, ownerID, cm, roots, j) == s[j]
    decreases |roots|
  {
    if roots != [] {
      var k := |roots| - 1;
      forall n | 0 <= n < k ensures roots[..k][n] == roots[n] { }
      UnreachedLeftBy(s, ownerID, cm, roots[..k], j);
    }
  }
}
