/**
 * The asset records of the converter: the flat record that the account API
 * delivers (RawAsset) and the node of the containment forest built from it
 * (MyAsset), with the ignore rule and the location rewrite applied to a record
 * before it is materialised.
 */
module AssetRecords {
  import opened Wrappers

  /** One flat inventory record. `locationID` is either the item ID of the
      container the item sits in, or an external location. */
  datatype RawAsset = RawAsset(itemID: int, locationID: int, typeID: int, flagID: int, quantity: int)

  /** A materialised asset. `raw` is the record as it was when the node was made
      (its location already rewritten); `parents` holds the records of its
      ancestors, root first; `assets` holds its materialised children in order. */
  datatype MyAsset = MyAsset(raw: RawAsset, ownerID: int, parents: seq<RawAsset>, assets: seq<MyAsset>)

  /** Item flags of things an owner carries in their head rather than in a hangar. */
  const SkillFlag := 7
  const SkillInTrainingFlag := 61
  const BoosterFlag := 88
  const ImplantFlag := 89

  /** The flags of skills, the skill in training, boosters and implants. */
  predicate OnBody(flagID: int)
  {
    flagID == SkillFlag || flagID == SkillInTrainingFlag || flagID == BoosterFlag || flagID == ImplantFlag
  }

  /** The records that are never turned into assets: those with an on-the-body
      flag, and anything located on the owner itself. */
  predicate IgnoreAsset(rec: RawAsset, ownerID: int)
  {
    OnBody(rec.flagID) || rec.locationID == ownerID
  }

  /** The ignore rule as a membership test: the flag is one of the four
      on-the-body flags, or the item sits directly on the owner. */
  lemma IgnoreAssetExactly(rec: RawAsset, ownerID: int)
    ensures IgnoreAsset(rec, ownerID) <==>
              (rec.flagID in {SkillFlag, SkillInTrainingFlag, BoosterFlag, ImplantFlag} || rec.locationID == ownerID)
    ensures rec.flagID !in {7, 61, 88, 89} && rec.locationID != ownerID ==> !IgnoreAsset(rec, ownerID)
  {
  }

  /** The ancestor list a node gets from the node it is attached to: the
      parent's own ancestors followed by the parent, or nothing for a root. */
  function ParentsOf(parent: Option<MyAsset>): (parents: seq<RawAsset>)
    ensures parent.None? ==> parents == []
    ensures parent.Some? ==> |parents| == |parent.value.parents| + 1 && parents[|parents| - 1] == parent.value.raw
    ensures parent.Some? ==> parents[..|parents| - 1] == parent.value.parents
  {
    if parent.Some? then parent.value.parents + [parent.value.raw] else []
  }

  /** The record as the ignore test and the node see it: a contained item takes
      over the location of its root ancestor; a root keeps its own. */
  function Relocated(rec: RawAsset, parents: seq<RawAsset>): (r: RawAsset)
    ensures r.itemID == rec.itemID && r.typeID == rec.typeID && r.flagID == rec.flagID && r.quantity == rec.quantity
    ensures parents == [] ==> r == rec
    ensures parents != [] ==> r.locationID == parents[0].locationID
  {
    if parents == [] then rec else rec.(locationID := parents[0].locationID)
  }

  /** The node made for an already relocated record, or nothing when it is ignored. */
  function Materialize(rec: RawAsset, ownerID: int, parents: seq<RawAsset>): (a: Option<MyAsset>)
    ensures a.None? <==> IgnoreAsset(rec, ownerID)
    ensures a.Some? ==> a.value.raw == rec && a.value.parents == parents && a.value.assets == []
  {
    if IgnoreAsset(rec, ownerID) then None else Some(MyAsset(rec, ownerID, parents, []))
  }
}
