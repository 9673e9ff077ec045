/**
 * The industry slots tab: the comparator that keeps grand-total rows after all
 * other rows, and the status-bar total that counts every shown row except the
 * grand totals.
 */
module IndustrySlots {

  /** A row of the industry slots table. The slot counters it carries are not
      modelled; what matters here is whether the row is a grand total. */
  datatype IndustrySlot = IndustrySlot(name: string, grandTotal: bool)

  /** The class of a row in the sort order: ordinary rows first, grand totals after. */
  function Rank(slot: IndustrySlot): (r: int)
    ensures r == 0 || r == 1
    ensures r == 1 <==> slot.grandTotal
  {
    if slot.grandTotal then 1 else 0
  }

  /** The comparator of the table's sorted list. */
  function Compare(o1: IndustrySlot, o2: IndustrySlot): (c: int)
    ensures c == Rank(o1) - Rank(o2)
  {
    if o1.grandTotal && o2.grandTotal then 0
    else if o1.grandTotal then 1
    else if o2.grandTotal then -1
    else 0
  }

  /** The four cases of the comparator. */
  lemma CompareCases(o1: IndustrySlot, o2: IndustrySlot)
    ensures o1.grandTotal && o2.grandTotal ==> Compare(o1, o2) == 0
    ensures o1.grandTotal && !o2.grandTotal ==> Compare(o1, o2) == 1
    ensures !o1.grandTotal && o2.grandTotal ==> Compare(o1, o2) == -1
    ensures !o1.grandTotal && !o2.grandTotal ==> Compare(o1, o2) == 0
  {
  }

  lemma CompareAntisymmetric(o1: IndustrySlot, o2: IndustrySlot)
    ensures Compare(o1, o2) == -Compare(o2, o1)
  {
  }

  /** A total preorder: reflexive, total and transitive. */
  lemma ComparePreorder(a: IndustrySlot, b: IndustrySlot, c: IndustrySlot)
    ensures Compare(a, a) == 0
    ensures Compare(a, b) <= 0 || Compare(b, a) <= 0
    ensures Compare(a, b) <= 0 && Compare(b, c) <= 0 ==> Compare(a, c) <= 0
    ensures Compare(a, b) == 0 && Compare(b, c) == 0 ==> Compare(a, c) == 0
  {
  }

  /** Exactly two classes: rows compare equal when both or neither are grand
      totals, and ordinary rows come first. */
  lemma CompareTwoClasses(a: IndustrySlot, b: IndustrySlot)
    ensures Compare(a, b) == 0 <==> a.grandTotal == b.grandTotal
    ensures Compare(a, b) < 0 <==> !a.grandTotal && b.grandTotal
  {
  }

  /** A list ordered by the comparator. */
  predicate SortedByTotal(rows: seq<IndustrySlot>)
  {
    forall i, j :: 0 <= i < j < |rows| ==> Compare(rows[i], rows[j]) <= 0
  }

  /** No grand total comes before an ordinary row. */
  predicate TotalsLast(rows: seq<IndustrySlot>)
  {
    forall i, j :: 0 <= i < j < |rows| && rows[i].grandTotal ==> rows[j].grandTotal
  }

  /** In a list ordered by the comparator no grand total comes before an
      ordinary row. */
  lemma SortedTotalsLast(rows: seq<IndustrySlot>)
    requires SortedByTotal(rows)
    ensures TotalsLast(rows)
  {
    forall i, j | 0 <= i < j < |rows| && rows[i].grandTotal ensures rows[j].grandTotal {
      assert Compare(rows[i], rows[j]) <= 0;
    }
  }

  /** Such a list is its ordinary rows followed by its grand totals. */
  lemma {:induction false} TotalsLastSplit(rows: seq<IndustrySlot>)
    requires TotalsLast(rows)
    ensures rows == NonTotals(rows) + GrandTotals(rows)
  {
    if rows != [] {
      var front, last := rows[..|rows| - 1], rows[|rows| - 1];
      assert TotalsLast(front) by {
        forall i, j | 0 <= i < j < |front| && front[i].grandTotal ensures front[j].grandTotal {
          assert front[i] == rows[i] && front[j] == rows[j];
        }
      }
      TotalsLastSplit(front);
      assert rows == front + [last];
      if last.grandTotal {
        assert NonTotals(rows) == NonTotals(front);
        assert GrandTotals(rows) == GrandTotals(front) + [last];
      } else {
        forall i | 0 <= i < |front| ensures !front[i].grandTotal {
          assert front[i] == rows[i];
        }
        NoTotals(front);
        assert rows == NonTotals(front) + [last];
      }
    }
  }

  lemma {:induction false} NoTotals(rows: seq<IndustrySlot>)
    requires forall i :: 0 <= i < |rows| ==> !rows[i].grandTotal
    ensures GrandTotals(rows) == []
  {
    if rows != [] {
      NoTotals(rows[..|rows| - 1]);
    }
  }

  /** The rows that are not grand totals, in order. */
  function NonTotals(rows: seq<IndustrySlot>): seq<IndustrySlot>
  {
    if rows == [] then []
    else NonTotals(rows[..|rows| - 1]) + (if rows[|rows| - 1].grandTotal then [] else [rows[|rows| - 1]])
  }

  /** The grand-total rows, in order. */
  function GrandTotals(rows: seq<IndustrySlot>): seq<IndustrySlot>
  {
    if rows == [] then []
    else GrandTotals(rows[..|rows| - 1]) + (if rows[|rows| - 1].grandTotal then [rows[|rows| - 1]] else [])
  }

  /** Each ordinary row is counted exactly as often as it occurs, and no grand
      total is counted. */
  lemma {:induction false} NonTotalsCounts(rows: seq<IndustrySlot>)
    ensures forall x :: multiset(NonTotals(rows))[x] == if x.grandTotal then 0 else multiset(rows)[x]
  {
    if rows != [] {
      var front, last := rows[..|rows| - 1], rows[|rows| - 1];
      NonTotalsCounts(front);
      assert rows == front + [last];
      assert multiset(rows) == multiset(front) + multiset{last};
    }
  }

  /** The accumulator of the status bar. Its counters are not modelled; it
      records the rows it has counted, in order. */
  class SlotTotal {
    var name: string
    var counted: seq<IndustrySlot>

    constructor (name: string)
      ensures this.name == name && counted == []
    {
      this.name := name;
      counted := [];
    }

    method Count(slot: IndustrySlot)
      modifies this
      ensures name == old(name) && counted == old(counted) + [slot]
    {
      counted := counted + [slot];
    }
  }

  /** The status-bar total after the shown rows changed: a fresh accumulator that
      has counted every shown row except the grand totals, once each, in order. */
  method ListChanged(filterList: seq<IndustrySlot>) returns (total: SlotTotal)
    ensures fresh(total)
    ensures total.name == "" && total.counted == NonTotals(filterList)
  {
    total := new SlotTotal("");
    for k := 0 to |filterList|
      invariant total.name == "" && total.counted == NonTotals(filterList[..k])
    {
      var industrySlot := filterList[k];
      assert filterList[..k + 1][..k] == filterList[..k];
      if industrySlot.grandTotal {
        continue;
      }
      total.Count(industrySlot);
    }
    assert filterList[..|filterList|] == filterList;
  }
}
