/** How the service list shows the size grid of an order: entries with a
    positive quantity, ordered by the list's comparator, each written as
    "<quantity> <size>", joined by ", ". */
module SizeGrid {
  import opened Options
  import opened Types
  import Strings
  import Numbers
  import Folds
  import Sorting

  /** The standard sizes, smallest first. */
  const StandardOrder: seq<string> := ["PP", "P", "M", "G", "GG", "EXG"]

  predicate IsStandard(size: string) {
    size in StandardOrder
  }

  /** `a.localeCompare(b)`, approximated by code-point order. */
  function LocaleCompare(a: string, b: string): int {
    if Strings.LexLess(a, b) then -1 else if a == b then 0 else 1
  }

  /** The comparator handed to `sort`: index difference when both sizes are
      standard, `localeCompare` otherwise. It is 0 only for equal sizes; a
      standard size belongs before another exactly when it comes earlier in
      PP, P, M, G, GG, EXG; any other pair goes by name. */
  function CompareAsWritten(a: string, b: string): (c: int)
    ensures c == 0 <==> a == b
    ensures IsStandard(a) && IsStandard(b) ==>
      (c < 0 <==> a in StandardOrder[..Strings.IndexOf(StandardOrder, b)])
    ensures !IsStandard(a) || !IsStandard(b) ==> (c < 0 <==> Strings.LexLess(a, b))
  {
    var ia, ib := Strings.IndexOf(StandardOrder, a), Strings.IndexOf(StandardOrder, b);
    assert ia != -1 && ib != -1 ==> (ia < ib <==> a in StandardOrder[..ib]) && (ia == ib ==> a == b) by {
      if ia != -1 && ib != -1 {
        Strings.IndexOfBefore(StandardOrder, a, b);
      }
    }
    Strings.LexLessIrreflexive(a);
    assert a != b ==> Strings.LexLess(a, b) || Strings.LexLess(b, a) by {
      if a != b {
        Strings.LexLessTotal(a, b);
      }
    }
    if ia != -1 && ib != -1 then ia - ib else LocaleCompare(a, b)
  }

  /** On a grid mixing standard and other sizes the comparator is not an
      order: P before G by index, G before H and H before P by name, and
      each pair the other way round is rejected. */
  lemma ComparatorCycle()
    ensures CompareAsWritten("P", "G") < 0 < CompareAsWritten("G", "P")
    ensures CompareAsWritten("G", "H") < 0 < CompareAsWritten("H", "G")
    ensures CompareAsWritten("H", "P") < 0 < CompareAsWritten("P", "H")
  {
    StandardPositions(StandardOrder);
    NamePair("G", "H");
    NamePair("H", "P");
  }

  /** Where "P", "G" and "H" stand in the standard order. */
  lemma StandardPositions(order: seq<string>)
    requires order == StandardOrder
    ensures Strings.IndexOf(order, "P") == 1 && Strings.IndexOf(order, "G") == 3
    ensures Strings.IndexOf(order, "H") == -1
  {
    assert order[0] == "PP" && order[1] == "P" && order[3] == "G";
    assert "H" !in order;
  }

  /** Two sizes, at least one of them not standard, whose first letters
      differ compare by those letters. */
  lemma NamePair(a: string, b: string)
    requires |a| > 0 && |b| > 0 && a[0] < b[0]
    requires Strings.IndexOf(StandardOrder, a) == -1 || Strings.IndexOf(StandardOrder, b) == -1
    ensures CompareAsWritten(a, b) < 0 < CompareAsWritten(b, a)
  {
    assert Strings.LexLess(a, b);
    assert !Strings.LexLess(b, a) && a != b;
  }

  /** Hence whatever order `sort` leaves the sizes P, G and H in, two of
      them stand against the comparator: the displayed order is whatever the
      engine's sorting algorithm happens to produce. */
  lemma NoOrderSatisfiesAsWritten(keys: seq<string>)
    requires "P" in keys && "G" in keys && "H" in keys
    ensures exists i, j :: 0 <= i < j < |keys| && CompareAsWritten(keys[i], keys[j]) > 0
  {
    ComparatorCycle();
    var iP :| 0 <= iP < |keys| && keys[iP] == "P";
    var iG :| 0 <= iG < |keys| && keys[iG] == "G";
    var iH :| 0 <= iH < |keys| && keys[iH] == "H";
    if iG < iP {
      assert CompareAsWritten(keys[iG], keys[iP]) > 0;
    } else if iH < iG {
      assert CompareAsWritten(keys[iH], keys[iG]) > 0;
    } else {
      assert iP != iG && iG != iH;
      assert CompareAsWritten(keys[iP], keys[iH]) > 0;
    }
  }

  /** A size compares equal to itself and to nothing else. */
  lemma CompareSelf(a: string)
    ensures CompareAsWritten(a, a) == 0
  {
    Strings.LexLessIrreflexive(a);
  }

  /** Swapping the arguments flips the sign of the comparator. */
  lemma CompareAntisymmetric(a: string, b: string)
    ensures CompareAsWritten(a, b) < 0 <==> CompareAsWritten(b, a) > 0
    ensures CompareAsWritten(a, b) == 0 <==> a == b
  {
    Strings.LexLessIrreflexive(a);
    if Strings.LexLess(a, b) && Strings.LexLess(b, a) {
      Strings.LexLessTransitive(a, b, a);
    }
    if a != b {
      Strings.LexLessTotal(a, b);
    }
  }

  /** The comparator handed to `sort`, as a "belongs strictly before" test
      on grid entries. */
  predicate AsWrittenBefore(a: SizeEntry, b: SizeEntry) {
    CompareAsWritten(a.size, b.size) < 0
  }

  /** The comparator is consistent on these entries: it is a strict weak
      order on them, so `sort` has one answer for them. */
  predicate ComparatorConsistent(entries: seq<SizeEntry>) {
    Sorting.StrictWeakOrderOn(entries, AsWrittenBefore)
  }

  /** `entries.sort(comparator)` on entries where the comparator is
      consistent: a permutation in which no entry comes after one that
      compares greater. */
  function SortAsWritten(entries: seq<SizeEntry>): (r: seq<SizeEntry>)
    requires ComparatorConsistent(entries)
    ensures multiset(r) == multiset(entries)
    ensures forall i, j :: 0 <= i < j < |r| ==> CompareAsWritten(r[i].size, r[j].size) <= 0
  {
    var r := Sorting.Sort(entries, AsWrittenBefore);
    forall i, j | 0 <= i < j < |r|
      ensures CompareAsWritten(r[i].size, r[j].size) <= 0
    {
      assert !AsWrittenBefore(r[j], r[i]);
      CompareAntisymmetric(r[i].size, r[j].size);
    }
    r
  }

  /** A grid holding P, G and H is one on which the comparator is not
      consistent. */
  lemma CyclicGridInconsistent(entries: seq<SizeEntry>, p: SizeEntry, g: SizeEntry, h: SizeEntry)
    requires p in entries && g in entries && h in entries
    requires p.size == "P" && g.size == "G" && h.size == "H"
    ensures !ComparatorConsistent(entries)
  {
    ComparatorCycle();
    assert AsWrittenBefore(p, g) && AsWrittenBefore(g, h) && !AsWrittenBefore(p, h);
  }

  /** Entries of at most two sizes: the comparator is consistent on them. */
  lemma PairConsistent(entries: seq<SizeEntry>, x: SizeEntry, y: SizeEntry)
    requires forall e :: e in entries ==> e == x || e == y
    ensures ComparatorConsistent(entries)
  {
    assert !AsWrittenBefore(x, x) && !AsWrittenBefore(y, y) by {
      CompareSelf(x.size);
      CompareSelf(y.size);
    }
    assert !(AsWrittenBefore(x, y) && AsWrittenBefore(y, x)) by {
      CompareAntisymmetric(x.size, y.size);
    }
    Sorting.StrictWeakOrderOnPair(entries, x, y, AsWrittenBefore);
  }

  /** All sizes of the grid are standard, or none is. */
  predicate Homogeneous(grid: SizeGrid) {
    || (forall i :: 0 <= i < |grid| ==> IsStandard(grid[i].size))
    || (forall i :: 0 <= i < |grid| ==> !IsStandard(grid[i].size))
  }

  /** In a grid whose sizes are all standard, or all not, any two entries
      are of the same kind. */
  lemma SameKind(grid: SizeGrid, a: SizeEntry, b: SizeEntry)
    requires Homogeneous(grid)
    requires a in grid && b in grid
    ensures IsStandard(a.size) == IsStandard(b.size)
  {
    var ia :| 0 <= ia < |grid| && grid[ia] == a;
    var ib :| 0 <= ib < |grid| && grid[ib] == b;
  }

  /** The position of a size in the standard order; every other size ranks
      after all standard ones. */
  function SizeRank(size: string): (r: nat)
    ensures r <= |StandardOrder|
    ensures r < |StandardOrder| <==> IsStandard(size)
    ensures r < |StandardOrder| ==> StandardOrder[r] == size
  {
    var i := Strings.IndexOf(StandardOrder, size);
    if i == -1 then |StandardOrder| else i
  }

  /** The order the display means: standard sizes in their fixed order, then
      the other sizes by name. */
  predicate SizeBefore(a: string, b: string) {
    SizeRank(a) < SizeRank(b) || (SizeRank(a) == SizeRank(b) && Strings.LexLess(a, b))
  }

  lemma SizeBeforeIrreflexive(a: string)
    ensures !SizeBefore(a, a)
  {
    Strings.LexLessIrreflexive(a);
  }

  lemma SizeBeforeTransitive(a: string, b: string, c: string)
    ensures SizeBefore(a, b) && SizeBefore(b, c) ==> SizeBefore(a, c)
  {
    if SizeBefore(a, b) && SizeBefore(b, c) && SizeRank(a) == SizeRank(b) == SizeRank(c) {
      Strings.LexLessTransitive(a, b, c);
    }
  }

  lemma SizeBeforeTotal(a: string, b: string)
    ensures a == b || SizeBefore(a, b) || SizeBefore(b, a)
  {
    if a != b && SizeRank(a) == SizeRank(b) {
      Strings.LexLessTotal(a, b);
    }
  }

  /** `SizeBefore` is a strict total order on size names. */
  lemma SizeBeforeIsStrictOrder(a: string, b: string, c: string)
    ensures !SizeBefore(a, a)
    ensures SizeBefore(a, b) ==> !SizeBefore(b, a)
    ensures SizeBefore(a, b) && SizeBefore(b, c) ==> SizeBefore(a, c)
    ensures a == b || SizeBefore(a, b) || SizeBefore(b, a)
  {
    SizeBeforeIrreflexive(a);
    SizeBeforeTransitive(a, b, a);
    SizeBeforeTransitive(a, b, c);
    SizeBeforeTotal(a, b);
  }

  /** Where the source's comparator is consistent (both sizes standard, or
      neither) it says the same as `SizeBefore`. */
  lemma SizeBeforeAgreesWithSource(a: string, b: string)
    requires IsStandard(a) == IsStandard(b)
    ensures SizeBefore(a, b) <==> CompareAsWritten(a, b) < 0
    ensures SizeBefore(b, a) <==> CompareAsWritten(a, b) > 0
  {
    Strings.LexLessIrreflexive(a);
    if Strings.LexLess(a, b) && Strings.LexLess(b, a) {
      Strings.LexLessTransitive(a, b, a);
    }
    if a != b {
      Strings.LexLessTotal(a, b);
    }
  }

  /** The order on grid entries: by size name. */
  predicate EntryBefore(a: SizeEntry, b: SizeEntry) {
    SizeBefore(a.size, b.size)
  }

  lemma EntryBeforeIsStrictWeakOrder()
    ensures Sorting.StrictWeakOrder(EntryBefore)
  {
    forall a: SizeEntry
      ensures !EntryBefore(a, a)
    {
      SizeBeforeIrreflexive(a.size);
    }
    forall a: SizeEntry, b: SizeEntry, c: SizeEntry
      ensures EntryBefore(a, b) && EntryBefore(b, c) ==> EntryBefore(a, c)
      ensures EntryBefore(a, c) ==> EntryBefore(a, b) || EntryBefore(b, c)
    {
      SizeBeforeTransitive(a.size, b.size, c.size);
      SizeBeforeTransitive(b.size, a.size, c.size);
      SizeBeforeTotal(a.size, b.size);
    }
  }

  predicate SortedBySize(xs: seq<SizeEntry>) {
    Sorting.Sorted(xs, EntryBefore)
  }

  /** The grid entries ordered by size: a permutation in which no entry
      comes after one whose size belongs after its own. */
  function SortBySize(xs: seq<SizeEntry>): (r: seq<SizeEntry>)
    ensures SortedBySize(r)
    ensures multiset(r) == multiset(xs)
  {
    EntryBeforeIsStrictWeakOrder();
    Sorting.StrictWeakOrderOnAny(xs, EntryBefore);
    Sorting.Sort(xs, EntryBefore)
  }

  predicate Positive(e: SizeEntry) {
    e.qty > 0
  }

  /** A number in a template literal: decimal digits, with a minus sign when
      negative. */
  function QtyText(q: int): string {
    if q < 0 then "-" + Numbers.NatToString(-q) else Numbers.NatToString(q)
  }

  /** `${qty} ${size}`. */
  function Render(e: SizeEntry): string {
    QtyText(e.qty) + " " + e.size
  }

  function RenderAll(es: seq<SizeEntry>): (r: seq<string>)
    ensures |r| == |es|
    ensures forall i :: 0 <= i < |es| ==> r[i] == Render(es[i])
    decreases |es|
  {
    if |es| == 0 then [] else [Render(es[0])] + RenderAll(es[1..])
  }

  /** The entries the display lists, in display order: sorted by the
      list's comparator wherever it is consistent on them. Where it is not
      (see `NoOrderSatisfiesAsWritten`) the source leaves the order to the
      engine's sorting algorithm, and the corrected order `SizeBefore` is
      used instead. */
  function ShownEntries(grid: SizeGrid): (shown: seq<SizeEntry>)
    ensures multiset(shown) == multiset(Folds.Filter(grid, Positive))
    ensures ComparatorConsistent(Folds.Filter(grid, Positive)) ==>
      forall i, j :: 0 <= i < j < |shown| ==> CompareAsWritten(shown[i].size, shown[j].size) <= 0
    ensures !ComparatorConsistent(Folds.Filter(grid, Positive)) ==> SortedBySize(shown)
  {
    var kept := Folds.Filter(grid, Positive);
    if ComparatorConsistent(kept) then SortAsWritten(kept) else SortBySize(kept)
  }

  /** The value `formatTamanhos` receives: nothing, the free-text size
      description of older orders, or the grid. */
  datatype TamanhosValue = NoSizes | SizeText(text: string) | SizeTable(grid: SizeGrid)

  /** `formatTamanhos`: `null` for a falsy argument (nothing, or empty text),
      text as it is, and for a grid the positive entries, rendered and joined
      in size order. */
  function FormatTamanhos(v: TamanhosValue): (r: Option<string>)
    ensures r.None? <==> v.NoSizes? || v == SizeText("")
    ensures v.SizeText? && r.Some? ==> r.value == v.text
  {
    match v
    case NoSizes => None
    case SizeText(text) => if text == "" then None else Some(text)
    case SizeTable(grid) => Some(Strings.Join(RenderAll(ShownEntries(grid)), ", "))
  }

  /** For a grid: the text joins, with ", ", one "<quantity> <size>" piece
      per shown entry; the shown entries are exactly the grid's entries with
      a positive quantity, as often as the grid holds them; no shown entry
      stands against the comparator where it is consistent, and the entries
      follow the corrected order where it is not. */
  lemma FormatGridContents(grid: SizeGrid)
    ensures FormatTamanhos(SizeTable(grid)) == Some(Strings.Join(RenderAll(ShownEntries(grid)), ", "))
    ensures multiset(ShownEntries(grid)) == multiset(Folds.Filter(grid, Positive))
    ensures forall e :: e in ShownEntries(grid) <==> e in grid && e.qty > 0
    ensures ComparatorConsistent(Folds.Filter(grid, Positive)) ==>
      var shown := ShownEntries(grid);
      forall i, j :: 0 <= i < j < |shown| ==> CompareAsWritten(shown[i].size, shown[j].size) <= 0
    ensures !ComparatorConsistent(Folds.Filter(grid, Positive)) ==> SortedBySize(ShownEntries(grid))
  {
    ShownMembership(grid, ShownEntries(grid));
  }

  /** A list with the positive entries' multiset holds exactly the entries
      with a positive quantity. */
  lemma ShownMembership(grid: SizeGrid, shown: seq<SizeEntry>)
    requires multiset(shown) == multiset(Folds.Filter(grid, Positive))
    ensures forall e :: e in shown <==> e in grid && e.qty > 0
  {
    var kept := Folds.Filter(grid, Positive);
    forall e
      ensures e in shown <==> e in grid && e.qty > 0
    {
      assert e in shown <==> e in multiset(shown);
      assert e in kept <==> e in multiset(kept);
      if e in kept {
        var i :| 0 <= i < |kept| && kept[i] == e;
        assert Positive(kept[i]);
      }
      if e in grid && e.qty > 0 {
        var i :| 0 <= i < |grid| && grid[i] == e;
        assert Positive(grid[i]);
      }
    }
  }

  /** On a grid whose sizes are all standard, or all not, the comparator is
      consistent, so the display is the source's, and the corrected order
      agrees with it. */
  lemma ConsistentGridsAgreeWithSource(grid: SizeGrid)
    requires Homogeneous(grid)
    ensures ComparatorConsistent(Folds.Filter(grid, Positive))
    ensures var shown := ShownEntries(grid);
      && (forall i, j :: 0 <= i < j < |shown| ==> CompareAsWritten(shown[i].size, shown[j].size) <= 0)
      && SortedBySize(shown)
  {
    var kept := Folds.Filter(grid, Positive);
    forall a, b, c | a in kept && b in kept && c in kept
      ensures !AsWrittenBefore(a, a)
      ensures AsWrittenBefore(a, b) && AsWrittenBefore(b, c) ==> AsWrittenBefore(a, c)
      ensures AsWrittenBefore(a, c) ==> AsWrittenBefore(a, b) || AsWrittenBefore(b, c)
    {
      SameKind(grid, a, b);
      SameKind(grid, b, c);
      SizeBeforeAgreesWithSource(a.size, b.size);
      SizeBeforeAgreesWithSource(b.size, c.size);
      SizeBeforeAgreesWithSource(a.size, c.size);
      SizeBeforeIsStrictOrder(a.size, b.size, c.size);
      SizeBeforeTransitive(b.size, a.size, c.size);
      SizeBeforeTotal(a.size, b.size);
    }
    assert ComparatorConsistent(kept);
    var shown := ShownEntries(grid);
    FormatGridContents(grid);
    forall i, j | 0 <= i < j < |shown|
      ensures !EntryBefore(shown[j], shown[i])
    {
      assert shown[i] in grid && shown[j] in grid;
      SameKind(grid, shown[i], shown[j]);
      SizeBeforeAgreesWithSource(shown[i].size, shown[j].size);
    }
  }

  /** When every size is a standard one, the display follows the fixed
      order PP, P, M, G, GG, EXG. */
  lemma StandardSizesInFixedOrder(grid: SizeGrid)
    requires forall i :: 0 <= i < |grid| ==> IsStandard(grid[i].size)
    ensures var shown := ShownEntries(grid);
      forall i, j :: 0 <= i < j < |shown| ==>
        Strings.IndexOf(StandardOrder, shown[i].size) <= Strings.IndexOf(StandardOrder, shown[j].size)
  {
    var shown := ShownEntries(grid);
    ConsistentGridsAgreeWithSource(grid);
    FormatGridContents(grid);
    forall i, j | 0 <= i < j < |shown|
      ensures Strings.IndexOf(StandardOrder, shown[i].size) <= Strings.IndexOf(StandardOrder, shown[j].size)
    {
      assert shown[i] in grid && shown[j] in grid;
      assert CompareAsWritten(shown[i].size, shown[j].size) <= 0;
    }
  }

  lemma ExampleKept(grid: SizeGrid)
    requires grid == [SizeEntry("G", 2), SizeEntry("P", 3), SizeEntry("M", 0)]
    ensures Folds.Filter(grid, Positive) == [SizeEntry("G", 2), SizeEntry("P", 3)]
  {
    var rest, last := grid[1..], grid[1..][1..];
    assert rest == [SizeEntry("P", 3), SizeEntry("M", 0)] && last == [SizeEntry("M", 0)];
    assert Folds.Filter(last, Positive) == [] by {
      assert last[1..] == [];
    }
  }

  lemma ExampleShown(grid: SizeGrid)
    requires grid == [SizeEntry("G", 2), SizeEntry("P", 3), SizeEntry("M", 0)]
    ensures ShownEntries(grid) == [SizeEntry("P", 3), SizeEntry("G", 2)]
  {
    var kept := [SizeEntry("G", 2), SizeEntry("P", 3)];
    PairConsistent(kept, kept[0], kept[1]);
    assert ShownEntries(grid) == SortAsWritten(kept) by {
      ExampleKept(grid);
    }
    assert CompareAsWritten("P", "G") < 0 by {
      ComparatorCycle();
    }
    SortedPairAsWritten(kept, SizeEntry("P", 3), SizeEntry("G", 2));
  }

  /** Sorting two entries that the comparator puts in a strict order. */
  lemma SortedPairAsWritten(entries: seq<SizeEntry>, a: SizeEntry, b: SizeEntry)
    requires ComparatorConsistent(entries)
    requires multiset(entries) == multiset{a, b}
    requires CompareAsWritten(a.size, b.size) < 0
    ensures SortAsWritten(entries) == [a, b]
  {
    var r := SortAsWritten(entries);
    assert !AsWrittenBefore(a, a) by {
      CompareSelf(a.size);
    }
    assert Sorting.Sorted(r, AsWrittenBefore) by {
      forall i, j | 0 <= i < j < |r|
        ensures !AsWrittenBefore(r[j], r[i])
      {
        CompareAntisymmetric(r[i].size, r[j].size);
      }
    }
    Sorting.SortedPair(r, a, b, AsWrittenBefore);
  }

  lemma ExampleRender(shown: seq<SizeEntry>)
    requires shown == [SizeEntry("P", 3), SizeEntry("G", 2)]
    ensures RenderAll(shown) == ["3 P", "2 G"]
  {
    assert Render(shown[0]) == "3 P" by {
      assert Numbers.NatToString(3) == "3";
    }
    assert Render(shown[1]) == "2 G" by {
      assert Numbers.NatToString(2) == "2";
    }
    var r := RenderAll(shown);
    assert |r| == 2 && r[0] == "3 P" && r[1] == "2 G";
  }

  /** G: 2, P: 3, M: 0 is shown as "3 P, 2 G". */
  lemma FormatExample(grid: SizeGrid)
    requires grid == [SizeEntry("G", 2), SizeEntry("P", 3), SizeEntry("M", 0)]
    ensures FormatTamanhos(SizeTable(grid)) == Some("3 P, 2 G")
  {
    ExampleShown(grid);
    var pieces := RenderAll(ShownEntries(grid));
    ExampleRender(ShownEntries(grid));
    Strings.JoinTwo("3 P", "2 G", ", ");
    var text := Strings.Join(pieces, ", ");
    assert text == "3 P" + ", " + "2 G";
    assert FormatTamanhos(SizeTable(grid)) == Some(text);
    ExampleText(text);
  }

  lemma ExampleText(text: string)
    requires text == "3 P" + ", " + "2 G"
    ensures text == "3 P, 2 G"
  {
  }

  /** {EG: 2, M: 3} is shown as "2 EG, 3 M": "EG" is not one of the
      standard sizes (the largest is "EXG"), so the comparator orders the
      two by name, and it is consistent on them. The corrected order alone
      would have put M first. */
  lemma MixedGridExample(grid: SizeGrid)
    requires grid == [SizeEntry("EG", 2), SizeEntry("M", 3)]
    ensures ComparatorConsistent(Folds.Filter(grid, Positive))
    ensures FormatTamanhos(SizeTable(grid)) == Some("2 EG, 3 M")
    ensures SizeBefore("M", "EG")
  {
    MixedShown(grid);
    MixedRender(ShownEntries(grid));
    Strings.JoinTwo("2 EG", "3 M", ", ");
    var text := Strings.Join(RenderAll(ShownEntries(grid)), ", ");
    assert text == "2 EG" + ", " + "3 M";
    assert FormatTamanhos(SizeTable(grid)) == Some(text);
    MixedText(text);
    MBeforeEG();
  }

  lemma MixedText(text: string)
    requires text == "2 EG" + ", " + "3 M"
    ensures text == "2 EG, 3 M"
  {
  }

  lemma MBeforeEG()
    ensures SizeBefore("M", "EG")
  {
    assert "EG" !in StandardOrder;
    assert SizeRank("M") == 2 by {
      assert StandardOrder[2] == "M" && StandardOrder[..2] == ["PP", "P"];
    }
  }

  lemma MixedShown(grid: SizeGrid)
    requires grid == [SizeEntry("EG", 2), SizeEntry("M", 3)]
    ensures ComparatorConsistent(Folds.Filter(grid, Positive))
    ensures ShownEntries(grid) == grid
  {
    assert Folds.Filter(grid, Positive) == grid by {
      assert grid[1..][1..] == [];
    }
    PairConsistent(grid, grid[0], grid[1]);
    assert CompareAsWritten("EG", "M") < 0 by {
      assert "EG" !in StandardOrder;
      NamePair("EG", "M");
    }
    SortedPairAsWritten(grid, SizeEntry("EG", 2), SizeEntry("M", 3));
  }

  lemma MixedRender(shown: seq<SizeEntry>)
    requires shown == [SizeEntry("EG", 2), SizeEntry("M", 3)]
    ensures RenderAll(shown) == ["2 EG", "3 M"]
  {
    assert Render(shown[0]) == "2 EG" by {
      assert Numbers.NatToString(2) == "2";
    }
    assert Render(shown[1]) == "3 M" by {
      assert Numbers.NatToString(3) == "3";
    }
    var r := RenderAll(shown);
    assert |r| == 2 && r[0] == "2 EG" && r[1] == "3 M";
  }
}
