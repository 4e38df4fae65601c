/** The three spreadsheet rows built from the per-sector lists
    (main.py:83-91). Each row is one list comprehension
    `[<header>] + [f(sector, e) for sector in sectors for e in all_data[sector]]`;
    `Cells` is that comprehension and `Cell` picks `f`. */
module Report {
  import opened Records

  datatype RowKind = PageRow | SectorRow | ChangeRow

  function Header(kind: RowKind): string
  {
    match kind
    case PageRow => "page"
    case SectorRow => "sector"
    case ChangeRow => "change"
  }

  /** What one entry of `sector` contributes to a row. */
  function Cell(kind: RowKind, sector: string, e: Entry): string
  {
    match kind
    case PageRow => sector
    case SectorRow => e.ticker
    case ChangeRow => e.change
  }

  /** Every sector of the list has a list of its own in `data`. */
  predicate Covers(sectors: seq<string>, data: map<string, seq<Entry>>)
  {
    forall i :: 0 <= i < |sectors| ==> sectors[i] in data
  }

  /** The number of entries over all sectors (with repetitions). */
  function Total(sectors: seq<string>, data: map<string, seq<Entry>>): nat
    requires Covers(sectors, data)
  {
    if sectors == [] then 0 else |data[sectors[0]]| + Total(sectors[1..], data)
  }

  /** The column (counted after the header) where sector `j`'s entries start. */
  function Offset(sectors: seq<string>, data: map<string, seq<Entry>>, j: nat): nat
    requires Covers(sectors, data) && j <= |sectors|
  {
    Total(sectors[..j], data)
  }

  function SectorCells(kind: RowKind, sector: string, es: seq<Entry>): seq<string>
  {
    seq(|es|, k requires 0 <= k < |es| => Cell(kind, sector, es[k]))
  }

  /** The comprehension part of one row: one cell per entry, sectors in order. */
  function Cells(kind: RowKind, sectors: seq<string>, data: map<string, seq<Entry>>): (r: seq<string>)
    requires Covers(sectors, data)
    ensures |r| == Total(sectors, data)
  {
    if sectors == [] then []
    else SectorCells(kind, sectors[0], data[sectors[0]]) + Cells(kind, sectors[1..], data)
  }

  /** All entries, sectors in order: the columns of the sheet. */
  function Concat(sectors: seq<string>, data: map<string, seq<Entry>>): (r: seq<Entry>)
    requires Covers(sectors, data)
    ensures |r| == Total(sectors, data)
  {
    if sectors == [] then [] else data[sectors[0]] + Concat(sectors[1..], data)
  }

  function Row(kind: RowKind, sectors: seq<string>, data: map<string, seq<Entry>>): seq<string>
    requires Covers(sectors, data)
  {
    [Header(kind)] + Cells(kind, sectors, data)
  }

  /** The `page`, `sector` and `change` rows appended to the worksheet. */
  datatype Sheet = Sheet(page: seq<string>, sector: seq<string>, change: seq<string>)

  function BuildSheet(sectors: seq<string>, data: map<string, seq<Entry>>): (sh: Sheet)
    requires Covers(sectors, data)
    ensures |sh.page| == |sh.sector| == |sh.change| == 1 + Total(sectors, data)
    ensures sh.page[0] == "page" && sh.sector[0] == "sector" && sh.change[0] == "change"
  {
    Sheet(Row(PageRow, sectors, data), Row(SectorRow, sectors, data), Row(ChangeRow, sectors, data))
  }

  // ---------------------------------------------------------------------
  // Column alignment

  lemma {:induction false} TotalIsZero(sectors: seq<string>, data: map<string, seq<Entry>>)
    requires Covers(sectors, data)
    ensures Total(sectors, data) == 0 <==> forall i :: 0 <= i < |sectors| ==> data[sectors[i]] == []
    decreases |sectors|
  {
    if sectors != [] {
      TotalIsZero(sectors[1..], data);
      assert forall i :: 1 <= i < |sectors| ==> sectors[i] == sectors[1..][i - 1];
    }
  }

  /** Sector `j`'s entries occupy the columns from `Offset(j)` up to `Offset(j + 1)`. */
  lemma {:induction false} OffsetStep(sectors: seq<string>, data: map<string, seq<Entry>>, j: nat)
    requires Covers(sectors, data) && j < |sectors|
    ensures Offset(sectors, data, j + 1) == Offset(sectors, data, j) + |data[sectors[j]]|
    ensures Offset(sectors, data, |sectors|) == Total(sectors, data)
    decreases j
  {
    assert sectors[..|sectors|] == sectors;
    if j > 0 {
      OffsetStep(sectors[1..], data, j - 1);
      assert sectors[..j][1..] == sectors[1..][..j - 1];
      assert sectors[..j + 1][1..] == sectors[1..][..j];
    } else {
      assert sectors[..1][1..] == [];
    }
  }

  /** The `q`-th entry of sector `j` sits in column `Offset(j) + q` of every row. */
  lemma {:induction false} CellAt(kind: RowKind, sectors: seq<string>, data: map<string, seq<Entry>>, j: nat, q: nat)
    requires Covers(sectors, data) && j < |sectors| && q < |data[sectors[j]]|
    ensures Offset(sectors, data, j) + q < Total(sectors, data)
    ensures Cells(kind, sectors, data)[Offset(sectors, data, j) + q] == Cell(kind, sectors[j], data[sectors[j]][q])
    decreases j
  {
    if j > 0 {
      CellAt(kind, sectors[1..], data, j - 1, q);
      assert sectors[..j][1..] == sectors[1..][..j - 1];
    }
  }

  /** Conversely, every column belongs to some such pair. */
  lemma {:induction false} CellOwner(sectors: seq<string>, data: map<string, seq<Entry>>, c: nat)
    returns (j: nat, q: nat)
    requires Covers(sectors, data) && c < Total(sectors, data)
    ensures j < |sectors| && q < |data[sectors[j]]|
    ensures Offset(sectors, data, j) + q == c
    decreases |sectors|
  {
    var n := |data[sectors[0]]|;
    if c < n {
      j, q := 0, c;
    } else {
      var j', q' := CellOwner(sectors[1..], data, c - n);
      assert sectors[..j' + 1][1..] == sectors[1..][..j'];
      j, q := j' + 1, q';
    }
  }

  lemma ConstantCount(r: seq<string>, x: string, y: string)
    requires forall k :: 0 <= k < |r| ==> r[k] == x
    ensures multiset(r)[y] == if y == x then |r| else 0
    decreases |r|
  {
    if r != [] {
      ConstantCount(r[1..], x, y);
      assert r == [r[0]] + r[1..];
    }
  }

  /** With distinct sector names, each name occurs in the page row as often
      as its sector has entries, and no other value occurs there. */
  lemma {:induction false} PageCount(sectors: seq<string>, data: map<string, seq<Entry>>, s: string)
    requires Covers(sectors, data) && Distinct(sectors)
    ensures multiset(Cells(PageRow, sectors, data))[s] == if s in sectors then |data[s]| else 0
    decreases |sectors|
  {
    if sectors != [] {
      var s0 := sectors[0];
      PageCount(sectors[1..], data, s);
      ConstantCount(SectorCells(PageRow, s0, data[s0]), s0, s);
    }
  }

  // ---------------------------------------------------------------------
  // Regrouping the columns by the runs of the page row

  datatype Group = Group(sector: string, entries: seq<Entry>)

  /** The length of the run of `x` at the start of `labels`. */
  function LeadCount(labels: seq<string>, x: string): (n: nat)
    ensures n <= |labels|
    ensures forall k :: 0 <= k < n ==> labels[k] == x
    ensures n < |labels| ==> labels[n] != x
  {
    if labels == [] || labels[0] != x then 0 else 1 + LeadCount(labels[1..], x)
  }

  /** Reads the columns back: one group per maximal run of equal page labels. */
  function Regroup(labels: seq<string>, entries: seq<Entry>): seq<Group>
    requires |labels| == |entries|
    decreases |labels|
  {
    if labels == [] then []
    else
      var n := LeadCount(labels, labels[0]);
      [Group(labels[0], entries[..n])] + Regroup(labels[n..], entries[n..])
  }

  /** The sectors that have entries, each with its list, in sector order. */
  function NonEmptyGroups(sectors: seq<string>, data: map<string, seq<Entry>>): seq<Group>
    requires Covers(sectors, data)
  {
    if sectors == [] then []
    else
      (if data[sectors[0]] == [] then [] else [Group(sectors[0], data[sectors[0]])])
      + NonEmptyGroups(sectors[1..], data)
  }

  function Zip(tickers: seq<string>, changes: seq<string>): (r: seq<Entry>)
    requires |tickers| == |changes|
    ensures |r| == |tickers|
  {
    seq(|tickers|, k requires 0 <= k < |tickers| => Entry(tickers[k], changes[k]))
  }

  /** The sector and change rows, read column by column, give back the entries. */
  lemma {:induction false} ZipCells(sectors: seq<string>, data: map<string, seq<Entry>>)
    requires Covers(sectors, data)
    ensures Zip(Cells(SectorRow, sectors, data), Cells(ChangeRow, sectors, data)) == Concat(sectors, data)
    decreases |sectors|
  {
    if sectors != [] {
      ZipCells(sectors[1..], data);
      var es := data[sectors[0]];
      var t, c := SectorCells(SectorRow, sectors[0], es), SectorCells(ChangeRow, sectors[0], es);
      var t', c' := Cells(SectorRow, sectors[1..], data), Cells(ChangeRow, sectors[1..], data);
      assert Zip(t + t', c + c') == Zip(t, c) + Zip(t', c');
      assert Zip(t, c) == es;
    }
  }

  lemma {:induction false} LeadCountOfRun(head: seq<string>, rest: seq<string>, x: string)
    requires forall k :: 0 <= k < |head| ==> head[k] == x
    requires rest == [] || rest[0] != x
    ensures LeadCount(head + rest, x) == |head|
    decreases |head|
  {
    if head != [] {
      assert (head + rest)[1..] == head[1..] + rest;
      LeadCountOfRun(head[1..], rest, x);
    } else {
      assert head + rest == rest;
    }
  }

  /** Every page label names one of the sectors. */
  lemma PageCellsName(sectors: seq<string>, data: map<string, seq<Entry>>, c: nat)
    requires Covers(sectors, data) && c < Total(sectors, data)
    ensures Cells(PageRow, sectors, data)[c] in sectors
  {
    var j, q := CellOwner(sectors, data, c);
    CellAt(PageRow, sectors, data, j, q);
  }

  /** Round trip: splitting the columns at the runs of the page row gives
      back every non-empty sector list, in sector order. */
  lemma {:induction false} RegroupRoundTrip(sectors: seq<string>, data: map<string, seq<Entry>>)
    requires Covers(sectors, data) && Distinct(sectors)
    ensures Regroup(Cells(PageRow, sectors, data), Concat(sectors, data)) == NonEmptyGroups(sectors, data)
    decreases |sectors|
  {
    if sectors != [] {
      var s0, rest := sectors[0], sectors[1..];
      var es := data[s0];
      var head := SectorCells(PageRow, s0, es);
      var p, c := Cells(PageRow, rest, data), Concat(rest, data);
      RegroupRoundTrip(rest, data);
      if es == [] {
        assert head + p == p && es + c == c;
      } else {
        if p != [] {
          PageCellsName(rest, data, 0);
          assert p[0] != s0 by {
            var k :| 0 <= k < |rest| && rest[k] == p[0];
            assert sectors[0] != sectors[k + 1];
          }
        }
        LeadCountOfRun(head, p, s0);
        assert (head + p)[0] == s0;
        assert (head + p)[|es|..] == p;
        assert (es + c)[..|es|] == es && (es + c)[|es|..] == c;
      }
    }
  }

  /** The same round trip, read off the finished sheet. */
  lemma SheetRoundTrip(sectors: seq<string>, data: map<string, seq<Entry>>)
    requires Covers(sectors, data) && Distinct(sectors)
    ensures var sh := BuildSheet(sectors, data);
      Regroup(sh.page[1..], Zip(sh.sector[1..], sh.change[1..])) == NonEmptyGroups(sectors, data)
  {
    var sh := BuildSheet(sectors, data);
    assert sh.page[1..] == Cells(PageRow, sectors, data);
    assert sh.sector[1..] == Cells(SectorRow, sectors, data);
    assert sh.change[1..] == Cells(ChangeRow, sectors, data);
    ZipCells(sectors, data);
    RegroupRoundTrip(sectors, data);
  }
}
