/** `fetch_data` (main.py:26-100): fetch every sector page in order, collect
    the (ticker, change) pairs of its heatmap tiles, sort them, and turn the
    collected lists into the three worksheet rows. The network and the HTML
    parser are abstracted into one `Page` value per sector. */
module Crawler {
  import opened Records
  import opened StableSort
  import opened Report

  /** The fixed sector list; its order is the column order of the sheet. */
  const Sectors: seq<string> := [
    "technology", "financial-services", "healthcare", "consumer-cyclical",
    "communication-services", "industrials", "consumer-defensive", "energy",
    "basic-materials", "real-estate", "utilities"
  ]

  lemma SectorsDistinct()
    ensures Distinct(Sectors) && |Sectors| == 11
  {
  }

  /** One matching `a` tile of the heatmap container: the stripped text of
      its `ticker-div` and `percent-div` children, `None` when the child is
      missing. */
  datatype Link = Link(tickerDiv: Option<string>, percentDiv: Option<string>)

  /** What fetching and parsing one sector page yields. */
  datatype Page =
    | FetchFailed                  // the request raised, or the status was not 2xx
    | NoContainer                  // no `div.heatMap-container` on the page
    | Container(links: seq<Link>)  // the matching tiles inside it, possibly none

  /** How a run ends. Only `Saved` writes a workbook. */
  datatype Outcome =
    | FetchAborted(sector: string) // error dialog, the run stops at this sector
    | ParseCrash(sector: string)   // a tile without one of its two children: `.text` on None raises
    | NoData                       // every list stayed empty
    | Saved(sheet: Sheet)

  /** The state of the loop over the sectors. */
  datatype Progress = Continue(data: map<string, seq<Entry>>) | Halt(outcome: Outcome)

  predicate HasChildren(link: Link)
  {
    link.tickerDiv.Some? && link.percentDiv.Some?
  }

  predicate Complete(links: seq<Link>)
  {
    forall k :: 0 <= k < |links| ==> HasChildren(links[k])
  }

  function EntryOf(link: Link): Entry
    requires HasChildren(link)
  {
    Entry(link.tickerDiv.value, link.percentDiv.value)
  }

  /** The pairs appended for the tiles, in page order. */
  function Entries(links: seq<Link>): (es: seq<Entry>)
    requires Complete(links)
  {
    seq(|links|, k requires 0 <= k < |links| && HasChildren(links[k]) => EntryOf(links[k]))
  }

  /** `{sector: [] for sector in sectors}` */
  function Initial(sectors: seq<string>): map<string, seq<Entry>>
  {
    map s | s in sectors :: []
  }

  /** One iteration of the loop over the sectors. */
  function Step(data: map<string, seq<Entry>>, sector: string, page: Page): Progress
    requires sector in data
  {
    match page
    case FetchFailed => Halt(FetchAborted(sector))
    case NoContainer => Continue(data)
    case Container(links) =>
      if links == [] then Continue(data)
      else if !Complete(links) then Halt(ParseCrash(sector))
      else Continue(data[sector := Sort(data[sector] + Entries(links))])
  }

  /** The loop after its first `n` iterations; the keys never change. */
  function Accumulate(sectors: seq<string>, pages: seq<Page>, n: nat): (p: Progress)
    requires |pages| == |sectors| && n <= |sectors|
    ensures p.Continue? ==> p.data.Keys == Initial(sectors).Keys
    ensures p.Halt? ==> p.outcome.FetchAborted? || p.outcome.ParseCrash?
  {
    if n == 0 then Continue(Initial(sectors))
    else
      match Accumulate(sectors, pages, n - 1)
      case Halt(o) => Halt(o)
      case Continue(data) => Step(data, sectors[n - 1], pages[n - 1])
  }

  /** `not any(all_data.values())` */
  predicate NoEntries(data: map<string, seq<Entry>>)
  {
    forall s :: s in data ==> data[s] == []
  }

  /** The whole run, as a function of the pages the sectors yield. */
  function Run(sectors: seq<string>, pages: seq<Page>): Outcome
    requires |pages| == |sectors|
  {
    match Accumulate(sectors, pages, |sectors|)
    case Halt(o) => o
    case Continue(data) =>
      if NoEntries(data) then NoData else Saved(BuildSheet(sectors, data))
  }

  /** The list a sector ends with when its page is processed. */
  function ListOf(page: Page): seq<Entry>
  {
    match page
    case Container(links) => if Complete(links) then Sort(Entries(links)) else []
    case _ => []
  }

  // ---------------------------------------------------------------------
  // The loop as the program runs it

  /** `for link in sector_links: all_data[sector].append((ticker, change))`;
      stops with `complete == false` at the first tile missing a child. */
  method AppendLinks(list: seq<Entry>, links: seq<Link>) returns (complete: bool, appended: seq<Entry>)
    ensures complete == Complete(links)
    ensures complete ==> appended == list + Entries(links)
  {
    appended := list;
    var j := 0;
    while j < |links|
      invariant 0 <= j <= |links|
      invariant Complete(links[..j])
      invariant appended == list + Entries(links[..j])
    {
      var link := links[j];
      if link.tickerDiv.None? || link.percentDiv.None? {
        return false, appended;
      }
      assert Entries(links[..j + 1]) == Entries(links[..j]) + [EntryOf(link)];
      appended := appended + [EntryOf(link)];
      j := j + 1;
    }
    assert links[..j] == links;
    complete := true;
  }

  /** The body of `for sector in sectors`: the dialogs of the two skipping
      branches and the progress bar are left out; `continue` is `Continue`
      and the early exits are `Halt`. */
  method ProcessSector(allData: map<string, seq<Entry>>, sector: string, page: Page) returns (p: Progress)
    requires sector in allData
    ensures p == Step(allData, sector, page)
  {
    match page
    case FetchFailed =>
      return Halt(FetchAborted(sector));
    case NoContainer =>
      return Continue(allData);
    case Container(links) =>
      if links == [] {
        return Continue(allData);
      }
      var complete, appended := AppendLinks(allData[sector], links);
      if !complete {
        return Halt(ParseCrash(sector));
      }
      var data := allData[sector := appended];
      var sorted := SortByTicker(data[sector]);
      data := data[sector := sorted];
      return Continue(data);
  }

  method FetchData(sectors: seq<string>, pages: seq<Page>) returns (outcome: Outcome)
    requires |pages| == |sectors|
    ensures outcome == Run(sectors, pages)
  {
    var allData := map s | s in sectors :: [];
    for i := 0 to |sectors|
      invariant Accumulate(sectors, pages, i) == Continue(allData)
    {
      AccumulateStep(sectors, pages, i);
      var progress := ProcessSector(allData, sectors[i], pages[i]);
      match progress
      case Halt(o) =>
        HaltIsFinal(sectors, pages, i + 1);
        return o;
      case Continue(data) =>
        allData := data;
    }
    if exists s | s in allData :: allData[s] != [] {
      outcome := Saved(BuildSheet(sectors, allData));
    } else {
      outcome := NoData;
    }
  }

  // ---------------------------------------------------------------------
  // Aborting

  /** Once the loop has stopped, the run ends with that outcome. */
  lemma {:induction false} HaltIsFinal(sectors: seq<string>, pages: seq<Page>, n: nat)
    requires |pages| == |sectors| && n <= |sectors|
    requires Accumulate(sectors, pages, n).Halt?
    ensures Run(sectors, pages) == Accumulate(sectors, pages, n).outcome
    decreases |sectors| - n
  {
    if n < |sectors| {
      HaltIsFinal(sectors, pages, n + 1);
    }
  }

  /** The first `n` iterations only look at the first `n` pages. */
  lemma {:induction false} AccumulateReadsPrefix(sectors: seq<string>, pages: seq<Page>, pages': seq<Page>, n: nat)
    requires |pages| == |pages'| == |sectors| && n <= |sectors|
    requires pages[..n] == pages'[..n]
    ensures Accumulate(sectors, pages, n) == Accumulate(sectors, pages', n)
    decreases n
  {
    if n > 0 {
      assert pages[..n - 1] == pages[..n][..n - 1];
      assert pages'[..n - 1] == pages'[..n][..n - 1];
      assert pages[n - 1] == pages[..n][n - 1];
      AccumulateReadsPrefix(sectors, pages, pages', n - 1);
    }
  }

  /** A failed fetch ends the run at that sector, and no later page matters. */
  lemma FetchFailureAborts(sectors: seq<string>, pages: seq<Page>, i: nat)
    requires |pages| == |sectors| && i < |sectors|
    requires Accumulate(sectors, pages, i).Continue? && pages[i].FetchFailed?
    ensures Run(sectors, pages) == FetchAborted(sectors[i])
    ensures forall pages' :: |pages'| == |sectors| && pages'[..i + 1] == pages[..i + 1] ==>
      Run(sectors, pages') == FetchAborted(sectors[i])
  {
    HaltIsFinal(sectors, pages, i + 1);
    forall pages' | |pages'| == |sectors| && pages'[..i + 1] == pages[..i + 1]
      ensures Run(sectors, pages') == FetchAborted(sectors[i])
    {
      AccumulateReadsPrefix(sectors, pages, pages', i + 1);
      HaltIsFinal(sectors, pages', i + 1);
    }
  }

  /** The loop stops at the first sector whose page fails; it is the first
      index where the progress is no longer `Continue`. */
  lemma {:induction false} HaltedAt(sectors: seq<string>, pages: seq<Page>, n: nat) returns (i: nat)
    requires |pages| == |sectors| && n <= |sectors|
    requires Accumulate(sectors, pages, n).Halt?
    ensures i < n && Accumulate(sectors, pages, i).Continue?
    ensures Accumulate(sectors, pages, i + 1) == Accumulate(sectors, pages, n)
    ensures Step(Accumulate(sectors, pages, i).data, sectors[i], pages[i]) == Accumulate(sectors, pages, n)
    decreases n
  {
    if Accumulate(sectors, pages, n - 1).Halt? {
      i := HaltedAt(sectors, pages, n - 1);
    } else {
      i := n - 1;
    }
  }

  /** Conversely, the run aborts only at a sector whose fetch failed, after
      every earlier sector was processed. */
  lemma AbortedOnlyByFetchFailure(sectors: seq<string>, pages: seq<Page>, s: string) returns (i: nat)
    requires |pages| == |sectors|
    requires Run(sectors, pages) == FetchAborted(s)
    ensures i < |sectors| && sectors[i] == s && pages[i].FetchFailed?
    ensures Accumulate(sectors, pages, i).Continue?
  {
    i := HaltedAt(sectors, pages, |sectors|);
  }

  /** A reached container holding a tile without its ticker or percent
      child crashes the run at that sector, and no later page matters. */
  lemma MissingChildCrashes(sectors: seq<string>, pages: seq<Page>, i: nat)
    requires |pages| == |sectors| && i < |sectors| && Accumulate(sectors, pages, i).Continue?
    requires pages[i].Container? && exists k :: 0 <= k < |pages[i].links| && !HasChildren(pages[i].links[k])
    ensures Run(sectors, pages) == ParseCrash(sectors[i])
    ensures forall pages' :: |pages'| == |sectors| && pages'[..i + 1] == pages[..i + 1] ==>
      Run(sectors, pages') == ParseCrash(sectors[i])
  {
    AccumulateStep(sectors, pages, i);
    HaltIsFinal(sectors, pages, i + 1);
    forall pages' | |pages'| == |sectors| && pages'[..i + 1] == pages[..i + 1]
      ensures Run(sectors, pages') == ParseCrash(sectors[i])
    {
      AccumulateReadsPrefix(sectors, pages, pages', i + 1);
      HaltIsFinal(sectors, pages', i + 1);
    }
  }

  /** Conversely, the run crashes only at a sector whose container holds a
      tile without one of its two children, after every earlier sector was
      processed. */
  lemma CrashOnlyOnMissingChild(sectors: seq<string>, pages: seq<Page>, s: string) returns (i: nat)
    requires |pages| == |sectors|
    requires Run(sectors, pages) == ParseCrash(s)
    ensures i < |sectors| && sectors[i] == s && Accumulate(sectors, pages, i).Continue?
    ensures pages[i].Container? && exists k :: 0 <= k < |pages[i].links| && !HasChildren(pages[i].links[k])
  {
    i := HaltedAt(sectors, pages, |sectors|);
  }

  // ---------------------------------------------------------------------
  // What the lists hold

  /** Every list in `all_data` is sorted by ticker after every iteration. */
  lemma {:induction false} ListsStaySorted(sectors: seq<string>, pages: seq<Page>, n: nat)
    requires |pages| == |sectors| && n <= |sectors|
    requires Accumulate(sectors, pages, n).Continue?
    ensures forall s :: s in Accumulate(sectors, pages, n).data ==> Sorted(Accumulate(sectors, pages, n).data[s])
    decreases n
  {
    if n > 0 {
      ListsStaySorted(sectors, pages, n - 1);
      var data := Accumulate(sectors, pages, n - 1).data;
      var sector := sectors[n - 1];
      if pages[n - 1].Container? && pages[n - 1].links != [] {
        SortSorted(data[sector] + Entries(pages[n - 1].links));
      }
    }
  }

  /** With distinct sector names, a processed sector holds exactly the sorted
      pairs of its own page (empty for a missing container or no tiles) and
      every other sector still holds the empty list. */
  lemma {:induction false} PerSectorResult(sectors: seq<string>, pages: seq<Page>, n: nat, i: nat)
    requires |pages| == |sectors| && n <= |sectors| && Distinct(sectors) && i < |sectors|
    requires Accumulate(sectors, pages, n).Continue?
    ensures Accumulate(sectors, pages, n).data[sectors[i]] == if i < n then ListOf(pages[i]) else []
    decreases n
  {
    if n > 0 {
      var prev := Accumulate(sectors, pages, n - 1).data;
      var cur := Accumulate(sectors, pages, n).data;
      var sector := sectors[n - 1];
      assert cur == prev[sector := ListOf(pages[n - 1])] by {
        PerSectorResult(sectors, pages, n - 1, n - 1);
        AccumulateStep(sectors, pages, n - 1);
        StepOnEmptyList(prev, sector, pages[n - 1]);
      }
      if i != n - 1 {
        assert sectors[i] != sector;
        PerSectorResult(sectors, pages, n - 1, i);
      }
    }
  }

  /** One more iteration of a loop that has not stopped is one `Step`. */
  lemma AccumulateStep(sectors: seq<string>, pages: seq<Page>, n: nat)
    requires |pages| == |sectors| && n < |sectors|
    requires Accumulate(sectors, pages, n).Continue?
    ensures sectors[n] in Accumulate(sectors, pages, n).data
    ensures Accumulate(sectors, pages, n + 1) == Step(Accumulate(sectors, pages, n).data, sectors[n], pages[n])
  {
  }

  /** A step that continues gives a sector with an empty list the list of its page. */
  lemma StepOnEmptyList(data: map<string, seq<Entry>>, sector: string, page: Page)
    requires sector in data && data[sector] == []
    requires Step(data, sector, page).Continue?
    ensures Step(data, sector, page).data == data[sector := ListOf(page)]
  {
    if page.Container? && page.links != [] {
      assert data[sector] + Entries(page.links) == Entries(page.links);
    } else {
      assert data[sector := []] == data;
    }
  }

  /** The groups a reader should find in the sheet: each sector with a
      non-empty list, in sector order. */
  function ExpectedGroups(sectors: seq<string>, pages: seq<Page>): seq<Group>
    requires |pages| == |sectors|
  {
    if sectors == [] then []
    else
      (if ListOf(pages[0]) == [] then [] else [Group(sectors[0], ListOf(pages[0]))])
      + ExpectedGroups(sectors[1..], pages[1..])
  }

  lemma {:induction false} GroupsOfLists(sectors: seq<string>, pages: seq<Page>, data: map<string, seq<Entry>>)
    requires |pages| == |sectors| && Covers(sectors, data)
    requires forall i :: 0 <= i < |sectors| ==> data[sectors[i]] == ListOf(pages[i])
    ensures NonEmptyGroups(sectors, data) == ExpectedGroups(sectors, pages)
    decreases |sectors|
  {
    if sectors != [] {
      assert forall i :: 0 <= i < |sectors| - 1 ==> sectors[1..][i] == sectors[i + 1] && pages[1..][i] == pages[i + 1];
      GroupsOfLists(sectors[1..], pages[1..], data);
    }
  }

  lemma {:induction false} NoGroupsIffEmpty(sectors: seq<string>, pages: seq<Page>)
    requires |pages| == |sectors|
    ensures ExpectedGroups(sectors, pages) == [] <==> forall i :: 0 <= i < |sectors| ==> ListOf(pages[i]) == []
    decreases |sectors|
  {
    if sectors != [] {
      NoGroupsIffEmpty(sectors[1..], pages[1..]);
      assert forall i :: 1 <= i < |sectors| ==> pages[1..][i - 1] == pages[i];
    }
  }

  // ---------------------------------------------------------------------
  // How a run that does not abort ends

  /** No workbook is written exactly when the loop ran to the end and every
      sector's list is empty. */
  lemma NoDataIff(sectors: seq<string>, pages: seq<Page>)
    requires |pages| == |sectors| && Distinct(sectors)
    ensures Run(sectors, pages) == NoData <==>
      Accumulate(sectors, pages, |sectors|).Continue? &&
      forall i :: 0 <= i < |sectors| ==> ListOf(pages[i]) == []
  {
    var p := Accumulate(sectors, pages, |sectors|);
    if p.Continue? {
      forall i | 0 <= i < |sectors| ensures p.data[sectors[i]] == ListOf(pages[i]) {
        PerSectorResult(sectors, pages, |sectors|, i);
      }
      NoEntriesOfSectors(sectors, p.data);
    }
  }

  lemma NoEntriesOfSectors(sectors: seq<string>, data: map<string, seq<Entry>>)
    requires data.Keys == Initial(sectors).Keys
    ensures NoEntries(data) <==> forall i :: 0 <= i < |sectors| ==> data[sectors[i]] == []
  {
    if forall i :: 0 <= i < |sectors| ==> data[sectors[i]] == [] {
      forall s | s in data ensures data[s] == [] {
        assert s in Initial(sectors);
        var i :| 0 <= i < |sectors| && sectors[i] == s;
      }
    }
  }

  /** A saved sheet splits, at the runs of its page row, back into the
      sorted list of every sector that has one, in sector order; it has at
      least one such group. */
  lemma SavedSheetRegroups(sectors: seq<string>, pages: seq<Page>, sh: Sheet)
    requires |pages| == |sectors| && Distinct(sectors)
    requires Run(sectors, pages) == Saved(sh)
    ensures Regroup(sh.page[1..], Zip(sh.sector[1..], sh.change[1..])) == ExpectedGroups(sectors, pages)
    ensures ExpectedGroups(sectors, pages) != []
  {
    var data := Accumulate(sectors, pages, |sectors|).data;
    forall i | 0 <= i < |sectors| ensures data[sectors[i]] == ListOf(pages[i]) {
      PerSectorResult(sectors, pages, |sectors|, i);
    }
    SheetRoundTrip(sectors, data);
    GroupsOfLists(sectors, pages, data);
    NoDataIff(sectors, pages);
    NoGroupsIffEmpty(sectors, pages);
  }

  // ---------------------------------------------------------------------
  // Two worked runs

  /** Technology scrapes MSFT then AAPL; energy has no heatmap container.
      The sheet holds the two technology entries, sorted, and nothing for
      energy. */
  lemma TechnologyAndEnergy()
    ensures Run(["technology", "energy"],
                [Container([Link(Some("MSFT"), Some("-0.3%")), Link(Some("AAPL"), Some("+1.2%"))]), NoContainer])
         == Saved(Sheet(["page", "technology", "technology"], ["sector", "AAPL", "MSFT"], ["change", "+1.2%", "-0.3%"]))
  {
    var msft, aapl := Entry("MSFT", "-0.3%"), Entry("AAPL", "+1.2%");
    var links := [Link(Some("MSFT"), Some("-0.3%")), Link(Some("AAPL"), Some("+1.2%"))];
    var sectors, pages := ["technology", "energy"], [Container(links), NoContainer];
    var data0 := map["technology" := [], "energy" := []];
    var data := data0["technology" := [aapl, msft]];
    assert Initial(sectors) == data0;
    assert Accumulate(sectors, pages, 1) == Continue(data) by {
      assert Accumulate(sectors, pages, 0) == Continue(data0);
      assert Entries(links) == [msft, aapl];
      assert data0["technology"] + Entries(links) == [msft, aapl];
      SortOfTwo(msft, aapl);
    }
    assert Accumulate(sectors, pages, 2) == Continue(data);
    assert !NoEntries(data) by {
      assert data["technology"] != [];
    }
    SheetOfTechnology(sectors, data);
  }

  lemma SortOfTwo(msft: Entry, aapl: Entry)
    requires msft == Entry("MSFT", "-0.3%") && aapl == Entry("AAPL", "+1.2%")
    ensures Sort([msft, aapl]) == [aapl, msft]
  {
    assert Ordinal.Less("AAPL", "MSFT");
    assert [msft, aapl][..1] == [msft];
    assert Sort([msft]) == [msft];
  }

  lemma SheetOfTechnology(sectors: seq<string>, data: map<string, seq<Entry>>)
    requires sectors == ["technology", "energy"]
    requires data == map["technology" := [Entry("AAPL", "+1.2%"), Entry("MSFT", "-0.3%")], "energy" := []]
    ensures BuildSheet(sectors, data)
         == Sheet(["page", "technology", "technology"], ["sector", "AAPL", "MSFT"], ["change", "+1.2%", "-0.3%"])
  {
    var es := data["technology"];
    assert sectors[1..][1..] == [];
    assert Cells(PageRow, sectors[1..], data) == [];
    assert SectorCells(PageRow, "technology", es) == ["technology", "technology"];
    assert SectorCells(SectorRow, "technology", es) == ["AAPL", "MSFT"];
    assert SectorCells(ChangeRow, "technology", es) == ["+1.2%", "-0.3%"];
  }

  /** A single sector whose container has no matching tiles: no sheet. */
  lemma HealthcareWithoutTiles()
    ensures Run(["healthcare"], [Container([])]) == NoData
  {
    var sectors, pages := ["healthcare"], [Container([])];
    assert Accumulate(sectors, pages, 0) == Continue(Initial(sectors));
    assert Accumulate(sectors, pages, 1) == Continue(Initial(sectors));
    assert Initial(sectors) == map["healthcare" := []];
  }

}
