/** The per-sector sort `all_data[sector].sort(key=lambda x: x[0])`
    (main.py:67): Python's list sort is stable and compares keys with `<`
    only, so equal tickers keep the order in which they were scraped. */
module StableSort {
  import opened Records
  import opened Ordinal

  /** Ascending by ticker: no later entry has a smaller ticker. */
  predicate Sorted(s: seq<Entry>)
  {
    forall i, j :: 0 <= i < j < |s| ==> !Less(s[j].ticker, s[i].ticker)
  }

  /** The entries whose ticker is `t`, in their order in `s`. */
  function WithTicker(s: seq<Entry>, t: string): seq<Entry>
  {
    if s == [] then []
    else (if s[0].ticker == t then [s[0]] else []) + WithTicker(s[1..], t)
  }

  /** Places `e` after every entry whose ticker is not greater than its own. */
  function Insert(s: seq<Entry>, e: Entry): seq<Entry>
  {
    if s == [] then [e]
    else if Less(e.ticker, s[0].ticker) then [e] + s
    else [s[0]] + Insert(s[1..], e)
  }

  /** Insertion of the entries one by one, in scraped order. */
  function Sort(s: seq<Entry>): seq<Entry>
  {
    if s == [] then [] else Insert(Sort(s[..|s| - 1]), s[|s| - 1])
  }

  // ---------------------------------------------------------------------
  // Facts about the filter

  lemma {:induction false} WithTickerAppend(a: seq<Entry>, b: seq<Entry>, t: string)
    ensures WithTicker(a + b, t) == WithTicker(a, t) + WithTicker(b, t)
    decreases |a|
  {
    if a == [] {
      assert a + b == b;
    } else {
      var head := if a[0].ticker == t then [a[0]] else [];
      WithTickerAppend(a[1..], b, t);
      calc {
        WithTicker(a + b, t);
        { assert (a + b)[0] == a[0] && (a + b)[1..] == a[1..] + b; }
        head + WithTicker(a[1..] + b, t);
        head + (WithTicker(a[1..], t) + WithTicker(b, t));
        (head + WithTicker(a[1..], t)) + WithTicker(b, t);
      }
    }
  }

  lemma {:induction false} WithTickerNone(s: seq<Entry>, t: string)
    requires forall k :: 0 <= k < |s| ==> s[k].ticker != t
    ensures WithTicker(s, t) == []
    decreases |s|
  {
    if s != [] {
      WithTickerNone(s[1..], t);
    }
  }

  lemma {:induction false} WithTickerMembers(s: seq<Entry>, t: string)
    ensures forall x :: x in WithTicker(s, t) ==> x in s && x.ticker == t
    decreases |s|
  {
    if s != [] {
      WithTickerMembers(s[1..], t);
    }
  }

  // ---------------------------------------------------------------------
  // Insert keeps order, contents and the order among equal tickers

  lemma {:induction false} InsertMultiset(s: seq<Entry>, e: Entry)
    ensures multiset(Insert(s, e)) == multiset(s) + multiset{e}
    decreases |s|
  {
    if s != [] && !Less(e.ticker, s[0].ticker) {
      InsertMultiset(s[1..], e);
      assert s == [s[0]] + s[1..];
    }
  }

  lemma {:induction false} InsertSorted(s: seq<Entry>, e: Entry)
    requires Sorted(s)
    ensures Sorted(Insert(s, e))
    decreases |s|
  {
    if s == [] {
    } else if Less(e.ticker, s[0].ticker) {
      var r := [e] + s;
      forall i, j | 0 <= i < j < |r| ensures !Less(r[j].ticker, r[i].ticker) {
        if i == 0 && Less(r[j].ticker, e.ticker) {
          LessTransitive(r[j].ticker, e.ticker, s[0].ticker);
          if j == 1 {
            LessIrreflexive(s[0].ticker);
          }
        }
      }
    } else {
      InsertSorted(s[1..], e);
      InsertMultiset(s[1..], e);
      var r := [s[0]] + Insert(s[1..], e);
      forall j | 0 < j < |r| ensures !Less(r[j].ticker, r[0].ticker) {
        assert r[j] in multiset(Insert(s[1..], e));
        assert r[j] in multiset(s[1..]) + multiset{e};
        if r[j] != e {
          var k :| 0 <= k < |s[1..]| && s[1..][k] == r[j];
          assert s[k + 1] == r[j];
        }
      }
    }
  }

  lemma {:induction false} InsertWithTicker(s: seq<Entry>, e: Entry, t: string)
    requires Sorted(s)
    ensures WithTicker(Insert(s, e), t) == WithTicker(s, t) + (if e.ticker == t then [e] else [])
    decreases |s|
  {
    var tail := if e.ticker == t then [e] else [];
    if s == [] {
      assert WithTicker([e], t) == tail + WithTicker([], t);
    } else if Less(e.ticker, s[0].ticker) {
      InsertInFrontWithTicker(s, e, t);
    } else {
      var head := if s[0].ticker == t then [s[0]] else [];
      SortedTail(s);
      InsertWithTicker(s[1..], e, t);
      ConsWithTicker(s[0], Insert(s[1..], e), t);
      assert WithTicker(s, t) == head + WithTicker(s[1..], t);
      assert head + (WithTicker(s[1..], t) + tail) == (head + WithTicker(s[1..], t)) + tail;
    }
  }

  lemma InsertInFrontWithTicker(s: seq<Entry>, e: Entry, t: string)
    requires Sorted(s) && s != [] && Less(e.ticker, s[0].ticker)
    ensures WithTicker([e] + s, t) == WithTicker(s, t) + (if e.ticker == t then [e] else [])
  {
    if e.ticker == t {
      TickerBeforeHead(s, t);
    }
    ConsWithTicker(e, s, t);
  }

  lemma ConsWithTicker(x: Entry, r: seq<Entry>, t: string)
    ensures WithTicker([x] + r, t) == (if x.ticker == t then [x] else []) + WithTicker(r, t)
  {
    assert ([x] + r)[0] == x && ([x] + r)[1..] == r;
  }

  lemma SortedTail(s: seq<Entry>)
    requires Sorted(s) && s != []
    ensures Sorted(s[1..])
  {
    forall i, j | 0 <= i < j < |s| - 1 ensures !Less(s[1..][j].ticker, s[1..][i].ticker) {
      assert s[1..][j] == s[j + 1] && s[1..][i] == s[i + 1];
    }
  }

  // ---------------------------------------------------------------------
  // What the sort promises

  lemma {:induction false} SortSorted(s: seq<Entry>)
    ensures Sorted(Sort(s))
    decreases |s|
  {
    if s != [] {
      SortSorted(s[..|s| - 1]);
      InsertSorted(Sort(s[..|s| - 1]), s[|s| - 1]);
    }
  }

  lemma {:induction false} SortPermutation(s: seq<Entry>)
    ensures multiset(Sort(s)) == multiset(s)
    decreases |s|
  {
    if s != [] {
      var init, last := s[..|s| - 1], s[|s| - 1];
      SortPermutation(init);
      InsertMultiset(Sort(init), last);
      calc {
        multiset(Sort(s));
        multiset(Insert(Sort(init), last));
        multiset(Sort(init)) + multiset{last};
        multiset(init) + multiset{last};
        multiset(init) + multiset([last]);
        multiset(init + [last]);
        { assert s == init + [last]; }
        multiset(s);
      }
    }
  }

  /** Stability: for every ticker, the entries carrying it appear in the
      sorted list in the order they were scraped. */
  lemma {:induction false} SortStable(s: seq<Entry>, t: string)
    ensures WithTicker(Sort(s), t) == WithTicker(s, t)
    decreases |s|
  {
    if s != [] {
      var init, last := s[..|s| - 1], s[|s| - 1];
      SortStable(init, t);
      SortSorted(init);
      InsertWithTicker(Sort(init), last, t);
      assert s == init + [last];
      WithTickerAppend(init, [last], t);
    }
  }

  /** A sorted arrangement that is stable for every ticker is unique, so
      `Sort` yields exactly what any stable sort by ticker yields. */
  lemma {:induction false} SortedStableUnique(a: seq<Entry>, b: seq<Entry>)
    requires Sorted(a) && Sorted(b)
    requires forall t :: WithTicker(a, t) == WithTicker(b, t)
    ensures a == b
    decreases |a|
  {
    if a == [] || b == [] {
      EmptyFilters(a, b);
    } else {
      SameHead(a, b);
      SameTailFilters(a, b);
      SortedStableUnique(a[1..], b[1..]);
      assert a == [a[0]] + a[1..];
      assert b == [b[0]] + b[1..];
    }
  }

  lemma EmptyFilters(a: seq<Entry>, b: seq<Entry>)
    requires a == [] || b == []
    requires forall t :: WithTicker(a, t) == WithTicker(b, t)
    ensures a == b
  {
    assert a != [] ==> WithTicker(a, a[0].ticker) != [];
    assert b != [] ==> WithTicker(b, b[0].ticker) != [];
  }

  lemma SameHead(a: seq<Entry>, b: seq<Entry>)
    requires Sorted(a) && Sorted(b) && a != [] && b != []
    requires forall t :: WithTicker(a, t) == WithTicker(b, t)
    ensures a[0] == b[0]
  {
    var t, u := a[0].ticker, b[0].ticker;
    if t != u {
      LessTrichotomy(t, u);
      if Less(t, u) {
        TickerBeforeHead(b, t);
      } else {
        TickerBeforeHead(a, u);
      }
    }
    assert WithTicker(a, t)[0] == a[0];
    assert WithTicker(b, t)[0] == b[0];
  }

  lemma SameTailFilters(a: seq<Entry>, b: seq<Entry>)
    requires a != [] && b != [] && a[0] == b[0]
    requires forall t :: WithTicker(a, t) == WithTicker(b, t)
    ensures forall t :: WithTicker(a[1..], t) == WithTicker(b[1..], t)
  {
    forall t ensures WithTicker(a[1..], t) == WithTicker(b[1..], t) {
      var head := if a[0].ticker == t then [a[0]] else [];
      assert WithTicker(a, t) == head + WithTicker(a[1..], t);
      assert WithTicker(b, t) == head + WithTicker(b[1..], t);
      assert (head + WithTicker(a[1..], t))[|head|..] == WithTicker(a[1..], t);
      assert (head + WithTicker(b[1..], t))[|head|..] == WithTicker(b[1..], t);
    }
  }

  /** In a sorted list no ticker smaller than the head's occurs. */
  lemma TickerBeforeHead(s: seq<Entry>, t: string)
    requires Sorted(s) && s != [] && Less(t, s[0].ticker)
    ensures WithTicker(s, t) == []
  {
    forall k | 0 <= k < |s| ensures s[k].ticker != t {
      if s[k].ticker == t {
        LessIrreflexive(t);
      }
    }
    WithTickerNone(s, t);
  }

  // ---------------------------------------------------------------------
  // The sort as the program runs it

  /** Linear insertion step: walk past every entry whose ticker is
      not greater than `e`'s, then insert. */
  method InsertByTicker(s: seq<Entry>, e: Entry) returns (r: seq<Entry>)
    ensures r == Insert(s, e)
  {
    var p := 0;
    while p < |s| && !Less(e.ticker, s[p].ticker)
      invariant 0 <= p <= |s|
      invariant forall k :: 0 <= k < p ==> !Less(e.ticker, s[k].ticker)
    {
      p := p + 1;
    }
    InsertAt(s, e, p);
    r := s[..p] + [e] + s[p..];
  }

  /** `Insert` puts `e` right before the first entry with a greater ticker. */
  lemma {:induction false} InsertAt(s: seq<Entry>, e: Entry, p: nat)
    requires p <= |s|
    requires forall k :: 0 <= k < p ==> !Less(e.ticker, s[k].ticker)
    requires p == |s| || Less(e.ticker, s[p].ticker)
    ensures Insert(s, e) == s[..p] + [e] + s[p..]
    decreases p
  {
    if p == 0 {
      assert s[..0] + [e] + s[0..] == [e] + s;
    } else {
      InsertAt(s[1..], e, p - 1);
      assert s[..p] == [s[0]] + s[1..][..p - 1];
      assert s[p..] == s[1..][p - 1..];
    }
  }

  /** The model of `list.sort(key=lambda x: x[0])`. */
  method SortByTicker(s: seq<Entry>) returns (r: seq<Entry>)
    ensures r == Sort(s)
    ensures Sorted(r) && multiset(r) == multiset(s)
    ensures forall t :: WithTicker(r, t) == WithTicker(s, t)
  {
    r := [];
    var i := 0;
    while i < |s|
      invariant 0 <= i <= |s|
      invariant r == Sort(s[..i])
    {
      assert s[..i + 1][..i] == s[..i];
      r := InsertByTicker(r, s[i]);
      i := i + 1;
    }
    assert s[..i] == s;
    SortSorted(s);
    SortPermutation(s);
    forall t ensures WithTicker(r, t) == WithTicker(s, t) {
      SortStable(s, t);
    }
  }
}
