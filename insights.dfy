/**
 * The spending breakdown of src/components/Insights.tsx: transactions are
 * grouped by category into a count and a total per category, the groups are
 * ordered by total, largest first, and their totals are added up.
 */
module Insights {
  import opened Text
  import opened Transactions

  /** One row of the summary: `{ category, count, total }`. */
  datatype Entry = Entry(category: string, count: nat, total: int)

  /** The category shown for a transaction that has none. */
  const Uncategorized: string := "uncategorized"

  /** `t.category || 'uncategorized'` */
  function CategoryOf(t: Transaction): (c: string)
    ensures c != []
    ensures t.category != [] ==> c == t.category
    ensures t.category == [] ==> c == Uncategorized
  {
    if t.category == [] then Uncategorized else t.category
  }

  /** `t.amount || 0`: a falsy amount falls back to 0. Amounts are whole
      numbers here, so the only falsy one is 0 itself and the fallback never
      changes the number that is added. */
  function AmountOf(t: Transaction): (a: int)
    ensures a == t.amount
  {
    if t.amount != 0 then t.amount else 0
  }

  function Init(ts: seq<Transaction>): seq<Transaction>
    requires ts != []
  {
    ts[..|ts| - 1]
  }

  function Last(ts: seq<Transaction>): Transaction
    requires ts != []
  {
    ts[|ts| - 1]
  }

  /** How many transactions fall in category `c`. */
  function CountIn(ts: seq<Transaction>, c: string): nat
  {
    if ts == [] then 0
    else CountIn(Init(ts), c) + (if CategoryOf(Last(ts)) == c then 1 else 0)
  }

  /** The amount spent in category `c`. */
  function TotalIn(ts: seq<Transaction>, c: string): int
  {
    if ts == [] then 0
    else TotalIn(Init(ts), c) + (if CategoryOf(Last(ts)) == c then AmountOf(Last(ts)) else 0)
  }

  /** The amount spent over all transactions. */
  function SumAmounts(ts: seq<Transaction>): int
  {
    if ts == [] then 0 else SumAmounts(Init(ts)) + AmountOf(Last(ts))
  }

  /** What the entry of category `c` should hold: its count and its total. */
  function EntryFor(ts: seq<Transaction>, c: string): Entry
  {
    Entry(c, CountIn(ts, c), TotalIn(ts, c))
  }

  /** One more transaction changes only its own category's count and total. */
  lemma InCategoryStep(ts: seq<Transaction>, t: Transaction, c: string)
    ensures CountIn(ts + [t], c) == CountIn(ts, c) + (if CategoryOf(t) == c then 1 else 0)
    ensures TotalIn(ts + [t], c) == TotalIn(ts, c) + (if CategoryOf(t) == c then AmountOf(t) else 0)
  {
    assert Init(ts + [t]) == ts && Last(ts + [t]) == t;
  }

  /** A category no transaction has counts nothing and totals nothing. */
  lemma {:induction false} NoneInCategory(ts: seq<Transaction>, c: string)
    requires forall k :: 0 <= k < |ts| ==> CategoryOf(ts[k]) != c
    ensures CountIn(ts, c) == 0 && TotalIn(ts, c) == 0
  {
    if ts != [] {
      assert forall k :: 0 <= k < |ts| - 1 ==> Init(ts)[k] == ts[k];
      NoneInCategory(Init(ts), c);
    }
  }

  // ------------------------------------------------------------- grouping

  /** The categories of the entries. */
  function EntryCategories(s: seq<Entry>): set<string>
  {
    set x | x in s :: x.category
  }

  ghost predicate DistinctEntries(s: seq<Entry>)
  {
    forall i, j :: 0 <= i < j < |s| ==> s[i].category != s[j].category
  }

  /** `map.get(cat)`: the position of the first entry of category `c`, or
      `|g|` when no entry has it. */
  function FindCategory(g: seq<Entry>, c: string): (j: nat)
    ensures j <= |g|
    ensures j < |g| ==> g[j].category == c
    ensures j == |g| <==> c !in EntryCategories(g)
  {
    if g == [] then 0
    else if g[0].category == c then 0
    else
      assert EntryCategories(g) == {g[0].category} + EntryCategories(g[1..]) by {
        assert g == [g[0]] + g[1..];
      }
      1 + FindCategory(g[1..], c)
  }

  /** Among entries of distinct categories, the one of category `c` is found. */
  lemma FindDistinct(g: seq<Entry>, c: string, j: int)
    requires DistinctEntries(g) && 0 <= j < |g| && g[j].category == c
    ensures FindCategory(g, c) == j
  {
    assert g[j] in g;
  }

  /** One turn of the loop of Insights.tsx lines 39-48: the entry of the
      transaction's category gains the transaction and its amount, or a new
      entry for it is appended. */
  function Tally(g: seq<Entry>, t: Transaction): seq<Entry>
  {
    var c := CategoryOf(t);
    var j := FindCategory(g, c);
    if j < |g| then g[j := Entry(c, g[j].count + 1, g[j].total + AmountOf(t))]
    else g + [Entry(c, 1, AmountOf(t))]
  }

  /** The reference grouping: the loop's tally over all transactions, one
      entry per category in order of first appearance. */
  function Group(ts: seq<Transaction>): seq<Entry>
  {
    if ts == [] then [] else Tally(Group(Init(ts)), Last(ts))
  }

  /** The grouping of one more transaction of `ts` tallies it onto the
      grouping of those before it. */
  lemma GroupStep(ts: seq<Transaction>, i: int)
    requires 0 <= i < |ts|
    ensures Group(ts[..i + 1]) == Tally(Group(ts[..i]), ts[i])
  {
    assert Init(ts[..i + 1]) == ts[..i];
  }

  /** A tally adds the transaction's category and no other. */
  lemma TallyCategories(g: seq<Entry>, t: Transaction)
    ensures EntryCategories(Tally(g, t)) == EntryCategories(g) + {CategoryOf(t)}
  {
    var c := CategoryOf(t);
    var j := FindCategory(g, c);
    var h := Tally(g, t);
    if j < |g| {
      forall x | x in EntryCategories(h) ensures x in EntryCategories(g) {
        var k :| 0 <= k < |h| && h[k].category == x;
        assert g[k] in g;
      }
      forall x | x in EntryCategories(g) ensures x in EntryCategories(h) {
        var k :| 0 <= k < |g| && g[k].category == x;
        assert h[k] in h;
      }
    } else {
      assert h[|g|] in h;
      forall x | x in EntryCategories(h) ensures x in EntryCategories(g) + {c} {
        var k :| 0 <= k < |h| && h[k].category == x;
        if k < |g| {
          assert g[k] in g;
        }
      }
      forall x | x in EntryCategories(g) ensures x in EntryCategories(h) {
        var k :| 0 <= k < |g| && g[k].category == x;
        assert h[k] in h;
      }
    }
  }

  /** A tally keeps the entries' categories distinct. */
  lemma TallyKeepsDistinct(g: seq<Entry>, t: Transaction)
    requires DistinctEntries(g)
    ensures DistinctEntries(Tally(g, t))
  {
    var c := CategoryOf(t);
    var h := Tally(g, t);
    if FindCategory(g, c) == |g| {
      forall i, j | 0 <= i < j < |h| ensures h[i].category != h[j].category {
        if j == |g| {
          assert g[i] in g;
        }
      }
    }
  }

  /** An entry exists for a category exactly when some transaction has it. */
  lemma {:induction false} GroupCategories(ts: seq<Transaction>)
    ensures forall c :: c in EntryCategories(Group(ts)) <==> exists k :: 0 <= k < |ts| && CategoryOf(ts[k]) == c
  {
    if ts != [] {
      GroupCategories(Init(ts));
      TallyCategories(Group(Init(ts)), Last(ts));
      assert forall k :: 0 <= k < |ts| - 1 ==> Init(ts)[k] == ts[k];
    }
  }

  /** No two entries share a category. */
  lemma {:induction false} GroupDistinct(ts: seq<Transaction>)
    ensures DistinctEntries(Group(ts))
  {
    if ts != [] {
      GroupDistinct(Init(ts));
      TallyKeepsDistinct(Group(Init(ts)), Last(ts));
    }
  }

  /** Every entry holds its category's count and total. */
  lemma {:induction false} GroupEntries(ts: seq<Transaction>)
    ensures forall i :: 0 <= i < |Group(ts)| ==> Group(ts)[i] == EntryFor(ts, Group(ts)[i].category)
  {
    if ts != [] {
      var prev, t := Init(ts), Last(ts);
      assert ts == prev + [t];
      GroupEntries(prev);
      GroupDistinct(prev);
      var g := Group(prev);
      var h := Group(ts);
      var c := CategoryOf(t);
      var j := FindCategory(g, c);
      forall i | 0 <= i < |h| ensures h[i] == EntryFor(ts, h[i].category) {
        InCategoryStep(prev, t, h[i].category);
        if j < |g| {
          if i != j {
            assert g[i].category != c;
          }
        } else if i < |g| {
          assert g[i] in g;
        } else {
          GroupCategories(prev);
          NoneInCategory(prev, c);
        }
      }
    }
  }

  /** Every entry counts at least one transaction. */
  lemma {:induction false} GroupCountsPositive(ts: seq<Transaction>)
    ensures forall i :: 0 <= i < |Group(ts)| ==> Group(ts)[i].count > 0
  {
    if ts != [] {
      GroupCountsPositive(Init(ts));
    }
  }

  // ------------------------------------------------------------- ordering

  ghost predicate SortedByTotal(s: seq<Entry>)
  {
    forall i, j :: 0 <= i < j < |s| ==> s[i].total >= s[j].total
  }

  /** One step of a stable sort with comparator `b.total - a.total`: `e`, which
      came first, goes before every entry with a smaller or equal total. */
  function InsertByTotal(e: Entry, s: seq<Entry>): (r: seq<Entry>)
    ensures multiset(r) == multiset(s) + multiset{e}
  {
    if s == [] || e.total >= s[0].total then [e] + s
    else
      assert s == [s[0]] + s[1..];
      [s[0]] + InsertByTotal(e, s[1..])
  }

  lemma {:induction false} InsertBounded(e: Entry, s: seq<Entry>, b: int)
    requires e.total <= b && forall x :: x in s ==> x.total <= b
    ensures forall x :: x in InsertByTotal(e, s) ==> x.total <= b
  {
    if s != [] && e.total < s[0].total {
      InsertBounded(e, s[1..], b);
    }
  }

  lemma ConsSorted(x: Entry, r: seq<Entry>)
    requires SortedByTotal(r) && forall y :: y in r ==> y.total <= x.total
    ensures SortedByTotal([x] + r)
  {
    var xr := [x] + r;
    forall i, j | 0 <= i < j < |xr| ensures xr[i].total >= xr[j].total {
      if i == 0 { assert xr[j] in r; }
      else { assert xr[i] == r[i - 1] && xr[j] == r[j - 1]; }
    }
  }

  lemma {:induction false} InsertKeepsSorted(e: Entry, s: seq<Entry>)
    requires SortedByTotal(s)
    ensures SortedByTotal(InsertByTotal(e, s))
  {
    if s == [] || e.total >= s[0].total {
      forall y | y in s ensures y.total <= e.total {
        var k :| 0 <= k < |s| && s[k] == y;
      }
      ConsSorted(e, s);
    } else {
      assert SortedByTotal(s[1..]);
      InsertKeepsSorted(e, s[1..]);
      forall y | y in s[1..] ensures y.total <= s[0].total {
        var k :| 0 <= k < |s[1..]| && s[1..][k] == y;
        assert s[k + 1] == y;
      }
      InsertBounded(e, s[1..], s[0].total);
      ConsSorted(s[0], InsertByTotal(e, s[1..]));
    }
  }

  /** `.sort((a, b) => b.total - a.total)`: ordered by total, largest first,
      and a permutation of its input. */
  function SortByTotal(s: seq<Entry>): (r: seq<Entry>)
    ensures multiset(r) == multiset(s)
    ensures SortedByTotal(r)
  {
    if s == [] then []
    else
      assert s == [s[0]] + s[1..];
      InsertKeepsSorted(s[0], SortByTotal(s[1..]));
      InsertByTotal(s[0], SortByTotal(s[1..]))
  }

  lemma {:induction false} InsertKeepsDistinct(e: Entry, s: seq<Entry>)
    requires DistinctEntries(s) && e.category !in EntryCategories(s)
    ensures DistinctEntries(InsertByTotal(e, s))
  {
    if s == [] || e.total >= s[0].total {
      var r := [e] + s;
      forall i, j | 0 <= i < j < |r| ensures r[i].category != r[j].category {
        if i == 0 { assert r[j] in s; }
      }
    } else {
      assert s == [s[0]] + s[1..];
      assert EntryCategories(s[1..]) <= EntryCategories(s);
      InsertKeepsDistinct(e, s[1..]);
      var rest := InsertByTotal(e, s[1..]);
      var r := [s[0]] + rest;
      forall i, j | 0 <= i < j < |r| ensures r[i].category != r[j].category {
        if i == 0 {
          assert r[j] in multiset(rest);
          if r[j] != e {
            assert r[j] in s[1..];
            var k :| 0 <= k < |s[1..]| && s[1..][k] == r[j];
            assert s[k + 1] == r[j];
          } else {
            assert s[0] in s;
          }
        }
      }
    }
  }

  lemma {:induction false} SortKeepsDistinct(s: seq<Entry>)
    requires DistinctEntries(s)
    ensures DistinctEntries(SortByTotal(s))
  {
    if s != [] {
      assert s == [s[0]] + s[1..];
      SortKeepsDistinct(s[1..]);
      var sorted := SortByTotal(s[1..]);
      assert s[0].category !in EntryCategories(sorted) by {
        forall x | x in sorted ensures x.category != s[0].category {
          assert x in multiset(s[1..]);
          var k :| 0 <= k < |s[1..]| && s[1..][k] == x;
          assert s[k + 1] == x;
        }
      }
      InsertKeepsDistinct(s[0], sorted);
    }
  }

  // ---------------------------------------------------------------- sums

  function SumCounts(s: seq<Entry>): int
  {
    if s == [] then 0 else s[0].count + SumCounts(s[1..])
  }

  /** `summary.reduce((acc, s) => acc + s.total, 0)` */
  function TotalAll(s: seq<Entry>): int
  {
    if s == [] then 0 else s[0].total + TotalAll(s[1..])
  }

  lemma {:induction false} SumsAppend(s: seq<Entry>, e: Entry)
    ensures SumCounts(s + [e]) == SumCounts(s) + e.count
    ensures TotalAll(s + [e]) == TotalAll(s) + e.total
  {
    if s != [] {
      assert (s + [e])[1..] == s[1..] + [e];
      SumsAppend(s[1..], e);
    }
  }

  lemma {:induction false} SumsUpdate(s: seq<Entry>, j: int, e: Entry)
    requires 0 <= j < |s|
    ensures SumCounts(s[j := e]) == SumCounts(s) - s[j].count + e.count
    ensures TotalAll(s[j := e]) == TotalAll(s) - s[j].total + e.total
  {
    if j > 0 {
      assert s[j := e][1..] == s[1..][j - 1 := e];
      SumsUpdate(s[1..], j - 1, e);
    }
  }

  lemma {:induction false} SumsInsert(e: Entry, s: seq<Entry>)
    ensures SumCounts(InsertByTotal(e, s)) == e.count + SumCounts(s)
    ensures TotalAll(InsertByTotal(e, s)) == e.total + TotalAll(s)
  {
    if s != [] && e.total < s[0].total {
      SumsInsert(e, s[1..]);
    }
  }

  lemma {:induction false} SumsSort(s: seq<Entry>)
    ensures SumCounts(SortByTotal(s)) == SumCounts(s)
    ensures TotalAll(SortByTotal(s)) == TotalAll(s)
  {
    if s != [] {
      SumsSort(s[1..]);
      SumsInsert(s[0], SortByTotal(s[1..]));
    }
  }

  /** A tally adds one to the counts and the transaction's amount to the totals. */
  lemma SumsTally(g: seq<Entry>, t: Transaction)
    ensures SumCounts(Tally(g, t)) == SumCounts(g) + 1
    ensures TotalAll(Tally(g, t)) == TotalAll(g) + AmountOf(t)
  {
    var c := CategoryOf(t);
    var j := FindCategory(g, c);
    if j < |g| {
      SumsUpdate(g, j, Entry(c, g[j].count + 1, g[j].total + AmountOf(t)));
    } else {
      SumsAppend(g, Entry(c, 1, AmountOf(t)));
    }
  }

  /** Grouping loses no transaction and no amount. */
  lemma {:induction false} GroupConserves(ts: seq<Transaction>)
    ensures SumCounts(Group(ts)) == |ts|
    ensures TotalAll(Group(ts)) == SumAmounts(ts)
  {
    if ts != [] {
      GroupConserves(Init(ts));
      SumsTally(Group(Init(ts)), Last(ts));
    }
  }

  // ------------------------------------------------------------- summary

  /** The `summary` memo of `Insights`, as a value. */
  function Summary(ts: seq<Transaction>): seq<Entry>
  {
    SortByTotal(Group(ts))
  }

  /** Every summary entry is a category that occurs, with that category's
      count and total. */
  lemma SummaryEntriesCorrect(ts: seq<Transaction>)
    ensures forall e :: e in Summary(ts) ==>
      e.count == CountIn(ts, e.category) && e.total == TotalIn(ts, e.category) && e.count > 0
      && exists k :: 0 <= k < |ts| && CategoryOf(ts[k]) == e.category
  {
    var g := Group(ts);
    GroupEntries(ts);
    GroupCountsPositive(ts);
    GroupCategories(ts);
    forall e | e in Summary(ts)
      ensures e.count == CountIn(ts, e.category) && e.total == TotalIn(ts, e.category) && e.count > 0
      ensures exists k :: 0 <= k < |ts| && CategoryOf(ts[k]) == e.category
    {
      assert e in multiset(g);
      var i :| 0 <= i < |g| && g[i] == e;
      assert e.category in EntryCategories(g);
    }
  }

  /** Every category that occurs has an entry in the summary, and no two
      entries share a category. */
  lemma SummaryOnePerCategory(ts: seq<Transaction>)
    ensures forall k :: 0 <= k < |ts| ==> CategoryOf(ts[k]) in EntryCategories(Summary(ts))
    ensures DistinctEntries(Summary(ts))
  {
    var g := Group(ts);
    var s := Summary(ts);
    GroupDistinct(ts);
    SortKeepsDistinct(g);
    GroupCategories(ts);
    forall k | 0 <= k < |ts| ensures CategoryOf(ts[k]) in EntryCategories(s) {
      var c := CategoryOf(ts[k]);
      assert c in EntryCategories(g);
      var x :| x in g && x.category == c;
      assert x in multiset(s);
    }
  }

  /** The counts add up to the number of transactions, and the totals, as
      `totalAll` adds them, to the amount spent. */
  lemma SummaryConserves(ts: seq<Transaction>)
    ensures SumCounts(Summary(ts)) == |ts|
    ensures TotalAll(Summary(ts)) == SumAmounts(ts)
  {
    GroupConserves(ts);
    SumsSort(Group(ts));
  }

  /** `index` mirrors the `Map` of the summary loop: it holds exactly the
      categories of the entries so far, each sent to the position of its entry. */
  ghost predicate IndexMatches(index: map<string, nat>, g: seq<Entry>)
  {
    (forall c :: c in index <==> c in EntryCategories(g)) &&
    (forall c :: c in index ==> index[c] < |g| && g[index[c]].category == c)
  }

  /** Loop turn for a category already in the map: its entry is updated in place. */
  lemma TallyExisting(g: seq<Entry>, t: Transaction, index: map<string, nat>, j: nat)
    requires DistinctEntries(g) && IndexMatches(index, g)
    requires CategoryOf(t) in index && index[CategoryOf(t)] == j
    ensures j < |g|
    ensures Tally(g, t) == g[j := Entry(CategoryOf(t), g[j].count + 1, g[j].total + AmountOf(t))]
    ensures IndexMatches(index, Tally(g, t))
  {
    FindDistinct(g, CategoryOf(t), j);
    TallyCategories(g, t);
  }

  /** Loop turn for a new category: an entry is appended and indexed. */
  lemma TallyNew(g: seq<Entry>, t: Transaction, index: map<string, nat>)
    requires IndexMatches(index, g) && CategoryOf(t) !in index
    ensures Tally(g, t) == g + [Entry(CategoryOf(t), 1, AmountOf(t))]
    ensures IndexMatches(index[CategoryOf(t) := |g|], Tally(g, t))
  {
    TallyCategories(g, t);
  }

  /** The loop of Insights.tsx lines 39-48. `index` plays the `Map`: it sends
      each category seen so far to the position of its entry among the map's
      values, which keep first-seen order. */
  method GroupByCategory(ts: seq<Transaction>) returns (entries: seq<Entry>)
    ensures entries == Group(ts)
  {
    entries := [];
    var index: map<string, nat> := map[];
    for i := 0 to |ts|
      invariant entries == Group(ts[..i])
      invariant IndexMatches(index, entries)
    {
      var t := ts[i];
      var cat := CategoryOf(t);
      GroupStep(ts, i);
      if cat in index {
        var j := index[cat];
        GroupDistinct(ts[..i]);
        TallyExisting(entries, t, index, j);
        entries := entries[j := Entry(cat, entries[j].count + 1, entries[j].total + AmountOf(t))];
      } else {
        TallyNew(entries, t, index);
        entries := entries + [Entry(cat, 1, AmountOf(t))];
        index := index[cat := |entries| - 1];
      }
    }
    assert ts[..|ts|] == ts;
  }

  /** The summary of Insights.tsx lines 37-50: group, then sort by total. */
  method Summarize(ts: seq<Transaction>) returns (summary: seq<Entry>)
    ensures summary == Summary(ts)
    ensures SortedByTotal(summary)
    ensures SumCounts(summary) == |ts|
    ensures TotalAll(summary) == SumAmounts(ts)
  {
    var entries := GroupByCategory(ts);
    summary := SortByTotal(entries);
    SummaryConserves(ts);
  }

  // ---------------------------------------------------- category display

  /** A character of the regular-expression class `\w`. */
  predicate IsWordChar(c: char)
  {
    'a' <= c <= 'z' || 'A' <= c <= 'Z' || '0' <= c <= '9' || c == '_'
  }

  /** `cat.replace(/_/g, ' ')` */
  function UnderscoresToSpaces(cat: string): (r: string)
    ensures |r| == |cat|
    ensures forall i :: 0 <= i < |cat| ==> r[i] == if cat[i] == '_' then ' ' else cat[i]
  {
    seq(|cat|, i requires 0 <= i < |cat| => if cat[i] == '_' then ' ' else cat[i])
  }

  /** Position `i` of `s` starts a word: `\b\w` matches there. */
  predicate WordStart(s: string, i: int)
    requires 0 <= i < |s|
  {
    IsWordChar(s[i]) && (i == 0 || !IsWordChar(s[i - 1]))
  }

  /** `formatCategory`: underscores become spaces and the first character of
      every word is upper-cased. */
  function FormatCategory(cat: string): (r: string)
    ensures |r| == |cat|
    ensures '_' !in r
    ensures forall i :: 0 <= i < |cat| ==> (r[i] == ' ' <==> cat[i] == '_' || cat[i] == ' ')
    ensures forall i :: 0 <= i < |cat| && cat[i] != '_' ==> Lower(r[i]) == Lower(cat[i])
    ensures forall i :: 0 <= i < |cat| && cat[i] != '_' ==>
      r[i] == if IsWordChar(cat[i]) && (i == 0 || cat[i - 1] == '_' || !IsWordChar(cat[i - 1]))
              then Upper(cat[i]) else cat[i]
  {
    var s := UnderscoresToSpaces(cat);
    var r := seq(|s|, i requires 0 <= i < |s| => if WordStart(s, i) then Upper(s[i]) else s[i]);
    forall i | 0 <= i < |cat| && cat[i] != '_'
      ensures WordStart(s, i) == (IsWordChar(cat[i]) && (i == 0 || cat[i - 1] == '_' || !IsWordChar(cat[i - 1])))
    {
      if i > 0 {
        assert s[i - 1] == if cat[i - 1] == '_' then ' ' else cat[i - 1];
      }
    }
    r
  }

  /** Formatting a formatted category changes nothing. */
  lemma FormatCategoryIdempotent(cat: string)
    ensures FormatCategory(FormatCategory(cat)) == FormatCategory(cat)
  {
    var r := FormatCategory(cat);
    var s := UnderscoresToSpaces(cat);
    assert UnderscoresToSpaces(r) == r;
    assert forall i :: 0 <= i < |r| ==> IsWordChar(r[i]) == IsWordChar(s[i]);
    forall i | 0 <= i < |r| ensures FormatCategory(r)[i] == r[i] {
      assert WordStart(r, i) == WordStart(s, i);
    }
  }

  /** A stored category as the charts label it. */
  lemma FormatCategoryExample()
    ensures FormatCategory("coffee_dining") == "Coffee Dining"
  {
    var s := UnderscoresToSpaces("coffee_dining");
    assert s == "coffee dining";
    assert WordStart(s, 0) && WordStart(s, 7);
    assert forall i | 0 <= i < |s| && i != 0 && i != 7 :: !WordStart(s, i);
  }
}
