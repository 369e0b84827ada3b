/**
 * The transaction list of src/App.tsx: uploads put new rows in front,
 * `accept` and `correct` rewrite the rows with a given id, and
 * `getCategoryColor` picks a badge style for a category.
 */
module Transactions {
  import opened Text
  import opened Wrappers

  datatype Status = Pending | Accepted | Corrected

  /** `Transaction` (src/components/TransactionsList.tsx). */
  datatype Transaction = Transaction(
    id: int, raw: string, category: string, confidence: real, status: Status, amount: int)

  /** The rows the dashboard starts with. */
  const InitialTransactions: seq<Transaction> := [
    Transaction(1, "STARBUCKS COFFEE #1234", "coffee_dining", 0.95, Pending, 450),
    Transaction(2, "AMAZON MKTPLACE PMT", "shopping", 0.88, Pending, 1200),
    Transaction(3, "SHELL OIL 56789012345", "fuel", 0.92, Pending, 6000),
    Transaction(4, "WALMART SUPERCENTER", "groceries", 0.85, Pending, 3200),
    Transaction(5, "UBER TRIP HELP.UBER.COM", "transport", 0.9, Pending, 1500)
  ]

  // ---------------------------------------------------------------- upload

  /** The rows `handleUpload` makes from the uploaded raw strings: id
      `Date.now() + i`, where the clock is read afresh for every row and the
      reading for row `i` is given as `nows[i]`; category "unknown", status
      pending, confidence 0.5, and the amount
      `Math.floor(Math.random() * 2000) + 100` with the floored draw given as
      `draws[i]`. */
  function Prepare(items: seq<string>, nows: seq<int>, draws: seq<int>): (r: seq<Transaction>)
    requires |nows| == |items| && |draws| == |items|
    ensures |r| == |items|
    ensures forall i :: 0 <= i < |items| ==>
      r[i] == Transaction(nows[i] + i, items[i], "unknown", 0.5, Pending, draws[i] + 100)
  {
    seq(|items|, i requires 0 <= i < |items| =>
      Transaction(nows[i] + i, items[i], "unknown", 0.5, Pending, draws[i] + 100))
  }

  /** Within one upload, as long as the clock never goes back while the rows
      are made, the ids are pairwise distinct (each later row adds a larger
      index to a reading at least as large), and the amounts lie in
      100..2099. */
  lemma PreparedBatchWellFormed(items: seq<string>, nows: seq<int>, draws: seq<int>)
    requires |nows| == |items| && |draws| == |items|
    requires forall i, j :: 0 <= i <= j < |nows| ==> nows[i] <= nows[j]
    requires forall i :: 0 <= i < |draws| ==> 0 <= draws[i] < 2000
    ensures var r := Prepare(items, nows, draws);
      (forall i, j :: 0 <= i < j < |r| ==> r[i].id < r[j].id)
      && (forall i :: 0 <= i < |r| ==> 100 <= r[i].amount < 2100)
  {
  }

  // ---------------------------------------------------------------- accept

  /** `prev.map(t => t.id === id ? { ...t, status: "accepted" } : t)` */
  function AcceptAll(ts: seq<Transaction>, id: int): (r: seq<Transaction>)
    ensures |r| == |ts|
    ensures forall k :: 0 <= k < |ts| ==>
      r[k] == if ts[k].id == id then ts[k].(status := Accepted) else ts[k]
  {
    if ts == [] then []
    else [if ts[0].id == id then ts[0].(status := Accepted) else ts[0]] + AcceptAll(ts[1..], id)
  }

  /** No row with the id: nothing changes. */
  lemma AcceptAbsentId(ts: seq<Transaction>, id: int)
    requires forall k :: 0 <= k < |ts| ==> ts[k].id != id
    ensures AcceptAll(ts, id) == ts
  {
  }

  /** Accepting twice is accepting once. */
  lemma AcceptIdempotent(ts: seq<Transaction>, id: int)
    ensures AcceptAll(AcceptAll(ts, id), id) == AcceptAll(ts, id)
  {
  }

  // --------------------------------------------------------------- correct

  /** `s.replace(/\s+/g, "_")`: every run of white space becomes one `_`. */
  function CollapseSpaceRuns(s: string): (r: string)
    ensures NoSpace(r)
    ensures |r| <= |s|
    ensures r == [] <==> s == []
    ensures NoSpace(s) ==> r == s
  {
    if s == [] then []
    else if IsSpace(s[0]) then "_" + CollapseSpaceRuns(s[LeadingSpaces(s)..])
    else [s[0]] + CollapseSpaceRuns(s[1..])
  }

  /** A whole run of white space, bordered by text that is not white space,
      becomes exactly one `_`. */
  lemma {:induction false} CollapseRun(a: string, w: string, b: string)
    requires w != [] && forall i :: 0 <= i < |w| ==> IsSpace(w[i])
    requires a == [] || !IsSpace(a[|a| - 1])
    requires b == [] || !IsSpace(b[0])
    ensures CollapseSpaceRuns(a + w + b) == CollapseSpaceRuns(a) + "_" + CollapseSpaceRuns(b)
    decreases |a|
  {
    if a == [] {
      CollapseLeadingRun(w, b);
      EmptyPrefix(a, w + b);
      Assoc(a, w, b);
      EmptyPrefix(CollapseSpaceRuns(a), "_" + CollapseSpaceRuns(b));
    } else if IsSpace(a[0]) {
      CollapseSpaceHead(a, []);
      CollapseRun(a[LeadingSpaces(a)..], w, b);
      CollapseRunAfterSpace(a, w, b);
    } else {
      CollapseRun(a[1..], w, b);
      CollapseRunAfterChar(a, w, b);
    }
  }

  lemma CollapseLeadingRun(w: string, b: string)
    requires w != [] && forall i :: 0 <= i < |w| ==> IsSpace(w[i])
    requires b == [] || !IsSpace(b[0])
    ensures CollapseSpaceRuns(w + b) == "_" + CollapseSpaceRuns(b)
  {
    LeadingSpacesRun(w, b);
    assert (w + b)[|w|..] == b;
  }

  /* EmptyPrefix, Assoc and Regroup are single regrouping steps of string
     concatenation. Stated inline inside the run proofs above, each such
     step made the solver's work on those proofs several times larger;
     called as separate lemmas they stay cheap. */
  lemma EmptyPrefix(e: string, x: string)
    requires e == []
    ensures e + x == x
  {
  }

  /** The step of `CollapseRun` for text that starts with white space. */
  lemma CollapseRunAfterSpace(a: string, w: string, b: string)
    requires a != [] && IsSpace(a[0]) && !IsSpace(a[|a| - 1])
    requires LeadingSpaces(a) < |a|
    requires CollapseSpaceRuns(a[LeadingSpaces(a)..] + w + b)
      == CollapseSpaceRuns(a[LeadingSpaces(a)..]) + "_" + CollapseSpaceRuns(b)
    ensures CollapseSpaceRuns(a + w + b) == CollapseSpaceRuns(a) + "_" + CollapseSpaceRuns(b)
  {
    var n := LeadingSpaces(a);
    Assoc(a, w, b);
    Assoc(a[n..], w, b);
    CollapseSpaceHead(a, w + b);
    CollapseSpaceHead(a, []);
    assert a + [] == a && a[n..] + [] == a[n..];
    Regroup("_", CollapseSpaceRuns(a[n..]), "_", CollapseSpaceRuns(b));
  }

  /** The step of `CollapseRun` for text that starts with another character. */
  lemma CollapseRunAfterChar(a: string, w: string, b: string)
    requires a != [] && !IsSpace(a[0])
    requires CollapseSpaceRuns(a[1..] + w + b) == CollapseSpaceRuns(a[1..]) + "_" + CollapseSpaceRuns(b)
    ensures CollapseSpaceRuns(a + w + b) == CollapseSpaceRuns(a) + "_" + CollapseSpaceRuns(b)
  {
    Assoc(a, w, b);
    Assoc(a[1..], w, b);
    CollapseCharHead(a, w + b);
    CollapseCharHead(a, []);
    assert a + [] == a && a[1..] + [] == a[1..];
    Regroup([a[0]], CollapseSpaceRuns(a[1..]), "_", CollapseSpaceRuns(b));
  }

  /** Text that starts with white space (and does not end with it) loses its
      leading run to one `_`, whatever follows. */
  lemma CollapseSpaceHead(a: string, t: string)
    requires a != [] && IsSpace(a[0]) && !IsSpace(a[|a| - 1])
    ensures LeadingSpaces(a) < |a|
    ensures CollapseSpaceRuns(a + t) == "_" + CollapseSpaceRuns(a[LeadingSpaces(a)..] + t)
  {
    var n := LeadingSpaces(a);
    LeadingSpacesAppend(a, t);
    assert (a + t)[n..] == a[n..] + t;
  }

  lemma CollapseCharHead(a: string, t: string)
    requires a != [] && !IsSpace(a[0])
    ensures CollapseSpaceRuns(a + t) == [a[0]] + CollapseSpaceRuns(a[1..] + t)
  {
    assert (a + t)[1..] == a[1..] + t;
  }

  /** A regrouping step for the run proofs; see EmptyPrefix. */
  lemma Assoc(x: string, y: string, z: string)
    ensures x + (y + z) == x + y + z
  {
  }

  /** A regrouping step for the run proofs; see EmptyPrefix. */
  lemma Regroup(p: string, x: string, q: string, y: string)
    ensures p + (x + q + y) == (p + x) + q + y
  {
  }

  /** The category a correction stores (App.tsx line 101). */
  function NormalizeCategory(c: string): (r: string)
    ensures NoSpace(r)
    ensures |r| <= |c|
    ensures r == [] <==> c == []
    ensures forall i :: 0 <= i < |r| ==> Lower(r[i]) == r[i]
    ensures NoSpace(c) ==> r == ToLower(c)
  {
    var t := CollapseSpaceRuns(c);
    forall i | 0 <= i < |t| ensures !IsSpace(Lower(t[i])) && Lower(Lower(t[i])) == Lower(t[i]) {
      LowerKeepsClasses(t[i]);
    }
    ToLower(t)
  }

  /** A stored category is already in normal form. */
  lemma NormalizeCategoryIdempotent(c: string)
    ensures NormalizeCategory(NormalizeCategory(c)) == NormalizeCategory(c)
  {
    var t := CollapseSpaceRuns(c);
    forall i | 0 <= i < |t| ensures Lower(Lower(t[i])) == Lower(t[i]) { LowerKeepsClasses(t[i]); }
  }

  /** The stored category of `a`, a run of white space, then `b`, is the stored
      categories of `a` and `b` joined by one `_`. */
  lemma NormalizeCategoryRun(a: string, w: string, b: string)
    requires w != [] && forall i :: 0 <= i < |w| ==> IsSpace(w[i])
    requires a == [] || !IsSpace(a[|a| - 1])
    requires b == [] || !IsSpace(b[0])
    ensures NormalizeCategory(a + w + b) == NormalizeCategory(a) + "_" + NormalizeCategory(b)
  {
    var x, y := CollapseSpaceRuns(a), CollapseSpaceRuns(b);
    CollapseRun(a, w, b);
    ToLowerAppend(x + "_", y);
    ToLowerAppend(x, "_");
    assert ToLower("_") == "_";
  }

  /** The per-row update of `correct` (App.tsx lines 97-105). */
  function CorrectAll(ts: seq<Transaction>, id: int, category: string): (r: seq<Transaction>)
    ensures |r| == |ts|
    ensures forall k :: 0 <= k < |ts| ==>
      r[k] == if ts[k].id == id
              then ts[k].(category := NormalizeCategory(category), status := Corrected)
              else ts[k]
  {
    if ts == [] then []
    else
      [if ts[0].id == id then ts[0].(category := NormalizeCategory(category), status := Corrected)
       else ts[0]] + CorrectAll(ts[1..], id, category)
  }

  /** No row with the id: nothing changes. */
  lemma CorrectAbsentId(ts: seq<Transaction>, id: int, category: string)
    requires forall k :: 0 <= k < |ts| ==> ts[k].id != id
    ensures CorrectAll(ts, id, category) == ts
  {
  }

  // -------------------------------------------------------- category color

  const DefaultColor := "bg-gray-100 text-gray-800"

  /** The badge styles of the five known categories. */
  const CategoryColors: map<string, string> := map[
    "coffee_dining" := "bg-amber-100 text-amber-800",
    "shopping" := "bg-blue-100 text-blue-800",
    "fuel" := "bg-red-100 text-red-800",
    "groceries" := "bg-emerald-100 text-emerald-800",
    "transport" := "bg-violet-100 text-violet-800"
  ]

  /** `getCategoryColor`: the style of a known category, gray for any other. */
  function GetCategoryColor(category: string): (r: string)
    ensures category in CategoryColors ==> r == CategoryColors[category]
    ensures r == DefaultColor <==> category !in CategoryColors
  {
    if category in CategoryColors && CategoryColors[category] != "" then CategoryColors[category]
    else DefaultColor
  }

  /** The `transactions` state of `App`. */
  class TransactionStore {
    var transactions: seq<Transaction>

    constructor ()
      ensures transactions == InitialTransactions
    {
      transactions := InitialTransactions;
    }

    /** `handleUpload`: the new rows, in upload order, before the old ones. */
    method HandleUpload(items: seq<string>, nows: seq<int>, draws: seq<int>)
      requires |nows| == |items| && |draws| == |items|
      requires forall i :: 0 <= i < |draws| ==> 0 <= draws[i] < 2000
      modifies this
      ensures transactions == Prepare(items, nows, draws) + old(transactions)
      ensures |transactions| == |items| + |old(transactions)|
      ensures transactions[|items|..] == old(transactions)
    {
      var prepared := Prepare(items, nows, draws);
      transactions := prepared + transactions;
    }

    /** `accept`: every row with the id becomes accepted; nothing else moves. */
    method Accept(id: int)
      modifies this
      ensures transactions == AcceptAll(old(transactions), id)
    {
      transactions := AcceptAll(transactions, id);
    }

    /** `correct`; `input` is what `prompt` returned (None when cancelled).
        An empty or cancelled answer changes nothing. */
    method Correct(id: int, input: Option<string>)
      modifies this
      ensures input == None || input == Some([]) ==> transactions == old(transactions)
      ensures input.Some? && input.value != [] ==>
        transactions == CorrectAll(old(transactions), id, input.value)
    {
      if input == None || input == Some([]) {
        return;
      }
      transactions := CorrectAll(transactions, id, input.value);
    }
  }
}
