/** The dashboard's figures, computed on the client from the loaded
    transactions: the income and expense totals, the balance, and the
    expense breakdown by category behind the pie chart. */
module DashboardPage {
  import opened TransactionModel
  import opened Seqs
  import opened MonthlySummary

  /** `transactions.filter(tx => tx.type === kind)`. */
  function OfType(ts: seq<Transaction>, kind: string): (r: seq<Transaction>)
    ensures |r| <= |ts|
    ensures forall i :: 0 <= i < |r| ==> r[i].kind == kind
  {
    if ts == [] then []
    else if ts[0].kind == kind then [ts[0]] + OfType(ts[1..], kind)
    else OfType(ts[1..], kind)
  }

  /** `reduce((acc, tx) => acc + tx.amount, 0)`, folding from the left. */
  function SumAmounts(ts: seq<Transaction>): int
  {
    if ts == [] then 0 else SumAmounts(ts[..|ts| - 1]) + ts[|ts| - 1].amount
  }

  function Income(ts: seq<Transaction>): int
  {
    SumAmounts(OfType(ts, "income"))
  }

  function Expense(ts: seq<Transaction>): int
  {
    SumAmounts(OfType(ts, "expense"))
  }

  function Balance(ts: seq<Transaction>): int
  {
    Income(ts) - Expense(ts)
  }

  lemma {:induction false} OfTypeAppend(a: seq<Transaction>, b: seq<Transaction>, kind: string)
    ensures OfType(a + b, kind) == OfType(a, kind) + OfType(b, kind)
  {
    if a == [] {
      assert a + b == b;
    } else {
      assert (a + b)[0] == a[0] && (a + b)[1..] == a[1..] + b;
      OfTypeAppend(a[1..], b, kind);
    }
  }

  /** Filtering keeps exactly the transactions of that type. */
  lemma {:induction false} OfTypeElements(ts: seq<Transaction>, kind: string)
    ensures forall t :: t in OfType(ts, kind) <==> t in ts && t.kind == kind
  {
    if ts != [] {
      OfTypeElements(ts[1..], kind);
      assert ts == [ts[0]] + ts[1..];
    }
  }

  lemma {:induction false} SumAmountsCons(t: Transaction, ts: seq<Transaction>)
    ensures SumAmounts([t] + ts) == t.amount + SumAmounts(ts)
    decreases |ts|
  {
    if ts != [] {
      var s := [t] + ts;
      assert s[..|s| - 1] == [t] + ts[..|ts| - 1];
      SumAmountsCons(t, ts[..|ts| - 1]);
    }
  }

  lemma {:induction false} OfTypeSum(ts: seq<Transaction>, kind: string)
    ensures SumAmounts(OfType(ts, kind)) == KindTotal(ts, kind)
  {
    if ts != [] {
      OfTypeSum(ts[1..], kind);
      if ts[0].kind == kind {
        SumAmountsCons(ts[0], OfType(ts[1..], kind));
      }
    }
  }

  /** The totals are the conditional sums over all transactions, and they
      agree with the month-by-month summary: the summary's records add up
      to the dashboard's income and expense, and so to its balance. */
  lemma TotalsAgreeWithSummary(ts: seq<Transaction>)
    ensures Income(ts) == KindTotal(ts, "income") == RecordsIncome(Summarize(ts))
    ensures Expense(ts) == KindTotal(ts, "expense") == RecordsExpense(Summarize(ts))
    ensures Balance(ts) == RecordsIncome(Summarize(ts)) - RecordsExpense(Summarize(ts))
  {
    OfTypeSum(ts, "income");
    OfTypeSum(ts, "expense");
    SummarizeTotals(ts);
  }

  // ----- The expense breakdown -----

  /** One key of the `acc` object and its accumulated total. */
  datatype Entry = Entry(category: string, total: int)

  function EntryCategory(e: Entry): string
  {
    e.category
  }

  /** `acc[tx.category] = (acc[tx.category] || 0) + tx.amount`: an existing
      key keeps its place and its total grows; a new key goes last. */
  function Bump(acc: seq<Entry>, t: Transaction): seq<Entry>
  {
    if acc == [] then [Entry(t.category, t.amount)]
    else if acc[0].category == t.category then [acc[0].(total := acc[0].total + t.amount)] + acc[1..]
    else [acc[0]] + Bump(acc[1..], t)
  }

  /** The `reduce` over the expenses, from an empty object. */
  function Breakdown(es: seq<Transaction>): seq<Entry>
  {
    if es == [] then [] else Bump(Breakdown(es[..|es| - 1]), es[|es| - 1])
  }

  function ExpenseByCategory(ts: seq<Transaction>): seq<Entry>
  {
    Breakdown(OfType(ts, "expense"))
  }

  // Independent definitions of what the breakdown holds.

  function Labels(acc: seq<Entry>): set<string>
  {
    set e | e in acc :: EntryCategory(e)
  }

  function ExpenseCategories(ts: seq<Transaction>): set<string>
  {
    set t | t in ts && t.kind == "expense" :: t.category
  }

  /** The sum of the expenses of category `c`. */
  function CategoryTotal(ts: seq<Transaction>, c: string): int
  {
    if ts == [] then 0
    else (if ts[0].kind == "expense" && ts[0].category == c then ts[0].amount else 0) + CategoryTotal(ts[1..], c)
  }

  function EntriesTotal(acc: seq<Entry>): int
  {
    if acc == [] then 0 else acc[0].total + EntriesTotal(acc[1..])
  }

  /** The total recorded for `c` over all entries labelled `c`. */
  function TotalFor(acc: seq<Entry>, c: string): int
  {
    if acc == [] then 0
    else (if acc[0].category == c then acc[0].total else 0) + TotalFor(acc[1..], c)
  }

  lemma {:induction false} BumpLabels(acc: seq<Entry>, t: Transaction)
    ensures Labels(Bump(acc, t)) == Labels(acc) + {t.category}
  {
    var r := Bump(acc, t);
    if acc == [] {
      var e := Entry(t.category, t.amount);
      assert r == [e] && EntryCategory(e) == t.category;
      assert Labels([e]) == {EntryCategory(e)};
    } else {
      var e0 := acc[0];
      assert acc == [e0] + acc[1..];
      assert Labels(acc) == {EntryCategory(e0)} + Labels(acc[1..]);
      if e0.category == t.category {
        var e := e0.(total := e0.total + t.amount);
        assert r == [e] + acc[1..] && EntryCategory(e) == t.category;
        assert Labels(r) == {EntryCategory(e)} + Labels(acc[1..]);
      } else {
        BumpLabels(acc[1..], t);
        assert r == [e0] + Bump(acc[1..], t);
        assert Labels(r) == {EntryCategory(e0)} + Labels(Bump(acc[1..], t));
      }
    }
  }

  lemma {:induction false} BumpDistinct(acc: seq<Entry>, t: Transaction)
    requires DistinctBy(acc, EntryCategory)
    ensures DistinctBy(Bump(acc, t), EntryCategory)
  {
    if acc != [] && acc[0].category != t.category {
      assert DistinctBy(acc[1..], EntryCategory);
      BumpDistinct(acc[1..], t);
      BumpLabels(acc[1..], t);
      var rest := Bump(acc[1..], t);
      forall j | 0 <= j < |rest| ensures EntryCategory(acc[0]) != EntryCategory(rest[j]) {
        assert EntryCategory(rest[j]) in Labels(rest);
        if rest[j].category != t.category {
          var e :| e in acc[1..] && EntryCategory(e) == rest[j].category;
          var k :| 0 <= k < |acc[1..]| && acc[1..][k] == e;
          assert acc[k + 1] == e;
        }
      }
    }
  }

  lemma {:induction false} BumpTotals(acc: seq<Entry>, t: Transaction, c: string)
    ensures TotalFor(Bump(acc, t), c) == TotalFor(acc, c) + (if t.category == c then t.amount else 0)
    ensures EntriesTotal(Bump(acc, t)) == EntriesTotal(acc) + t.amount
  {
    if acc != [] {
      var r := Bump(acc, t);
      if acc[0].category == t.category {
        assert r[1..] == acc[1..];
      } else {
        BumpTotals(acc[1..], t, c);
        assert r[1..] == Bump(acc[1..], t);
      }
    }
  }

  lemma {:induction false} CategoryTotalAppend(a: seq<Transaction>, b: seq<Transaction>, c: string)
    ensures CategoryTotal(a + b, c) == CategoryTotal(a, c) + CategoryTotal(b, c)
  {
    if a == [] {
      assert a + b == b;
    } else {
      assert (a + b)[0] == a[0] && (a + b)[1..] == a[1..] + b;
      CategoryTotalAppend(a[1..], b, c);
    }
  }

  lemma {:induction false} BreakdownLabels(es: seq<Transaction>)
    ensures Labels(Breakdown(es)) == set t | t in es :: t.category
    ensures DistinctBy(Breakdown(es), EntryCategory)
  {
    if es != [] {
      var n := |es| - 1;
      var p := es[..n];
      BreakdownLabels(p);
      BumpLabels(Breakdown(p), es[n]);
      BumpDistinct(Breakdown(p), es[n]);
      assert es == p + [es[n]];
      assert (set t | t in es :: t.category) == (set t | t in p :: t.category) + {es[n].category};
    }
  }

  lemma {:induction false} BreakdownTotals(es: seq<Transaction>, c: string)
    requires forall i :: 0 <= i < |es| ==> es[i].kind == "expense"
    ensures TotalFor(Breakdown(es), c) == CategoryTotal(es, c)
    ensures EntriesTotal(Breakdown(es)) == SumAmounts(es)
  {
    if es != [] {
      var n := |es| - 1;
      var p := es[..n];
      BreakdownTotals(p, c);
      BumpTotals(Breakdown(p), es[n], c);
      assert es == p + [es[n]];
      CategoryTotalAppend(p, [es[n]], c);
    }
  }

  lemma {:induction false} CategoryTotalOfExpenses(ts: seq<Transaction>, c: string)
    ensures CategoryTotal(OfType(ts, "expense"), c) == CategoryTotal(ts, c)
  {
    if ts != [] {
      CategoryTotalOfExpenses(ts[1..], c);
      if ts[0].kind == "expense" {
        assert ([ts[0]] + OfType(ts[1..], "expense"))[1..] == OfType(ts[1..], "expense");
      }
    }
  }

  /** With one entry per label, a label's total is that of its entry. */
  lemma {:induction false} TotalForDistinct(acc: seq<Entry>, i: nat)
    requires DistinctBy(acc, EntryCategory) && i < |acc|
    ensures TotalFor(acc, acc[i].category) == acc[i].total
  {
    if i == 0 {
      NoOtherEntry(acc[1..], acc[0].category);
    } else {
      assert DistinctBy(acc[1..], EntryCategory);
      TotalForDistinct(acc[1..], i - 1);
    }
  }

  lemma {:induction false} NoOtherEntry(acc: seq<Entry>, c: string)
    requires forall e :: e in acc ==> e.category != c
    ensures TotalFor(acc, c) == 0
  {
    if acc != [] {
      assert acc[0] in acc;
      NoOtherEntry(acc[1..], c);
    }
  }

  /** The pie chart's labels are exactly the categories that have an
      expense, each once, each with the sum of that category's expenses;
      the slices add up to the expense total. */
  lemma ExpenseByCategorySpec(ts: seq<Transaction>)
    ensures Labels(ExpenseByCategory(ts)) == ExpenseCategories(ts)
    ensures DistinctBy(ExpenseByCategory(ts), EntryCategory)
    ensures forall i :: 0 <= i < |ExpenseByCategory(ts)| ==>
      ExpenseByCategory(ts)[i].total == CategoryTotal(ts, ExpenseByCategory(ts)[i].category)
    ensures EntriesTotal(ExpenseByCategory(ts)) == Expense(ts)
  {
    var es := OfType(ts, "expense");
    var bd := ExpenseByCategory(ts);
    BreakdownLabels(es);
    BreakdownTotals(es, "");
    OfTypeElements(ts, "expense");
    assert (set t | t in es :: t.category) == ExpenseCategories(ts);
    forall i | 0 <= i < |bd| ensures bd[i].total == CategoryTotal(ts, bd[i].category) {
      BreakdownTotals(es, bd[i].category);
      TotalForDistinct(bd, i);
      CategoryTotalOfExpenses(ts, bd[i].category);
    }
  }

  /** The breakdown is built one transaction at a time: an expense bumps its
      category, anything else leaves the breakdown as it was. */
  lemma ExpenseByCategorySnoc(ts: seq<Transaction>, t: Transaction)
    ensures ExpenseByCategory(ts + [t])
            == if t.kind == "expense" then Bump(ExpenseByCategory(ts), t) else ExpenseByCategory(ts)
  {
    OfTypeAppend(ts, [t], "expense");
    var es := OfType(ts, "expense");
    if t.kind == "expense" {
      assert OfType([t], "expense") == [t];
      assert (es + [t])[..|es|] == es;
    } else {
      assert OfType([t], "expense") == [];
      assert es + [] == es;
    }
  }
}
