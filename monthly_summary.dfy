/** `getMonthlySummary`'s aggregation pipeline over the requester's
    transactions: `$group` by (year, month) with conditional sums,
    `$project` adding `netSavings`, then `$sort` by year and month, both
    descending. */
module MonthlySummary {
  import opened TransactionModel
  import opened Seqs

  /** One `$group` output document. */
  datatype Group = Group(year: int, month: int, income: int, expense: int)

  /** One `$project` output document. */
  datatype MonthRecord = MonthRecord(year: int, month: int, income: int, expense: int, netSavings: int)

  /** `$cond: [{ $eq: ["$type", kind] }, "$amount", 0]`. */
  function AmountIf(t: Transaction, kind: string): int
  {
    if t.kind == kind then t.amount else 0
  }

  predicate InMonth(t: Transaction, year: int, month: int)
  {
    t.date.year == year && t.date.month == month
  }

  // ----- The pipeline -----

  function StartGroup(t: Transaction): Group
  {
    Group(t.date.year, t.date.month, AmountIf(t, "income"), AmountIf(t, "expense"))
  }

  /** Adds one transaction to the group of its month, opening the group if
      there is none yet. */
  function AddToGroups(gs: seq<Group>, t: Transaction): seq<Group>
  {
    if gs == [] then [StartGroup(t)]
    else if gs[0].year == t.date.year && gs[0].month == t.date.month then
      [gs[0].(income := gs[0].income + AmountIf(t, "income"),
              expense := gs[0].expense + AmountIf(t, "expense"))] + gs[1..]
    else [gs[0]] + AddToGroups(gs[1..], t)
  }

  function GroupByMonth(ts: seq<Transaction>): seq<Group>
  {
    if ts == [] then [] else AddToGroups(GroupByMonth(ts[1..]), ts[0])
  }

  function Project(g: Group): MonthRecord
  {
    MonthRecord(g.year, g.month, g.income, g.expense, g.income - g.expense)
  }

  function ProjectAll(gs: seq<Group>): (r: seq<MonthRecord>)
    ensures |r| == |gs|
  {
    if gs == [] then [] else [Project(gs[0])] + ProjectAll(gs[1..])
  }

  /** The `$sort: { year: -1, month: -1 }` order. */
  predicate NotEarlier(a: MonthRecord, b: MonthRecord)
  {
    a.year > b.year || (a.year == b.year && a.month >= b.month)
  }

  function Summarize(ts: seq<Transaction>): seq<MonthRecord>
  {
    InsertionSort(ProjectAll(GroupByMonth(ts)), NotEarlier)
  }

  // ----- What the pipeline computes, stated independently -----

  /** The (year, month) pairs the transactions fall in. */
  function Months(ts: seq<Transaction>): set<(int, int)>
  {
    set t | t in ts :: (t.date.year, t.date.month)
  }

  /** The sum of the amounts of the transactions of type `kind` in that month. */
  function MonthTotal(ts: seq<Transaction>, year: int, month: int, kind: string): int
  {
    if ts == [] then 0
    else (if InMonth(ts[0], year, month) then AmountIf(ts[0], kind) else 0)
         + MonthTotal(ts[1..], year, month, kind)
  }

  function RecordMonth(r: MonthRecord): (int, int)
  {
    (r.year, r.month)
  }

  function RecordMonths(rs: seq<MonthRecord>): set<(int, int)>
  {
    set r | r in rs :: RecordMonth(r)
  }

  // ----- Proof of the pipeline -----

  function GroupMonth(g: Group): (int, int)
  {
    (g.year, g.month)
  }

  function GroupMonths(gs: seq<Group>): set<(int, int)>
  {
    set g | g in gs :: GroupMonth(g)
  }

  /** The income recorded for a month across all groups of that month. */
  function IncomeAt(gs: seq<Group>, year: int, month: int): int
  {
    if gs == [] then 0
    else (if GroupMonth(gs[0]) == (year, month) then gs[0].income else 0) + IncomeAt(gs[1..], year, month)
  }

  function ExpenseAt(gs: seq<Group>, year: int, month: int): int
  {
    if gs == [] then 0
    else (if GroupMonth(gs[0]) == (year, month) then gs[0].expense else 0) + ExpenseAt(gs[1..], year, month)
  }

  lemma {:induction false} AddToGroupsMonths(gs: seq<Group>, t: Transaction)
    ensures GroupMonths(AddToGroups(gs, t)) == GroupMonths(gs) + {(t.date.year, t.date.month)}
  {
    var key := (t.date.year, t.date.month);
    if gs == [] {
      assert GroupMonths([StartGroup(t)]) == {GroupMonth(StartGroup(t))};
    } else {
      assert gs == [gs[0]] + gs[1..];
      assert GroupMonths(gs) == {GroupMonth(gs[0])} + GroupMonths(gs[1..]);
      var r := AddToGroups(gs, t);
      if GroupMonth(gs[0]) == key {
        assert r == [r[0]] + gs[1..] && GroupMonth(r[0]) == key;
        assert GroupMonths(r) == {key} + GroupMonths(gs[1..]);
      } else {
        AddToGroupsMonths(gs[1..], t);
        assert r == [gs[0]] + AddToGroups(gs[1..], t);
        assert GroupMonths(r) == {GroupMonth(gs[0])} + GroupMonths(AddToGroups(gs[1..], t));
      }
    }
  }

  lemma {:induction false} AddToGroupsDistinct(gs: seq<Group>, t: Transaction)
    requires DistinctBy(gs, GroupMonth)
    ensures DistinctBy(AddToGroups(gs, t), GroupMonth)
  {
    if gs != [] && GroupMonth(gs[0]) != (t.date.year, t.date.month) {
      assert DistinctBy(gs[1..], GroupMonth);
      AddToGroupsDistinct(gs[1..], t);
      AddToGroupsMonths(gs[1..], t);
      var rest := AddToGroups(gs[1..], t);
      forall j | 0 <= j < |rest| ensures GroupMonth(gs[0]) != GroupMonth(rest[j]) {
        assert GroupMonth(rest[j]) in GroupMonths(rest);
        if GroupMonth(rest[j]) != (t.date.year, t.date.month) {
          var g :| g in gs[1..] && GroupMonth(g) == GroupMonth(rest[j]);
          var k :| 0 <= k < |gs[1..]| && gs[1..][k] == g;
          assert gs[k + 1] == g;
        }
      }
    }
  }

  lemma {:induction false} AddToGroupsAmounts(gs: seq<Group>, t: Transaction, year: int, month: int)
    ensures IncomeAt(AddToGroups(gs, t), year, month)
            == IncomeAt(gs, year, month) + (if InMonth(t, year, month) then AmountIf(t, "income") else 0)
    ensures ExpenseAt(AddToGroups(gs, t), year, month)
            == ExpenseAt(gs, year, month) + (if InMonth(t, year, month) then AmountIf(t, "expense") else 0)
  {
    if gs != [] && !(gs[0].year == t.date.year && gs[0].month == t.date.month) {
      AddToGroupsAmounts(gs[1..], t, year, month);
      assert ([gs[0]] + AddToGroups(gs[1..], t))[1..] == AddToGroups(gs[1..], t);
    } else if gs != [] {
      var g' := gs[0].(income := gs[0].income + AmountIf(t, "income"),
                       expense := gs[0].expense + AmountIf(t, "expense"));
      assert ([g'] + gs[1..])[1..] == gs[1..];
    }
  }

  /** Grouping yields one group per month present, and each month's group
      totals are that month's conditional sums. */
  lemma {:induction false} GroupByMonthSpec(ts: seq<Transaction>)
    ensures GroupMonths(GroupByMonth(ts)) == Months(ts)
    ensures DistinctBy(GroupByMonth(ts), GroupMonth)
  {
    if ts != [] {
      GroupByMonthSpec(ts[1..]);
      AddToGroupsMonths(GroupByMonth(ts[1..]), ts[0]);
      AddToGroupsDistinct(GroupByMonth(ts[1..]), ts[0]);
      assert ts == [ts[0]] + ts[1..];
      assert Months(ts) == Months(ts[1..]) + {(ts[0].date.year, ts[0].date.month)};
    }
  }

  lemma {:induction false} GroupByMonthAmounts(ts: seq<Transaction>, year: int, month: int)
    ensures IncomeAt(GroupByMonth(ts), year, month) == MonthTotal(ts, year, month, "income")
    ensures ExpenseAt(GroupByMonth(ts), year, month) == MonthTotal(ts, year, month, "expense")
  {
    if ts != [] {
      GroupByMonthAmounts(ts[1..], year, month);
      AddToGroupsAmounts(GroupByMonth(ts[1..]), ts[0], year, month);
    }
  }

  /** With one group per month, a month's totals are those of its group. */
  lemma {:induction false} AmountsOfDistinct(gs: seq<Group>, i: nat)
    requires DistinctBy(gs, GroupMonth) && i < |gs|
    ensures IncomeAt(gs, gs[i].year, gs[i].month) == gs[i].income
    ensures ExpenseAt(gs, gs[i].year, gs[i].month) == gs[i].expense
  {
    var key := GroupMonth(gs[i]);
    if i == 0 {
      NoOtherGroup(gs[1..], key);
    } else {
      assert DistinctBy(gs[1..], GroupMonth);
      AmountsOfDistinct(gs[1..], i - 1);
    }
  }

  lemma {:induction false} NoOtherGroup(gs: seq<Group>, key: (int, int))
    requires forall g :: g in gs ==> GroupMonth(g) != key
    ensures IncomeAt(gs, key.0, key.1) == 0 && ExpenseAt(gs, key.0, key.1) == 0
  {
    if gs != [] {
      assert gs[0] in gs;
      NoOtherGroup(gs[1..], key);
    }
  }

  lemma {:induction false} ProjectAllAt(gs: seq<Group>, i: nat)
    requires i < |gs|
    ensures ProjectAll(gs)[i] == Project(gs[i])
  {
    if i > 0 { ProjectAllAt(gs[1..], i - 1); }
  }

  /** Projection keeps the months of the groups, and months distinct
      among the groups stay distinct among the records. */
  lemma {:induction false} ProjectAllMonths(gs: seq<Group>)
    ensures RecordMonths(ProjectAll(gs)) == GroupMonths(gs)
    ensures DistinctBy(gs, GroupMonth) ==> DistinctBy(ProjectAll(gs), RecordMonth)
  {
    var ps := ProjectAll(gs);
    forall i | 0 <= i < |gs| ensures RecordMonth(ps[i]) == GroupMonth(gs[i]) {
      ProjectAllAt(gs, i);
    }
    forall m | m in GroupMonths(gs) ensures m in RecordMonths(ps) {
      var g :| g in gs && GroupMonth(g) == m;
      var k :| 0 <= k < |gs| && gs[k] == g;
      assert RecordMonth(ps[k]) == m;
    }
    forall m | m in RecordMonths(ps) ensures m in GroupMonths(gs) {
      var r :| r in ps && RecordMonth(r) == m;
      var k :| 0 <= k < |ps| && ps[k] == r;
      assert GroupMonth(gs[k]) == m;
    }
  }

  /** What `getMonthlySummary` answers: exactly one record per (year, month)
      present among the transactions, no empty months, each with that
      month's income and expense sums and their difference, sorted newest
      month first. */
  lemma SummarizeSpec(ts: seq<Transaction>)
    ensures RecordMonths(Summarize(ts)) == Months(ts)
    ensures forall i :: 0 <= i < |Summarize(ts)| ==>
      var r := Summarize(ts)[i];
      && r.income == MonthTotal(ts, r.year, r.month, "income")
      && r.expense == MonthTotal(ts, r.year, r.month, "expense")
      && r.netSavings == r.income - r.expense
    ensures forall i, j :: 0 <= i < j < |Summarize(ts)| ==>
      var a, b := Summarize(ts)[i], Summarize(ts)[j];
      a.year > b.year || (a.year == b.year && a.month > b.month)
  {
    var gs := GroupByMonth(ts);
    var ps := ProjectAll(gs);
    var rs := Summarize(ts);
    GroupByMonthSpec(ts);
    ProjectAllMonths(gs);
    assert TotalPreorder(NotEarlier);
    InsertionSortSpec(ps, NotEarlier, RecordMonth);
    assert multiset(rs) == multiset(ps);
    forall r | r in rs ensures r in ps {
      assert r in multiset(rs);
    }
    forall r | r in ps ensures r in rs {
      assert r in multiset(ps);
    }
    assert RecordMonths(rs) == RecordMonths(ps);
    forall i | 0 <= i < |rs|
      ensures rs[i].income == MonthTotal(ts, rs[i].year, rs[i].month, "income")
      ensures rs[i].expense == MonthTotal(ts, rs[i].year, rs[i].month, "expense")
      ensures rs[i].netSavings == rs[i].income - rs[i].expense
    {
      assert rs[i] in ps;
      var k :| 0 <= k < |ps| && ps[k] == rs[i];
      ProjectAllAt(gs, k);
      AmountsOfDistinct(gs, k);
      GroupByMonthAmounts(ts, gs[k].year, gs[k].month);
    }
    forall i, j | 0 <= i < j < |rs|
      ensures rs[i].year > rs[j].year || (rs[i].year == rs[j].year && rs[i].month > rs[j].month)
    {
      assert NotEarlier(rs[i], rs[j]);
      assert RecordMonth(rs[i]) != RecordMonth(rs[j]);
    }
  }

  // ----- Totals over all months -----

  /** The sum of the amounts of all transactions of type `kind`. */
  function KindTotal(ts: seq<Transaction>, kind: string): int
  {
    if ts == [] then 0 else AmountIf(ts[0], kind) + KindTotal(ts[1..], kind)
  }

  function GroupsIncome(gs: seq<Group>): int
  {
    if gs == [] then 0 else gs[0].income + GroupsIncome(gs[1..])
  }

  function GroupsExpense(gs: seq<Group>): int
  {
    if gs == [] then 0 else gs[0].expense + GroupsExpense(gs[1..])
  }

  function RecordsIncome(rs: seq<MonthRecord>): int
  {
    if rs == [] then 0 else rs[0].income + RecordsIncome(rs[1..])
  }

  function RecordsExpense(rs: seq<MonthRecord>): int
  {
    if rs == [] then 0 else rs[0].expense + RecordsExpense(rs[1..])
  }

  lemma {:induction false} AddToGroupsTotals(gs: seq<Group>, t: Transaction)
    ensures GroupsIncome(AddToGroups(gs, t)) == GroupsIncome(gs) + AmountIf(t, "income")
    ensures GroupsExpense(AddToGroups(gs, t)) == GroupsExpense(gs) + AmountIf(t, "expense")
  {
    if gs != [] {
      var r := AddToGroups(gs, t);
      if gs[0].year == t.date.year && gs[0].month == t.date.month {
        assert r[1..] == gs[1..];
      } else {
        AddToGroupsTotals(gs[1..], t);
        assert r[1..] == AddToGroups(gs[1..], t);
      }
    }
  }

  lemma {:induction false} GroupByMonthTotals(ts: seq<Transaction>)
    ensures GroupsIncome(GroupByMonth(ts)) == KindTotal(ts, "income")
    ensures GroupsExpense(GroupByMonth(ts)) == KindTotal(ts, "expense")
  {
    if ts != [] {
      GroupByMonthTotals(ts[1..]);
      AddToGroupsTotals(GroupByMonth(ts[1..]), ts[0]);
    }
  }

  lemma {:induction false} ProjectAllTotals(gs: seq<Group>)
    ensures RecordsIncome(ProjectAll(gs)) == GroupsIncome(gs)
    ensures RecordsExpense(ProjectAll(gs)) == GroupsExpense(gs)
  {
    if gs != [] {
      ProjectAllTotals(gs[1..]);
      assert ProjectAll(gs)[1..] == ProjectAll(gs[1..]);
    }
  }

  lemma {:induction false} InsertTotals(rs: seq<MonthRecord>, x: MonthRecord)
    ensures RecordsIncome(Insert(rs, x, NotEarlier)) == RecordsIncome(rs) + x.income
    ensures RecordsExpense(Insert(rs, x, NotEarlier)) == RecordsExpense(rs) + x.expense
  {
    var r := Insert(rs, x, NotEarlier);
    if rs == [] {
    } else if NotEarlier(x, rs[0]) {
      assert r[1..] == rs;
    } else {
      InsertTotals(rs[1..], x);
      assert r[1..] == Insert(rs[1..], x, NotEarlier);
    }
  }

  lemma {:induction false} SortTotals(rs: seq<MonthRecord>)
    ensures RecordsIncome(InsertionSort(rs, NotEarlier)) == RecordsIncome(rs)
    ensures RecordsExpense(InsertionSort(rs, NotEarlier)) == RecordsExpense(rs)
  {
    if rs != [] {
      SortTotals(rs[1..]);
      InsertTotals(InsertionSort(rs[1..], NotEarlier), rs[0]);
    }
  }

  /** Nothing is lost or counted twice: the records' incomes and expenses
      add up to the totals over all transactions. */
  lemma SummarizeTotals(ts: seq<Transaction>)
    ensures RecordsIncome(Summarize(ts)) == KindTotal(ts, "income")
    ensures RecordsExpense(Summarize(ts)) == KindTotal(ts, "expense")
  {
    GroupByMonthTotals(ts);
    ProjectAllTotals(GroupByMonth(ts));
    SortTotals(ProjectAll(GroupByMonth(ts)));
  }

  /** The worked example: an income of 100 and an expense of 40, both in
      March 2024, summarise to a single record with net savings 60. */
  lemma MarchExample(income: Transaction, expense: Transaction)
    requires income.kind == "income" && income.amount == 100
    requires expense.kind == "expense" && expense.amount == 40
    requires income.date.year == 2024 && income.date.month == 3
    requires expense.date.year == 2024 && expense.date.month == 3
    ensures Summarize([income, expense]) == [MonthRecord(2024, 3, 100, 40, 60)]
  {
    assert [income, expense][1..] == [expense];
    assert GroupByMonth([expense]) == [Group(2024, 3, 0, 40)];
    assert GroupByMonth([income, expense]) == [Group(2024, 3, 100, 40)];
  }
}
