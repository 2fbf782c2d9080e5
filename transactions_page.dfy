/** The transactions page: the client-side filter over the loaded list and
    the list updates after a delete or an edit. */
module TransactionsPage {
  import opened Common
  import opened Dates
  import opened Text
  import opened Seqs
  import opened TransactionModel
  import opened ListUpdates

  /** The filter inputs: the type select (`'all'`, `'income'`,
      `'expense'`), the search box, and the two date inputs (`None` when
      empty). */
  datatype ViewFilter = ViewFilter(filterType: string, search: string, startDate: Option<Date>, endDate: Option<Date>)

  /** The `filteredTransactions` predicate. */
  predicate Shows(f: ViewFilter, t: Transaction)
  {
    && (f.filterType == "all" || t.kind == f.filterType)
    && (|| Contains(ToLower(t.category), ToLower(f.search))
        || (t.description.Some? && Contains(ToLower(t.description.value), ToLower(f.search))))
    && (f.startDate.None? || Le(f.startDate.value, t.date))
    && (f.endDate.None? || Le(t.date, f.endDate.value))
  }

  function Visible(ts: seq<Transaction>, f: ViewFilter): (r: seq<Transaction>)
    ensures |r| <= |ts|
    ensures forall i :: 0 <= i < |r| ==> Shows(f, r[i])
  {
    if ts == [] then []
    else if Shows(f, ts[0]) then [ts[0]] + Visible(ts[1..], f)
    else Visible(ts[1..], f)
  }

  /** The shown list is the order-preserving selection of the transactions
      the predicate accepts. */
  lemma {:induction false} VisibleSpec(ts: seq<Transaction>, f: ViewFilter)
    ensures forall t :: t in Visible(ts, f) <==> t in ts && Shows(f, t)
    ensures IsSubsequence(Visible(ts, f), ts)
  {
    if ts != [] {
      VisibleSpec(ts[1..], f);
      assert ts == [ts[0]] + ts[1..];
      SubsequencePrepend(Visible(ts[1..], f), ts[1..], ts[0]);
    }
  }

  /** A shown transaction keeps all its copies. */
  lemma {:induction false} VisibleCounts(ts: seq<Transaction>, f: ViewFilter)
    ensures forall t :: multiset(Visible(ts, f))[t] == if Shows(f, t) then multiset(ts)[t] else 0
  {
    if ts != [] {
      VisibleCounts(ts[1..], f);
      assert ts == [ts[0]] + ts[1..];
      assert multiset(ts) == multiset{ts[0]} + multiset(ts[1..]);
    }
  }

  /** Filtering a concatenation filters each part. */
  lemma {:induction false} VisibleAppend(a: seq<Transaction>, b: seq<Transaction>, f: ViewFilter)
    ensures Visible(a + b, f) == Visible(a, f) + Visible(b, f)
  {
    if a == [] {
      assert a + b == b;
    } else {
      assert (a + b)[0] == a[0] && (a + b)[1..] == a[1..] + b;
      VisibleAppend(a[1..], b, f);
      if Shows(f, a[0]) {
        calc {
          Visible(a + b, f);
          [a[0]] + Visible(a[1..] + b, f);
          [a[0]] + (Visible(a[1..], f) + Visible(b, f));
          ([a[0]] + Visible(a[1..], f)) + Visible(b, f);
        }
      }
    }
  }

  /** The type rule: with `'all'` every type passes; otherwise only the
      selected one. */
  lemma TypeRule(f: ViewFilter, t: Transaction)
    requires f.filterType != "all" && t.kind != f.filterType
    ensures !Shows(f, t)
  {
  }

  /** The initial inputs (`'all'`, empty search, no dates) show everything. */
  lemma {:induction false} NeutralFilterShowsAll(ts: seq<Transaction>)
    ensures Visible(ts, ViewFilter("all", "", None, None)) == ts
  {
    if ts != [] {
      ContainsEmpty(ToLower(ts[0].category));
      NeutralFilterShowsAll(ts[1..]);
    }
  }

  /** The search ignores case: lower-casing the search text changes nothing. */
  lemma SearchIgnoresCase(f: ViewFilter, t: Transaction)
    ensures Shows(f.(search := ToLower(f.search)), t) == Shows(f, t)
  {
    ToLowerIdempotent(f.search);
  }

  /** `handleDelete`'s update. */
  function AfterDelete(ts: seq<Transaction>, id: Id): (r: seq<Transaction>)
    ensures forall t :: t in r ==> t.id != id
  {
    RemoveById(ts, TransactionId, id)
  }

  /** No entry keeps the deleted id, every other entry stays, in order. */
  lemma AfterDeleteSpec(ts: seq<Transaction>, id: Id)
    ensures forall t :: t in AfterDelete(ts, id) <==> t in ts && t.id != id
    ensures IsSubsequence(AfterDelete(ts, id), ts)
  {
    RemoveByIdSpec(ts, TransactionId, id);
  }

  /** `handleSaveEdit`'s update: same length, the edited entries replaced,
      all others identical. */
  function AfterSaveEdit(ts: seq<Transaction>, updated: Transaction): (r: seq<Transaction>)
    ensures |r| == |ts|
    ensures forall i :: 0 <= i < |ts| ==> r[i] == if ts[i].id == updated.id then updated else ts[i]
  {
    ReplaceById(ts, TransactionId, updated)
  }
}
