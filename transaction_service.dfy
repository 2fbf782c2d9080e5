/** The transaction endpoints: filtered listing, creation, partial update,
    deletion and the monthly summary, over the transaction collection. */
module TransactionService {
  import opened Common
  import opened Dates
  import opened Seqs
  import opened TransactionModel
  import MonthlySummary

  /** The query string of `GET /transactions`. A date bound is `None` when
      it is absent or empty. */
  datatype Query = Query(
    kind: Option<string>,
    category: Option<string>,
    startDate: Option<Date>,
    endDate: Option<Date>)

  /** The `date` part of the database filter. */
  datatype DateRange = AnyDate | Between(lo: Date, hi: Date) | From(lo: Date) | Until(hi: Date)

  /** The database filter built by `getTransactions`. */
  datatype Filter = Filter(user: UserId, kind: Option<string>, category: Option<string>, date: DateRange)

  predicate InRange(r: DateRange, d: Date)
  {
    match r
    case AnyDate => true
    case Between(lo, hi) => Le(lo, d) && Le(d, hi)
    case From(lo) => Le(lo, d)
    case Until(hi) => Le(d, hi)
  }

  /** How the database applies a filter to one document. */
  predicate Matches(f: Filter, t: Transaction)
  {
    && t.user == f.user
    && (f.kind.Some? ==> t.kind == f.kind.value)
    && (f.category.Some? ==> t.category == f.category.value)
    && InRange(f.date, t.date)
  }

  /** The listing's meaning, read off the query directly: the requester's
      transactions, exact `type` and `category` matches when those are
      given, and each given date bound inclusive. */
  predicate Admits(requester: UserId, q: Query, t: Transaction)
  {
    && t.user == requester
    && (Truthy(q.kind) ==> t.kind == q.kind.value)
    && (Truthy(q.category) ==> t.category == q.category.value)
    && (q.startDate.Some? ==> Le(q.startDate.value, t.date))
    && (q.endDate.Some? ==> Le(t.date, q.endDate.value))
  }

  /** Builds the filter field by field as `getTransactions` does. */
  method BuildFilter(requester: UserId, q: Query) returns (f: Filter)
    ensures forall t :: Matches(f, t) <==> Admits(requester, q, t)
  {
    f := Filter(requester, None, None, AnyDate);
    if Truthy(q.kind) {
      f := f.(kind := q.kind);
    }
    if Truthy(q.category) {
      f := f.(category := q.category);
    }
    if q.startDate.Some? && q.endDate.Some? {
      f := f.(date := Between(q.startDate.value, q.endDate.value));
    } else if q.startDate.Some? {
      f := f.(date := From(q.startDate.value));
    } else if q.endDate.Some? {
      f := f.(date := Until(q.endDate.value));
    }
  }

  /** The `sort({ date: -1 })` order: `a` may come before `b`. */
  predicate NewerFirst(a: Transaction, b: Transaction)
  {
    Le(b.date, a.date)
  }

  lemma NewerFirstTotalPreorder()
    ensures TotalPreorder(NewerFirst)
  {
    forall a: Transaction, b: Transaction ensures NewerFirst(a, b) || NewerFirst(b, a) {
      LeTotal(a.date, b.date);
    }
    forall a: Transaction, b: Transaction, c: Transaction | NewerFirst(a, b) && NewerFirst(b, c)
      ensures NewerFirst(a, c)
    {
      LeTransitive(c.date, b.date, a.date);
    }
  }

  /** The fields of an update request; `None` is a field absent from the
      body, and for `date` also a falsy one (`if (date)` ignores `""`). */
  datatype Patch = Patch(
    amount: Option<int>,
    kind: Option<string>,
    category: Option<string>,
    description: Option<string>,
    date: Option<Date>)

  /** The record `updateTransaction` saves: `amount` and `description` are
      taken whenever they are present (`!== undefined`), `type`, `category`
      and `date` only when truthy. */
  function Patched(t: Transaction, p: Patch): Transaction
  {
    t.(amount := if p.amount.Some? then p.amount.value else t.amount,
       kind := if Truthy(p.kind) then p.kind.value else t.kind,
       category := if Truthy(p.category) then p.category.value else t.category,
       description := if p.description.Some? then p.description else t.description,
       date := if p.date.Some? then p.date.value else t.date)
  }

  /** An update never changes a record's id or owner. */
  lemma PatchKeepsIdentity(t: Transaction, p: Patch)
    ensures Patched(t, p).id == t.id && Patched(t, p).user == t.user
  {
  }

  /** Applying the same update twice is applying it once. */
  lemma PatchIdempotent(t: Transaction, p: Patch)
    ensures Patched(Patched(t, p), p) == Patched(t, p)
  {
  }

  /** A body with no fields leaves the record as it was. */
  lemma EmptyPatchIsIdentity(t: Transaction)
    ensures Patched(t, Patch(None, None, None, None, None)) == t
  {
  }

  /** A body holding only a description changes only the description. */
  lemma DescriptionOnlyPatch(t: Transaction, d: string)
    ensures Patched(t, Patch(None, None, None, Some(d), None)) == t.(description := Some(d))
  {
  }

  /** The two presence rules differ on falsy values: a zero amount and an
      empty description are written, an empty type or category is not. */
  lemma FalsyValuesInPatch(t: Transaction)
    ensures Patched(t, Patch(Some(0), Some(""), Some(""), Some(""), None))
            == t.(amount := 0, description := Some(""))
  {
  }

  /** The transaction collection, keyed by document id. */
  class TransactionStore {
    var txs: map<Id, Transaction>
    var nextId: Id

    ghost predicate Valid()
      reads this
    {
      forall id :: id in txs ==> txs[id].id == id && id < nextId
    }

    constructor ()
      ensures Valid() && txs == map[]
    {
      txs := map[];
      nextId := 0;
    }

    /** `Transaction.find(filter).sort({ date: -1 })`. */
    method Find(f: Filter) returns (r: seq<Transaction>)
      requires Valid()
      ensures forall t :: t in r ==> t.id in txs && txs[t.id] == t && Matches(f, t)
      ensures forall id :: id in txs && Matches(f, txs[id]) ==> txs[id] in r
      ensures forall i, j :: 0 <= i < j < |r| ==> r[i].id != r[j].id
      ensures forall i, j :: 0 <= i < j < |r| ==> Le(r[j].date, r[i].date)
    {
      NewerFirstTotalPreorder();
      r := [];
      var keys := txs.Keys;
      ghost var done: set<Id> := {};
      while keys != {}
        invariant keys + done == txs.Keys && keys !! done
        invariant forall t :: t in r ==> t.id in done && txs[t.id] == t && Matches(f, t)
        invariant forall id :: id in done && Matches(f, txs[id]) ==> txs[id] in r
        invariant DistinctBy(r, TransactionId)
        invariant SortedBy(r, NewerFirst)
        decreases keys
      {
        var id :| id in keys;
        if Matches(f, txs[id]) {
          var t := txs[id];
          InsertElements(r, t, NewerFirst);
          InsertSorted(r, t, NewerFirst);
          InsertDistinct(r, t, NewerFirst, TransactionId);
          r := Insert(r, t, NewerFirst);
        }
        keys := keys - {id};
        done := done + {id};
      }
    }

    /** `getTransactions`: the requester's transactions the query admits,
        each once, newest first. */
    method List(requester: UserId, q: Query) returns (r: seq<Transaction>)
      requires Valid()
      ensures forall t :: t in r ==> t.id in txs && txs[t.id] == t && Admits(requester, q, t)
      ensures forall id :: id in txs && Admits(requester, q, txs[id]) ==> txs[id] in r
      ensures forall i, j :: 0 <= i < j < |r| ==> r[i].id != r[j].id
      ensures forall i, j :: 0 <= i < j < |r| ==> Le(r[j].date, r[i].date)
    {
      var f := BuildFilter(requester, q);
      r := Find(f);
    }

    /** `addTransaction`: a new record owned by the requester, dated `now`
        when the body gives no date. */
    method Add(requester: UserId, amount: int, kind: string, category: string,
               description: Option<string>, date: Option<Date>, now: Date)
      returns (t: Transaction)
      requires Valid()
      modifies this
      ensures Valid()
      ensures t.id !in old(txs) && txs == old(txs)[t.id := t]
      ensures t.user == requester
      ensures t.amount == amount && t.kind == kind && t.category == category
      ensures t.description == description
      ensures t.date == if date.Some? then date.value else now
    {
      t := Transaction(nextId, requester, amount, kind, category, description,
                       if date.Some? then date.value else now);
      txs := txs[t.id := t];
      nextId := nextId + 1;
    }

    /** `deleteTransaction`. */
    method Delete(requester: UserId, id: Id) returns (r: Result<()>)
      requires Valid()
      modifies this
      ensures Valid()
      ensures id !in old(txs) ==> r == Err(NotFound)
      ensures id in old(txs) && old(txs)[id].user != requester ==> r == Err(NotAuthorized)
      ensures r.Ok? <==> id in old(txs) && old(txs)[id].user == requester
      ensures r.Err? ==> txs == old(txs)
      ensures r.Ok? ==> txs == old(txs) - {id}
      ensures nextId == old(nextId)
    {
      if id !in txs {
        return Err(NotFound);
      }
      if txs[id].user != requester {
        return Err(NotAuthorized);
      }
      txs := txs - {id};
      r := Ok(());
    }

    /** `updateTransaction`: the loaded record is changed field by field and
        saved; every other record stays as it was. */
    method Update(requester: UserId, id: Id, p: Patch) returns (r: Result<Transaction>)
      requires Valid()
      modifies this
      ensures Valid()
      ensures id !in old(txs) ==> r == Err(NotFound)
      ensures id in old(txs) && old(txs)[id].user != requester ==> r == Err(NotAuthorized)
      ensures r.Ok? <==> id in old(txs) && old(txs)[id].user == requester
      ensures r.Err? ==> txs == old(txs)
      ensures r.Ok? ==> r.value == Patched(old(txs)[id], p) && txs == old(txs)[id := r.value]
      ensures nextId == old(nextId)
    {
      if id !in txs {
        return Err(NotFound);
      }
      if txs[id].user != requester {
        return Err(NotAuthorized);
      }
      var t := txs[id];
      if p.amount.Some? { t := t.(amount := p.amount.value); }
      if Truthy(p.kind) { t := t.(kind := p.kind.value); }
      if Truthy(p.category) { t := t.(category := p.category.value); }
      if p.description.Some? { t := t.(description := p.description); }
      if p.date.Some? { t := t.(date := p.date.value); }
      txs := txs[id := t];
      r := Ok(t);
    }

    /** `getMonthlySummary`: the pipeline run over the requester's
        transactions (`mine`, in the order the match stage yields them). */
    method MonthlySummaryOf(requester: UserId)
      returns (r: seq<MonthlySummary.MonthRecord>, ghost mine: seq<Transaction>)
      requires Valid()
      ensures forall t :: t in mine ==> t.id in txs && txs[t.id] == t && t.user == requester
      ensures forall id :: id in txs && txs[id].user == requester ==> txs[id] in mine
      ensures forall i, j :: 0 <= i < j < |mine| ==> mine[i].id != mine[j].id
      ensures r == MonthlySummary.Summarize(mine)
      ensures MonthlySummary.RecordMonths(r) == MonthlySummary.Months(mine)
      ensures forall i :: 0 <= i < |r| ==>
        && r[i].income == MonthlySummary.MonthTotal(mine, r[i].year, r[i].month, "income")
        && r[i].expense == MonthlySummary.MonthTotal(mine, r[i].year, r[i].month, "expense")
        && r[i].netSavings == r[i].income - r[i].expense
      ensures forall i, j :: 0 <= i < j < |r| ==>
        r[i].year > r[j].year || (r[i].year == r[j].year && r[i].month > r[j].month)
    {
      var matched := Find(Filter(requester, None, None, AnyDate));
      mine := matched;
      r := MonthlySummary.Summarize(matched);
      MonthlySummary.SummarizeSpec(matched);
    }
  }
}
