/** The id-based list updates the pages apply to their state after a
    successful request: `list.filter(x => x._id !== id)` and
    `list.map(x => x._id === y._id ? y : x)`. */
module ListUpdates {
  import opened Common
  import opened Seqs

  /** Drops every element whose id is `id`. */
  function RemoveById<T>(s: seq<T>, key: T -> Id, id: Id): (r: seq<T>)
    ensures |r| <= |s|
    ensures forall i :: 0 <= i < |r| ==> key(r[i]) != id
  {
    if s == [] then []
    else if key(s[0]) == id then RemoveById(s[1..], key, id)
    else [s[0]] + RemoveById(s[1..], key, id)
  }

  /** Exactly the elements with another id are kept, in their order. */
  lemma {:induction false} RemoveByIdSpec<T>(s: seq<T>, key: T -> Id, id: Id)
    ensures forall x :: x in RemoveById(s, key, id) <==> x in s && key(x) != id
    ensures IsSubsequence(RemoveById(s, key, id), s)
  {
    if s != [] {
      RemoveByIdSpec(s[1..], key, id);
      assert s == [s[0]] + s[1..];
      if key(s[0]) != id {
        SubsequencePrepend(RemoveById(s[1..], key, id), s[1..], s[0]);
      } else {
        SubsequencePrepend(RemoveById(s[1..], key, id), s[1..], s[0]);
      }
    }
  }

  /** Every element with another id keeps all its copies. */
  lemma {:induction false} RemoveByIdCounts<T>(s: seq<T>, key: T -> Id, id: Id)
    ensures forall x :: multiset(RemoveById(s, key, id))[x] == if key(x) == id then 0 else multiset(s)[x]
  {
    if s != [] {
      RemoveByIdCounts(s[1..], key, id);
      assert s == [s[0]] + s[1..];
      assert multiset(s) == multiset{s[0]} + multiset(s[1..]);
    }
  }

  /** Replaces every element whose id is that of `x` by `x`. */
  function ReplaceById<T>(s: seq<T>, key: T -> Id, x: T): (r: seq<T>)
    ensures |r| == |s|
    ensures forall i :: 0 <= i < |s| ==> r[i] == if key(s[i]) == key(x) then x else s[i]
  {
    if s == [] then []
    else [if key(s[0]) == key(x) then x else s[0]] + ReplaceById(s[1..], key, x)
  }

  /** Replacing twice with the same element is replacing once. */
  lemma ReplaceByIdIdempotent<T>(s: seq<T>, key: T -> Id, x: T)
    ensures ReplaceById(ReplaceById(s, key, x), key, x) == ReplaceById(s, key, x)
  {
  }

  /** Removing an id after replacing its entries is removing it outright. */
  lemma {:induction false} RemoveAfterReplace<T>(s: seq<T>, key: T -> Id, x: T)
    ensures RemoveById(ReplaceById(s, key, x), key, key(x)) == RemoveById(s, key, key(x))
  {
    if s != [] {
      RemoveAfterReplace(s[1..], key, x);
      var r := ReplaceById(s, key, x);
      assert r[1..] == ReplaceById(s[1..], key, x);
    }
  }
}
