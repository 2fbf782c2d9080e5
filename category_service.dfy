/** The category endpoints: listing, creation, update and deletion of the
    requester's categories, with input validation and ownership checks. */
module CategoryService {
  import opened Common
  import opened Text
  import opened Seqs
  import opened CategoryModel

  /** The `type` values the controller accepts. */
  const AcceptedTypes: seq<string> := ["income", "expense"]

  /** The controller and the schema agree on the set of category types. */
  lemma AcceptedTypesAreSchemaEnum()
    ensures forall s :: s in AcceptedTypes <==> s in SchemaTypeEnum
    ensures forall s :: s in AcceptedTypes <==> ParseType(s).Some?
  {
  }

  /** The input checks shared by create and update: both fields must be
      truthy, then `type` must be an accepted value. */
  function CheckInput(name: Option<string>, kind: Option<string>): (r: Result<CategoryType>)
    ensures r == Err(MissingFields) <==> !Truthy(name) || !Truthy(kind)
    ensures r == Err(InvalidCategoryType) <==> Truthy(name) && Truthy(kind) && kind.value !in AcceptedTypes
    ensures r.Ok? <==> Truthy(name) && Truthy(kind) && kind.value in AcceptedTypes
    ensures r.Ok? ==> TypeName(r.value) == kind.value
  {
    if !Truthy(name) || !Truthy(kind) then Err(MissingFields)
    else match ParseType(kind.value)
      case None => Err(InvalidCategoryType)
      case Some(t) => Ok(t)
  }

  /** The listing order, `sort('name')`. */
  predicate ByName(a: Category, b: Category)
  {
    StrLe(a.name, b.name)
  }

  lemma ByNameTotalPreorder()
    ensures TotalPreorder(ByName)
  {
    forall a: Category, b: Category ensures ByName(a, b) || ByName(b, a) {
      StrLeTotal(a.name, b.name);
    }
    forall a: Category, b: Category, c: Category | ByName(a, b) && ByName(b, c)
      ensures ByName(a, c)
    {
      StrLeTransitive(a.name, b.name, c.name);
    }
  }

  /** The category collection, keyed by document id. */
  class CategoryStore {
    var cats: map<Id, Category>
    var nextId: Id

    ghost predicate Valid()
      reads this
    {
      forall id :: id in cats ==> cats[id].id == id && id < nextId && ValidCategory(cats[id])
    }

    constructor ()
      ensures Valid() && cats == map[]
    {
      cats := map[];
      nextId := 0;
    }

    /** `getCategories`: the requester's categories, each once, sorted by name. */
    method List(requester: UserId) returns (r: seq<Category>)
      requires Valid()
      ensures forall c :: c in r ==> c.id in cats && cats[c.id] == c && c.user == requester
      ensures forall id :: id in cats && cats[id].user == requester ==> cats[id] in r
      ensures forall i, j :: 0 <= i < j < |r| ==> r[i].id != r[j].id
      ensures forall i, j :: 0 <= i < j < |r| ==> StrLe(r[i].name, r[j].name)
    {
      ByNameTotalPreorder();
      r := [];
      var keys := cats.Keys;
      ghost var done: set<Id> := {};
      while keys != {}
        invariant keys + done == cats.Keys && keys !! done
        invariant forall c :: c in r ==> c.id in done && cats[c.id] == c && c.user == requester
        invariant forall id :: id in done && cats[id].user == requester ==> cats[id] in r
        invariant DistinctBy(r, CategoryId)
        invariant SortedBy(r, ByName)
        decreases keys
      {
        var id :| id in keys;
        if cats[id].user == requester {
          var c := cats[id];
          InsertElements(r, c, ByName);
          InsertSorted(r, c, ByName);
          InsertDistinct(r, c, ByName, CategoryId);
          r := Insert(r, c, ByName);
        }
        keys := keys - {id};
        done := done + {id};
      }
    }

    /** `createCategory`. */
    method Create(requester: UserId, name: Option<string>, kind: Option<string>)
      returns (r: Result<Category>)
      requires Valid()
      modifies this
      ensures Valid()
      ensures CheckInput(name, kind).Err? ==> r == Err(CheckInput(name, kind).error)
      ensures CheckInput(name, kind).Ok? && Trim(name.value) == "" ==> r == Err(ServerError)
      ensures r.Ok? <==> CheckInput(name, kind).Ok? && Trim(name.value) != ""
      ensures r.Err? ==> cats == old(cats)
      ensures r.Ok? ==> && r.value.id !in old(cats)
                        && r.value.user == requester
                        && r.value.name == Trim(name.value)
                        && TypeName(r.value.kind) == kind.value
                        && cats == old(cats)[r.value.id := r.value]
    {
      var checked := CheckInput(name, kind);
      if checked.Err? {
        return Err(checked.error);
      }
      var doc := Cast(nextId, requester, Trim(name.value), checked.value);
      TrimIdempotent(name.value);
      if !PassesRequired(doc) {
        // the `required` validator rejects the save; the handler answers 500
        return Err(ServerError);
      }
      CastValid(nextId, requester, Trim(name.value), checked.value);
      cats := cats[doc.id := doc];
      nextId := nextId + 1;
      r := Ok(doc);
    }

    /** `updateCategory`: the input is checked before the id is looked up. */
    method Update(requester: UserId, id: Id, name: Option<string>, kind: Option<string>)
      returns (r: Result<Category>)
      requires Valid()
      modifies this
      ensures Valid()
      ensures CheckInput(name, kind).Err? ==> r == Err(CheckInput(name, kind).error)
      ensures CheckInput(name, kind).Ok? && id !in old(cats) ==> r == Err(NotFound)
      ensures (CheckInput(name, kind).Ok? && id in old(cats) && old(cats)[id].user != requester)
              ==> r == Err(NotAuthorized)
      ensures (CheckInput(name, kind).Ok? && id in old(cats) && old(cats)[id].user == requester
               && Trim(name.value) == "") ==> r == Err(ServerError)
      ensures r.Ok? <==> (&& CheckInput(name, kind).Ok? && id in old(cats)
                          && old(cats)[id].user == requester && Trim(name.value) != "")
      ensures r.Err? ==> cats == old(cats)
      ensures r.Ok? ==> && id in old(cats) && old(cats)[id].user == requester
                        && r.value == old(cats)[id].(name := Trim(name.value), kind := CheckInput(name, kind).value)
                        && cats == old(cats)[id := r.value]
      ensures nextId == old(nextId)
    {
      var checked := CheckInput(name, kind);
      if checked.Err? {
        return Err(checked.error);
      }
      if id !in cats {
        return Err(NotFound);
      }
      if cats[id].user != requester {
        return Err(NotAuthorized);
      }
      var c := cats[id];
      c := c.(name := Trim(Trim(name.value)));  // the controller trims, then the schema setter
      c := c.(kind := checked.value);
      TrimIdempotent(name.value);
      if !PassesRequired(c) {
        return Err(ServerError);
      }
      TrimIdempotent(c.name);
      cats := cats[id := c];
      r := Ok(c);
    }

    /** `deleteCategory`: removes that one document; transactions that refer
        to it are a different collection and are not touched. */
    method Delete(requester: UserId, id: Id) returns (r: Result<()>)
      requires Valid()
      modifies this
      ensures Valid()
      ensures id !in old(cats) ==> r == Err(NotFound)
      ensures id in old(cats) && old(cats)[id].user != requester ==> r == Err(NotAuthorized)
      ensures r.Ok? <==> id in old(cats) && old(cats)[id].user == requester
      ensures r.Err? ==> cats == old(cats)
      ensures r.Ok? ==> cats == old(cats) - {id}
      ensures nextId == old(nextId)
    {
      if id !in cats {
        return Err(NotFound);
      }
      if cats[id].user != requester {
        return Err(NotAuthorized);
      }
      cats := cats - {id};
      r := Ok(());
    }
  }
}
