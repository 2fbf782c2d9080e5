/** The category document: an owner reference, a required trimmed name and a
    type drawn from a two-value enum. */
module CategoryModel {
  import opened Common
  import opened Text

  datatype CategoryType = Income | Expense

  /** The strings the schema's `enum` admits for `type`. */
  const SchemaTypeEnum: seq<string> := ["income", "expense"]

  function TypeName(t: CategoryType): string
  {
    match t
    case Income => "income"
    case Expense => "expense"
  }

  /** Reads a `type` string; only the schema's enum values are types. */
  function ParseType(s: string): (r: Option<CategoryType>)
    ensures r.Some? <==> s in SchemaTypeEnum
    ensures r.Some? ==> TypeName(r.value) == s
  {
    if s == "income" then Some(Income)
    else if s == "expense" then Some(Expense)
    else None
  }

  /** Every type has a name in the enum, and reading the name gives the type back. */
  lemma TypeNameRoundTrip(t: CategoryType)
    ensures TypeName(t) in SchemaTypeEnum
    ensures ParseType(TypeName(t)) == Some(t)
  {
  }

  datatype Category = Category(id: Id, user: UserId, name: string, kind: CategoryType)

  function CategoryId(c: Category): Id
  {
    c.id
  }

  /** A document as the schema casts it: the `trim: true` setter trims `name`. */
  function Cast(id: Id, user: UserId, name: string, kind: CategoryType): Category
  {
    Category(id, user, Trim(name), kind)
  }

  /** The schema's `required` validator on `name` (an empty string fails it). */
  predicate PassesRequired(c: Category)
  {
    c.name != ""
  }

  /** The record invariant of a stored category: its name is non-empty and
      already trimmed. The owner and the enum type are enforced by the types. */
  predicate ValidCategory(c: Category)
  {
    c.name != "" && Trim(c.name) == c.name
  }

  /** A cast document that passes validation satisfies the record invariant. */
  lemma CastValid(id: Id, user: UserId, name: string, kind: CategoryType)
    requires PassesRequired(Cast(id, user, name, kind))
    ensures ValidCategory(Cast(id, user, name, kind))
  {
    TrimIdempotent(name);
  }
}
