/** The categories page: the list the user sees, the add/edit form, and
    how each handler changes them once the server has answered. */
module CategoriesPage {
  import opened Common
  import opened Seqs
  import opened CategoryModel
  import opened ListUpdates

  /** `categoryData`: the id is present only while editing; `kind` is the
      type select's value. */
  datatype Form = Form(id: Option<Id>, name: string, kind: string)

  const EmptyForm: Form := Form(None, "", "income")

  const SaveFailed: string := "Error saving category"
  const DeleteFailed: string := "Failed to delete category"

  datatype PageState = PageState(categories: seq<Category>, form: Form, showForm: bool, error: string)

  /** `handleAddCategory`. `response` is the category the server sent back,
      or `None` when the request failed. */
  function Save(st: PageState, response: Option<Category>): (r: PageState)
    ensures st.form.name == "" || st.form.kind == "" ==> r == st
  {
    if st.form.name == "" || st.form.kind == "" then st
    else if response.None? then st.(error := SaveFailed)
    else
      var cats :=
        if st.form.id.Some? then ReplaceById(st.categories, CategoryId, response.value)
        else st.categories + [response.value];
      st.(categories := cats, form := EmptyForm, showForm := false, error := "")
  }

  /** `handleDeleteCategory`; `ok` says whether the request succeeded. */
  function Delete(st: PageState, id: Id, ok: bool): (r: PageState)
    ensures r.form == st.form && r.showForm == st.showForm
  {
    if ok then st.(categories := RemoveById(st.categories, CategoryId, id), error := "")
    else st.(error := DeleteFailed)
  }

  /** `handleEditCategory`: the form is filled from the category. */
  function Edit(st: PageState, c: Category): (r: PageState)
    ensures r.categories == st.categories && r.showForm
    ensures r.form.id == Some(c.id) && r.form.name == c.name && r.form.kind == TypeName(c.kind)
    ensures r.form.kind in SchemaTypeEnum && r.error == ""
  {
    TypeNameRoundTrip(c.kind);
    st.(form := Form(Some(c.id), c.name, TypeName(c.kind)), showForm := true, error := "")
  }

  /** The add/cancel button: toggles the form and empties it. */
  function Toggle(st: PageState): (r: PageState)
    ensures r.categories == st.categories && r.form == EmptyForm && r.showForm != st.showForm
    ensures r.error == ""
  {
    st.(showForm := !st.showForm, form := EmptyForm, error := "")
  }

  /** A failed save only reports the error: list and form stay as they are. */
  lemma SaveFailure(st: PageState)
    requires st.form.name != "" && st.form.kind != ""
    ensures Save(st, None).categories == st.categories
    ensures Save(st, None).form == st.form && Save(st, None).showForm == st.showForm
    ensures Save(st, None).error == SaveFailed
  {
  }

  /** A successful create appends the server's category to the list, then
      resets and hides the form. */
  lemma SaveCreate(st: PageState, c: Category)
    requires st.form.name != "" && st.form.kind != "" && st.form.id.None?
    ensures var r := Save(st, Some(c));
      && |r.categories| == |st.categories| + 1
      && r.categories[..|st.categories|] == st.categories
      && r.categories[|st.categories|] == c
      && r.form == EmptyForm && !r.showForm && r.error == ""
  {
  }

  /** A successful update swaps in the server's category wherever its id
      already was and leaves every other entry in place. */
  lemma SaveUpdate(st: PageState, c: Category)
    requires st.form.name != "" && st.form.kind != "" && st.form.id.Some?
    ensures var r := Save(st, Some(c));
      && |r.categories| == |st.categories|
      && (forall i :: 0 <= i < |st.categories| ==>
            r.categories[i] == if st.categories[i].id == c.id then c else st.categories[i])
      && r.form == EmptyForm && !r.showForm && r.error == ""
  {
  }

  /** A successful delete removes every entry with the id, keeps the rest
      in order and clears the error; a failed one changes only the error. */
  lemma DeleteSpec(st: PageState, id: Id, ok: bool)
    ensures ok ==> forall c :: c in Delete(st, id, ok).categories <==> c in st.categories && c.id != id
    ensures ok ==> IsSubsequence(Delete(st, id, ok).categories, st.categories)
    ensures ok ==> Delete(st, id, ok).error == ""
    ensures !ok ==> Delete(st, id, ok) == st.(error := DeleteFailed)
  {
    RemoveByIdSpec(st.categories, CategoryId, id);
  }

  /** The list never shows two entries with one id, as long as a created
      category comes back with an id not already listed. */
  lemma SaveKeepsIdsDistinct(st: PageState, response: Option<Category>)
    requires DistinctBy(st.categories, CategoryId)
    requires response.Some? && st.form.id.None? ==> forall c :: c in st.categories ==> c.id != response.value.id
    ensures DistinctBy(Save(st, response).categories, CategoryId)
  {
    var r := Save(st, response);
    if st.form.name != "" && st.form.kind != "" && response.Some? && st.form.id.None? {
      var n := |st.categories|;
      forall i, j | 0 <= i < j < |r.categories| ensures r.categories[i].id != r.categories[j].id {
        if j == n {
          assert st.categories[i] in st.categories;
        }
      }
    }
  }

  lemma DeleteKeepsIdsDistinct(st: PageState, id: Id, ok: bool)
    requires DistinctBy(st.categories, CategoryId)
    ensures DistinctBy(Delete(st, id, ok).categories, CategoryId)
  {
    if ok {
      RemoveKeepsDistinct(st.categories, id);
    }
  }

  lemma {:induction false} RemoveKeepsDistinct(s: seq<Category>, id: Id)
    requires DistinctBy(s, CategoryId)
    ensures DistinctBy(RemoveById(s, CategoryId, id), CategoryId)
  {
    if s != [] {
      assert DistinctBy(s[1..], CategoryId);
      RemoveKeepsDistinct(s[1..], id);
      RemoveByIdSpec(s[1..], CategoryId, id);
      var rest := RemoveById(s[1..], CategoryId, id);
      if s[0].id != id {
        forall j | 0 <= j < |rest| ensures s[0].id != rest[j].id {
          assert rest[j] in s[1..];
          var k :| 0 <= k < |s[1..]| && s[1..][k] == rest[j];
          assert s[k + 1] == rest[j];
        }
      }
    }
  }

  /** Editing a listed category and saving the server's answer leaves the
      list with the updated entry in its old place. */
  lemma EditThenSave(st: PageState, c: Category, updated: Category, i: nat)
    requires DistinctBy(st.categories, CategoryId)
    requires i < |st.categories| && st.categories[i] == c
    requires c.name != "" && updated.id == c.id
    ensures var r := Save(Edit(st, c), Some(updated));
      && |r.categories| == |st.categories|
      && r.categories[i] == updated
      && (forall j :: 0 <= j < |st.categories| && j != i ==> r.categories[j] == st.categories[j])
  {
    TypeNameRoundTrip(c.kind);
  }
}
