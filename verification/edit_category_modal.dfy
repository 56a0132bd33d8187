/**
 * The category edit dialog of src/components/modals/edit-category-modal.tsx:
 * one title field, re-filled whenever the dialog is open, and the submit
 * gate in front of `onSave`.
 */
module EditCategoryModal {
  import opened Wrappers
  import opened Strings

  /** The `category` prop. */
  datatype Category = Category(id: string, title: string)

  /** The `categoryType` prop. */
  datatype CategoryType = BlogType | FaqType

  function TypeName(t: CategoryType): string {
    match t
    case BlogType => "Blog"
    case FaqType => "FAQ"
  }

  /** The title field after the sync effect. */
  function Synced(previous: string, isOpen: bool, category: Option<Category>): string {
    if !isOpen then previous
    else if category.Some? then category.value.title
    else ""
  }

  class EditCategoryDialog {
    var title: string

    constructor ()
      ensures title == ""
    {
      title := "";
    }

    /** The effect on `[category, isOpen]`. */
    method Sync(isOpen: bool, category: Option<Category>)
      modifies this
      ensures title == Synced(old(title), isOpen, category)
    {
      if isOpen {
        if category.Some? {
          title := category.value.title;
        } else {
          title := "";
        }
      }
    }
  }

  /** `handleSubmit`: the trimmed title, once it is not blank. */
  function Submit(title: string): (r: Option<string>)
    ensures r.Some? <==> !Blank(title)
    ensures r.Some? ==> r.value != "" && OccursAt(title, r.value, SkipWhitespace(title, 0))
    ensures r.Some? ==> r.value == Trim(title)
  {
    if Trim(title) != "" then Some(Trim(title)) else None
  }

  /** The Save button's `disabled`. */
  predicate SaveDisabled(isLoading: bool, title: string) {
    isLoading || Trim(title) == ""
  }

  /** The dialog's header. */
  function Header(category: Option<Category>, categoryType: CategoryType): string {
    (if category.Some? then "Edit " else "Create ") + TypeName(categoryType) + " Category"
  }

  // ----- Properties -----

  /** Save is enabled exactly when not loading and a submit would reach `onSave`. */
  lemma SaveEnabledIffSubmits(isLoading: bool, title: string)
    ensures !SaveDisabled(isLoading, title) <==> !isLoading && Submit(title).Some?
  {
  }

  /** A submitted title is already trimmed: submitting it again gives the same title. */
  lemma SubmitIdempotent(title: string)
    requires Submit(title).Some?
    ensures Submit(Submit(title).value) == Submit(title)
  {
    TrimIdempotent(title);
  }

  /** Reopening on a category with a trimmed, non-blank title and saving hands back that title. */
  lemma EditUnchanged(previous: string, c: Category)
    requires c.title != "" && Trim(c.title) == c.title
    ensures Submit(Synced(previous, true, Some(c))) == Some(c.title)
  {
  }

  /** The header tells editing from creating, and always ends in the category type. */
  lemma HeaderNamesType(c: Category, categoryType: CategoryType)
    ensures Header(Some(c), categoryType) != Header(None, categoryType)
    ensures EndsWith(Header(Some(c), categoryType), TypeName(categoryType) + " Category")
    ensures EndsWith(Header(None, categoryType), TypeName(categoryType) + " Category")
  {
    var tail := TypeName(categoryType) + " Category";
    assert Header(Some(c), categoryType)[0] == 'E';
    assert Header(None, categoryType)[0] == 'C';
    assert Header(Some(c), categoryType) == "Edit " + tail;
    assert Header(None, categoryType) == "Create " + tail;
    SuffixEnds("Edit ", tail);
    SuffixEnds("Create ", tail);
  }

  predicate EndsWith(h: string, tail: string) {
    |h| >= |tail| && h[|h| - |tail|..] == tail
  }

  lemma SuffixEnds(a: string, tail: string)
    ensures EndsWith(a + tail, tail)
  {
    assert (a + tail)[|a|..] == tail;
  }
}
