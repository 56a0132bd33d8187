/**
 * How the blog and FAQ edit dialogs pick the category of the record they
 * open (src/components/modals/edit-blog-modal.tsx and edit-faq-modal.tsx):
 * the record's own `category_id` when it has one, else the first listed
 * category whose title is the record's `category`, else whatever the
 * dialog showed before.
 */
module CategoryChoice {
  import opened Wrappers

  /** One entry of the `categories` list a dialog is given. */
  datatype Category = Category(id: string, title: string)

  /** An optional string property in a JavaScript condition: present and not empty. */
  predicate Given(s: Option<string>) {
    s.Some? && s.value != ""
  }

  /** Some listed category has this title. */
  predicate Listed(categories: seq<Category>, title: string) {
    exists i :: 0 <= i < |categories| && categories[i].title == title
  }

  /** `categories.find(c => c.title === title)`, as the index of the hit. */
  function FindByTitle(categories: seq<Category>, title: string): (r: Option<nat>)
    ensures r.Some? ==>
      (r.value < |categories| && categories[r.value].title == title
       && forall j :: 0 <= j < r.value ==> categories[j].title != title)
    ensures r.None? <==> forall j :: 0 <= j < |categories| ==> categories[j].title != title
    decreases |categories|
  {
    if categories == [] then None
    else if categories[0].title == title then Some(0)
    else
      var rest := FindByTitle(categories[1..], title);
      if rest.Some? then Some(rest.value + 1) else None
  }

  /** The `categoryId` state after the sync effect has looked at a record. */
  function ResolveCategory(previous: string, categoryId: Option<string>, category: Option<string>,
                           categories: seq<Category>): (r: string)
    ensures Given(categoryId) ==> r == categoryId.value
    ensures (!Given(categoryId) && Given(category) && Listed(categories, category.value)) ==>
        exists i :: 0 <= i < |categories| && categories[i].title == category.value && r == categories[i].id
          && forall j :: 0 <= j < i ==> categories[j].title != category.value
    ensures (!Given(categoryId) && !(Given(category) && Listed(categories, category.value))) ==>
        r == previous
  {
    if Given(categoryId) then categoryId.value
    else if Given(category) then
      match FindByTitle(categories, category.value)
      case Some(i) => categories[i].id
      case None => previous
    else previous
  }
}
