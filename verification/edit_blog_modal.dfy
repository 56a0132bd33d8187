/**
 * The blog edit dialog of src/components/modals/edit-blog-modal.tsx: six
 * form fields re-filled from the blog being edited whenever the dialog is
 * open, the submit gate, and the payload handed to `onSave` (trimmed text,
 * the tag text split on commas, the single image as a list).
 */
module EditBlogModal {
  import opened Wrappers
  import opened Strings
  import opened CategoryChoice

  datatype Status = Draft | Published

  /** The `blog` prop. */
  datatype Blog = Blog(id: string, title: string, content: string, categoryId: Option<string>,
                       category: Option<string>, status: Status, tags: Option<seq<string>>,
                       imageIds: Option<seq<string>>)

  /** The dialog's state: what the six form fields show. */
  datatype BlogForm = BlogForm(title: string, content: string, categoryId: string, status: Status,
                               tags: string, imageId: string)

  /** The state every field starts in, and is reset to for a new blog. */
  const EmptyForm := BlogForm("", "", "", Draft, "", "")

  /** `blog.tags ? blog.tags.join(', ') : ''`. */
  function TagsText(tags: Option<seq<string>>): string {
    if tags.Some? then Join(tags.value, ", ") else ""
  }

  /** `blog.image_ids?.[0] || ''`. */
  function FirstImage(imageIds: Option<seq<string>>): string {
    if imageIds.Some? && |imageIds.value| > 0 then imageIds.value[0] else ""
  }

  /** The form after the sync effect: untouched while closed, reset without a blog, else filled from it. */
  function Synced(previous: BlogForm, isOpen: bool, blog: Option<Blog>, categories: seq<Category>): BlogForm {
    if !isOpen then previous
    else if blog.None? then EmptyForm
    else
      var b := blog.value;
      BlogForm(b.title, b.content, ResolveCategory(previous.categoryId, b.categoryId, b.category, categories),
               b.status, TagsText(b.tags), FirstImage(b.imageIds))
  }

  class EditBlogDialog {
    var title: string
    var content: string
    var categoryId: string
    var status: Status
    var tags: string
    var imageId: string

    function Form(): BlogForm
      reads this
    {
      BlogForm(title, content, categoryId, status, tags, imageId)
    }

    /** The six `useState` initial values. */
    constructor ()
      ensures Form() == EmptyForm
    {
      title, content, categoryId, status, tags, imageId := "", "", "", Draft, "", "";
    }

    /** The effect on `[blog, isOpen, categories]`, one setter at a time. */
    method Sync(isOpen: bool, blog: Option<Blog>, categories: seq<Category>)
      modifies this
      ensures Form() == Synced(old(Form()), isOpen, blog, categories)
    {
      if isOpen {
        if blog.Some? {
          var b := blog.value;
          title := b.title;
          content := b.content;
          status := b.status;
          tags := TagsText(b.tags);
          imageId := FirstImage(b.imageIds);
          if Given(b.categoryId) {
            categoryId := b.categoryId.value;
          } else if Given(b.category) {
            var hit := FindByTitle(categories, b.category.value);
            if hit.Some? {
              categoryId := categories[hit.value].id;
            }
          }
        } else {
          title := "";
          content := "";
          categoryId := "";
          status := Draft;
          tags := "";
          imageId := "";
        }
      }
    }
  }

  /** What `onSave` receives. */
  datatype BlogPayload = BlogPayload(title: string, content: string, categoryId: string, status: Status,
                                     tags: seq<string>, imageIds: seq<string>)

  /** A tag as the payload carries it: not empty, no surrounding whitespace, no comma. */
  predicate CleanTag(t: string) {
    t != "" && Trim(t) == t && ',' !in t
  }

  /** `.map(t => t.trim()).filter(Boolean)` over the comma-separated pieces. */
  function CleanTags(parts: seq<string>): (r: seq<string>)
    ensures forall k :: 0 <= k < |r| ==> r[k] != "" && Trim(r[k]) == r[k]
    ensures (forall k :: 0 <= k < |parts| ==> ',' !in parts[k]) ==> forall k :: 0 <= k < |r| ==> ',' !in r[k]
    ensures |r| <= |parts|
    decreases |parts|
  {
    if parts == [] then []
    else
      var t := Trim(parts[0]);
      TrimIdempotent(parts[0]);
      TrimKeepsOut(parts[0], ',');
      (if t != "" then [t] else []) + CleanTags(parts[1..])
  }

  /** `tags.split(',').map(t => t.trim()).filter(Boolean)`. */
  function SplitTags(text: string): (r: seq<string>)
    ensures forall k :: 0 <= k < |r| ==> CleanTag(r[k])
  {
    CleanTags(Split(text, ','))
  }

  /** `handleSubmit`: no call unless trimmed title, trimmed content and category are all filled in. */
  function Submit(f: BlogForm): (r: Option<BlogPayload>)
    ensures r.Some? <==> Trim(f.title) != "" && Trim(f.content) != "" && f.categoryId != ""
    ensures r.Some? ==>
      (r.value.title == Trim(f.title) && r.value.content == Trim(f.content)
       && r.value.categoryId == f.categoryId && r.value.status == f.status)
    ensures r.Some? ==> forall k :: 0 <= k < |r.value.tags| ==> CleanTag(r.value.tags[k])
    ensures r.Some? ==> |r.value.imageIds| <= 1 && (r.value.imageIds == [] <==> f.imageId == "")
    ensures r.Some? ==> r.value.imageIds == (if f.imageId != "" then [f.imageId] else [])
    ensures r.Some? ==> r.value.tags == SplitTags(f.tags)
  {
    if Trim(f.title) != "" && Trim(f.content) != "" && f.categoryId != "" then
      Some(BlogPayload(Trim(f.title), Trim(f.content), f.categoryId, f.status, SplitTags(f.tags),
                       if f.imageId != "" then [f.imageId] else []))
    else None
  }

  /** The Save button's `disabled`. */
  predicate SaveDisabled(isLoading: bool, f: BlogForm) {
    isLoading || Trim(f.title) == "" || Trim(f.content) == "" || f.categoryId == ""
  }

  /** The dialog's title. */
  function DialogTitle(blog: Option<Blog>): string {
    if blog.Some? then "Edit Blog" else "Create Blog"
  }

  // ----- Properties -----

  /** Save is enabled exactly when not loading and a submit would reach `onSave`. */
  lemma SaveEnabledIffSubmits(isLoading: bool, f: BlogForm)
    ensures !SaveDisabled(isLoading, f) <==> !isLoading && Submit(f).Some?
  {
  }

  /** Each tag after the first, with the space `join(', ')` puts before it. */
  function Spaced(ts: seq<string>): (r: seq<string>)
    ensures |r| == |ts| && forall k :: 0 <= k < |ts| ==> r[k] == " " + ts[k]
  {
    seq(|ts|, k requires 0 <= k < |ts| => " " + ts[k])
  }

  /** Joining with `", "` is joining the spaced tags with `","`. */
  lemma {:induction false} SpacedJoin(ts: seq<string>)
    requires |ts| >= 1
    ensures Join(Spaced(ts), ",") == " " + Join(ts, ", ")
    decreases |ts|
  {
    if |ts| >= 2 {
      assert Spaced(ts)[1..] == Spaced(ts[1..]);
      SpacedJoin(ts[1..]);
      assert Join(Spaced(ts), ",") == (" " + ts[0]) + "," + (" " + Join(ts[1..], ", "));
      assert Join(ts, ", ") == ts[0] + ", " + Join(ts[1..], ", ");
    }
  }

  /** Trimming and filtering the spaced clean tags gives the tags back. */
  lemma {:induction false} CleanSpaced(ts: seq<string>)
    requires forall k :: 0 <= k < |ts| ==> CleanTag(ts[k])
    ensures CleanTags(Spaced(ts)) == ts
    decreases |ts|
  {
    if ts != [] {
      var sp := Spaced(ts);
      TrimLeadingSpace(ts[0]);
      assert sp[1..] == Spaced(ts[1..]);
      CleanSpaced(ts[1..]);
      CleanTagsFirst(sp, ts[0]);
      assert [ts[0]] + ts[1..] == ts;
    }
  }

  /** Cleaning works piece by piece: the cleaned pieces of a concatenation are the two cleaned parts, in order. */
  lemma {:induction false} CleanTagsAppend(a: seq<string>, b: seq<string>)
    ensures CleanTags(a + b) == CleanTags(a) + CleanTags(b)
    decreases |a|
  {
    if a != [] {
      assert (a + b)[0] == a[0];
      assert (a + b)[1..] == a[1..] + b;
      CleanTagsAppend(a[1..], b);
    } else {
      assert a + b == b;
    }
  }

  /** One piece is cleaned to its trim, or dropped when that is blank. */
  lemma CleanTagsOne(p: string)
    ensures CleanTags([p]) == (if Trim(p) == "" then [] else [Trim(p)])
  {
    assert [p][1..] == [];
  }

  /** Every kept tag is the trim of some piece, and every piece with a non-blank trim gives a kept tag. */
  lemma {:induction false} CleanTagsMembers(parts: seq<string>, t: string)
    ensures t in CleanTags(parts) <==> t != "" && exists k :: 0 <= k < |parts| && Trim(parts[k]) == t
    decreases |parts|
  {
    if parts != [] {
      CleanTagsMembers(parts[1..], t);
      if t != "" && Trim(parts[0]) != t {
        if exists k :: 0 <= k < |parts| && Trim(parts[k]) == t {
          var k :| 0 <= k < |parts| && Trim(parts[k]) == t;
          assert k > 0 && parts[1..][k - 1] == parts[k];
        }
      }
    }
  }

  /** A first piece that trims to a non-empty tag is kept, as that tag, ahead of the rest. */
  lemma CleanTagsFirst(parts: seq<string>, t: string)
    requires parts != [] && Trim(parts[0]) == t && t != ""
    ensures CleanTags(parts) == [t] + CleanTags(parts[1..])
  {
  }

  /** The pieces `split(',')` cuts a `join(', ')` of tags into: the first tag, then each later one after a space. */
  lemma JoinCommaSpace(tags: seq<string>)
    requires |tags| >= 1
    ensures Join(tags, ", ") == Join([tags[0]] + Spaced(tags[1..]), ",")
  {
    var parts := [tags[0]] + Spaced(tags[1..]);
    if |tags| >= 2 {
      var rest := Join(tags[1..], ", ");
      SpacedJoin(tags[1..]);
      assert parts[1..] == Spaced(tags[1..]);
      assert Join(parts, ",") == tags[0] + "," + (" " + rest);
      CommaSpace(tags[0], rest);
    } else {
      assert parts == tags;
    }
  }

  lemma CommaSpace(a: string, b: string)
    ensures a + "," + (" " + b) == a + ", " + b
  {
    assert ", " == "," + " ";
  }

  /** Trimming and filtering the pieces of a `join(', ')` of clean tags gives the tags back. */
  lemma CleanPieces(tags: seq<string>)
    requires |tags| >= 1 && forall k :: 0 <= k < |tags| ==> CleanTag(tags[k])
    ensures CleanTags([tags[0]] + Spaced(tags[1..])) == tags
  {
    var parts := [tags[0]] + Spaced(tags[1..]);
    assert parts[1..] == Spaced(tags[1..]);
    CleanSpaced(tags[1..]);
  }

  lemma PiecesCommaFree(tags: seq<string>)
    requires |tags| >= 1 && forall k :: 0 <= k < |tags| ==> CleanTag(tags[k])
    ensures forall k :: 0 <= k < |tags| ==> ',' !in ([tags[0]] + Spaced(tags[1..]))[k]
  {
    var parts := [tags[0]] + Spaced(tags[1..]);
    forall k | 1 <= k < |tags| ensures ',' !in parts[k] {
      var t := tags[k];
      assert parts[k] == " " + t;
      assert forall i :: 0 <= i < |" " + t| ==> (" " + t)[i] == (if i == 0 then ' ' else t[i - 1]);
    }
  }

  /** Tags shown as `join(', ')` come back unchanged from the submit's split, as long as each is clean. */
  lemma TagsRoundTrip(tags: seq<string>)
    requires forall k :: 0 <= k < |tags| ==> CleanTag(tags[k])
    ensures SplitTags(Join(tags, ", ")) == tags
  {
    if tags == [] {
      assert Split("", ',') == [""];
    } else {
      var parts := [tags[0]] + Spaced(tags[1..]);
      JoinCommaSpace(tags);
      PiecesCommaFree(tags);
      assert "," == [','];
      SplitJoin(parts, ',');
      CleanPieces(tags);
    }
  }

  /**
   * Opening a clean blog and saving without edits hands back the blog's own
   * title, content, category, status, tags and image list.
   */
  lemma EditUnchanged(previous: BlogForm, b: Blog, categories: seq<Category>)
    requires b.title != "" && Trim(b.title) == b.title && b.content != "" && Trim(b.content) == b.content
    requires Given(b.categoryId)
    requires b.tags.Some? && forall k :: 0 <= k < |b.tags.value| ==> CleanTag(b.tags.value[k])
    requires b.imageIds.Some? && |b.imageIds.value| <= 1 && forall k :: 0 <= k < |b.imageIds.value| ==> b.imageIds.value[k] != ""
    ensures Submit(Synced(previous, true, Some(b), categories))
      == Some(BlogPayload(b.title, b.content, b.categoryId.value, b.status, b.tags.value, b.imageIds.value))
  {
    TagsRoundTrip(b.tags.value);
    var ids := b.imageIds.value;
    if |ids| == 1 {
      assert [ids[0]] == ids;
    }
  }

  /** A new blog starts from an empty form, which Save refuses. */
  lemma NewBlogNotSubmittable(previous: BlogForm, categories: seq<Category>)
    ensures Synced(previous, true, None, categories) == EmptyForm
    ensures Submit(EmptyForm).None?
  {
    assert Trim("") == "";
  }
}
