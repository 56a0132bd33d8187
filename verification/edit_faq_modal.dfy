/**
 * The FAQ edit dialog of src/components/modals/edit-faq-modal.tsx: question,
 * answer and category re-filled from the FAQ being edited whenever the
 * dialog is open, and the submit gate in front of `onSave`.
 */
module EditFaqModal {
  import opened Wrappers
  import opened Strings
  import opened CategoryChoice

  /** The `faq` prop. */
  datatype Faq = Faq(id: string, question: string, answer: string, categoryId: Option<string>, category: Option<string>)

  /** The dialog's state. */
  datatype FaqForm = FaqForm(question: string, answer: string, categoryId: string)

  const EmptyForm := FaqForm("", "", "")

  /** The form after the sync effect: untouched while closed, reset without an FAQ, else filled from it. */
  function Synced(previous: FaqForm, isOpen: bool, faq: Option<Faq>, categories: seq<Category>): FaqForm {
    if !isOpen then previous
    else if faq.None? then EmptyForm
    else
      var f := faq.value;
      FaqForm(f.question, f.answer, ResolveCategory(previous.categoryId, f.categoryId, f.category, categories))
  }

  class EditFaqDialog {
    var question: string
    var answer: string
    var categoryId: string

    function Form(): FaqForm
      reads this
    {
      FaqForm(question, answer, categoryId)
    }

    constructor ()
      ensures Form() == EmptyForm
    {
      question, answer, categoryId := "", "", "";
    }

    /** The effect on `[faq, isOpen, categories]`, one setter at a time. */
    method Sync(isOpen: bool, faq: Option<Faq>, categories: seq<Category>)
      modifies this
      ensures Form() == Synced(old(Form()), isOpen, faq, categories)
    {
      if isOpen {
        if faq.Some? {
          var f := faq.value;
          question := f.question;
          answer := f.answer;
          if Given(f.categoryId) {
            categoryId := f.categoryId.value;
          } else if Given(f.category) {
            var hit := FindByTitle(categories, f.category.value);
            if hit.Some? {
              categoryId := categories[hit.value].id;
            }
          }
        } else {
          question := "";
          answer := "";
          categoryId := "";
        }
      }
    }
  }

  /** What `onSave` receives. */
  datatype FaqPayload = FaqPayload(question: string, answer: string, categoryId: string)

  /** `handleSubmit`: the trimmed question and answer and the category, once all three are filled in. */
  function Submit(f: FaqForm): (r: Option<FaqPayload>)
    ensures r.Some? <==> Trim(f.question) != "" && Trim(f.answer) != "" && f.categoryId != ""
    ensures r.Some? ==> r.value == FaqPayload(Trim(f.question), Trim(f.answer), f.categoryId)
  {
    if Trim(f.question) != "" && Trim(f.answer) != "" && f.categoryId != "" then
      Some(FaqPayload(Trim(f.question), Trim(f.answer), f.categoryId))
    else None
  }

  /** The Save button's `disabled`. */
  predicate SaveDisabled(isLoading: bool, f: FaqForm) {
    isLoading || Trim(f.question) == "" || Trim(f.answer) == "" || f.categoryId == ""
  }

  /** The dialog's title. */
  function DialogTitle(faq: Option<Faq>): string {
    if faq.Some? then "Edit FAQ" else "Create FAQ"
  }

  // ----- Properties -----

  /** Save is enabled exactly when not loading and a submit would reach `onSave`. */
  lemma SaveEnabledIffSubmits(isLoading: bool, f: FaqForm)
    ensures !SaveDisabled(isLoading, f) <==> !isLoading && Submit(f).Some?
  {
  }

  /** Whatever the form holds, a payload carries no surrounding whitespace: saving it again changes nothing. */
  lemma PayloadTrimmed(f: FaqForm)
    requires Submit(f).Some?
    ensures var p := Submit(f).value;
      Submit(FaqForm(p.question, p.answer, p.categoryId)) == Submit(f)
  {
    TrimIdempotent(f.question);
    TrimIdempotent(f.answer);
  }

  /** Opening an FAQ with trimmed text and its own category and saving without edits hands back the FAQ's fields. */
  lemma EditUnchanged(previous: FaqForm, q: Faq, categories: seq<Category>)
    requires q.question != "" && Trim(q.question) == q.question
    requires q.answer != "" && Trim(q.answer) == q.answer
    requires Given(q.categoryId)
    ensures Submit(Synced(previous, true, Some(q), categories)) == Some(FaqPayload(q.question, q.answer, q.categoryId.value))
  {
  }

  /** An FAQ named by category title alone keeps the form's previous category when no listed category has that title. */
  lemma UnknownTitleKeepsCategory(previous: FaqForm, q: Faq, categories: seq<Category>)
    requires !Given(q.categoryId) && q.category.Some?
    requires forall i :: 0 <= i < |categories| ==> categories[i].title != q.category.value
    ensures Synced(previous, true, Some(q), categories).categoryId == previous.categoryId
  {
  }
}
