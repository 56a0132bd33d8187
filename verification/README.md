# A verified model of the test-admin content dashboard

test-admin is a React and TanStack Start admin dashboard for a content
management API. Its staff use it to sign in, to reset a forgotten password
with a six-digit code, and to list, create, edit and delete blogs, FAQs and
the categories of both. This project models the core of the dashboard in
Dafny and proves what it promises:

- Input hygiene (`Sanitization`, `Strings`):
  - `sanitizeInput` trims the input and escapes five HTML characters.
  - `validateEmail`, `validatePassword` and `validateOTP` check their inputs.
  - `sanitizeFormData` sanitises each field of a form.
- Error normalisation (`StatusMessages`, `ErrorUtils`, `ConstraintPattern`):
  - the message table by HTTP status;
  - the priority cascade over thrown values;
  - the reading of an API error body, covering database integrity errors, the capture of a unique-constraint name and validation lists.
- The API proxy (`Proxy`):
  - the target URL and its query string;
  - the headers, the body and the `{ok, status, error, data}` envelope.
- The server functions (`ServerCommon`, `BlogsApi`, `FaqsApi`, `CategoriesApi`): the request each one builds for the API.
- The route guards (`AuthGuard`).
- The UI components:
  - the class merge of the button (`Buttons`);
  - the table's body, range and pager (`Table`);
  - the six-cell one-time-code input (`OtpInput`);
  - the three edit dialogs (`EditBlogModal`, `EditFaqModal`, `EditCategoryModal`, with `CategoryChoice`).
- The pages:
  - the three listing pages (`Listing`, `BlogsRoute`, `FaqsRoute`, `CategoriesRoute`);
  - the four sign-in and password pages (`LoginPage`, `ResetPasswordPage`, `VerifyOtpPage`, `NewPasswordPage`).

Code that only computes a value is modelled as functions and lemmas. Code
that changes component state step by step is modelled as classes whose
methods update fields and record their effects. Those effects are the toasts,
navigations, reloads and emitted codes, kept as `seq` fields.

The environment enters the model as parameters:

- the session token;
- what `getUserFn` and `fetch` return or throw;
- the `validator` library's `isEmail` and `isNumeric`;
- `JSON.stringify`, `String(v)` of non-strings, `Number(v)` and the `URLSearchParams` encoding;
- `Date.now()`.

## Model

| member | source | states |
|---|---|---|
| Strings.Trim | src/utils/sanitization.ts:5 | `trim` yields the slice starting at the first non-whitespace character. It neither starts nor ends in whitespace, and it is empty exactly for a blank string. |
| Strings.TrimOf | src/utils/sanitization.ts:5 | Whitespace margins around a slice that starts and ends in non-whitespace trim to exactly that slice. |
| Strings.TrimIdempotent | src/components/modals/edit-category-modal.tsx:34-39 | Trimming twice is trimming once. |
| Strings.TrimLeadingSpace | src/components/modals/edit-blog-modal.tsx:82 | Whitespace in front of a string does not change its trim. |
| Strings.TrimKeepsOut | src/components/modals/edit-blog-modal.tsx:82 | Trimming adds no character. |
| Strings.ContainsIff | src/server/proxy.ts:22 | `includes` holds exactly when the needle occurs at some index. |
| Strings.Split | src/components/modals/edit-blog-modal.tsx:82 | `split` on one character is never empty, and no piece holds the separator. |
| Strings.JoinSplit | src/components/modals/edit-blog-modal.tsx:82 | Joining the pieces of a split with the separator restores the string. |
| Strings.SplitJoin | src/components/modals/edit-blog-modal.tsx:52 | Splitting a join of separator-free pieces restores the pieces. |
| Strings.Digits | src/components/otp-input.tsx:21 | `replace(/\D/g, '')` keeps only decimal digits and never lengthens the text. |
| Strings.DigitsAppend | src/components/otp-input.tsx:21 | The digits of a concatenation are the two parts' digits, in order. |
| Strings.DigitsOne | src/components/otp-input.tsx:21 | One character is kept when it is a digit and removed otherwise. |
| Strings.DigitsMembers | src/components/otp-input.tsx:21 | A character is in the result exactly when it is a digit of the input. |
| Strings.DigitsOfDigits | src/components/otp-input.tsx:21 | A string of digits passes the digit filter unchanged. |
| Json.Lookup | src/server/proxy.ts:17 | A property read is absent exactly when the key is not among the object's keys. |
| Json.SetField | src/server/blogs.ts:19 | A spread-in key reads back its new value, and every other key reads as before. |
| Json.SetFieldKeys | src/server/blogs.ts:19 | Spreading in a key keeps the key order; a new key is appended. |
| Json.RemoveField | src/server/blogs.ts:55 | The rest object of `{ id, ...rest }` has every key but `id`, with the same values. |
| Sanitization.EscapeHtml | src/utils/sanitization.ts:5-14 | Escaping never shortens text and leaves no raw `<`, `>`, `"` or `'`. |
| Sanitization.UnescapeEscapeHtml | src/utils/sanitization.ts:5-14 | Escaping is lossless: decoding the five entities restores the text. |
| Sanitization.SanitizeInputDecodes | src/utils/sanitization.ts:3-15 | A sanitised input decodes to exactly the trimmed input. |
| Sanitization.SanitizeInput | src/utils/sanitization.ts:3-15 | Trim, then escape the five characters. No contract of its own; `SanitizeInputDecodes`, `SanitizeInputSafe` and `SanitizeInputSame` state what it promises. |
| Sanitization.EscapeHtmlPlain | src/utils/sanitization.ts:5-14 | Text without the five characters is left unchanged. |
| Sanitization.SanitizeInputSafe | src/utils/sanitization.ts:3-15 | A sanitised input holds no raw `<`, `>`, `"` or `'`, and is at least as long as the trimmed input. |
| Sanitization.EscapeHtmlGrows | src/utils/sanitization.ts:5-14 | A special character lengthens the text by at least three. |
| Sanitization.EscapeHtmlBound | src/utils/sanitization.ts:5-14 | Escaping lengthens text at most six times over. |
| Sanitization.SanitizeInputSame | src/utils/sanitization.ts:3-15 | Two inputs sanitise alike exactly when they trim alike. |
| Sanitization.ValidateEmail | src/utils/sanitization.ts:17-19 | An email is valid exactly when the library accepts it and it has at most 254 characters. |
| Sanitization.ValidatePassword | src/utils/sanitization.ts:21-29 | A password is valid exactly when its length is in 8..128. A message appears exactly when it is invalid, and it names the bound that fails. |
| Sanitization.ValidateOtp | src/utils/sanitization.ts:31-33 | A code is valid exactly when it is numeric and six characters long. |
| Sanitization.SanitizeFields | src/utils/sanitization.ts:35-45 | The sanitised object has the same keys in the same order. String values are sanitised; other values pass through. |
| Sanitization.LookupSanitized | src/utils/sanitization.ts:35-45 | Reading a key of the sanitised object gives the sanitised value of that key. |
| Sanitization.SanitizeFormData | src/utils/sanitization.ts:35-45 | The loop over `Object.entries` builds exactly the sanitised object. |
| StatusMessages.MessageByStatus | src/utils/error-utils.ts:4-20 | Every status has a non-empty message. It is the generic one exactly for codes outside the eleven listed. |
| ErrorUtils.CodeOfKey | src/utils/error-utils.ts:4-20 | A string key finds the listed code whose decimal text it is, and no other. |
| ErrorUtils.MessageForStatusValue | src/utils/error-utils.ts:43 | A numeric status reads the table; any status gives a non-empty message. |
| ErrorUtils.ApiErrorMessage | src/utils/error-utils.ts:26-59 | The priority cascade: a `Response`'s status, then `response.data.detail`, then `response.status`, then `detail`, then an `Error`'s message, then the generic text. A non-string result is always a raw `detail`. |
| ErrorUtils.PrimitiveGivesGeneric | src/utils/error-utils.ts:26-59 | A thrown primitive gives the generic message. |
| ErrorUtils.ErrorMessageNeverEmpty | src/utils/error-utils.ts:26-59 | An `Error` without API details gives its own message, or the generic text when that is empty. |
| ErrorUtils.FindIntegrity | src/utils/error-utils.ts:82-83 | The search finds the first integrity-error entry. Earlier entries are non-null non-integrity entries. A TypeError happens exactly when a `null` entry is reached first. |
| ErrorUtils.Includes | src/utils/error-utils.ts:88 | `msg.includes` on a string is substring search; on a value that is neither string nor array it throws. |
| ErrorUtils.IntegrityMessage | src/utils/error-utils.ts:87-104 | An integrity message is one of the three fixed texts or the "field already exists" text. A falsy `msg` gives the generic conflict text. A `TypeError` happens exactly when a truthy `msg` is not a string and is not an array lacking the duplicate marker. |
| ErrorUtils.ParseErrorFromResponse | src/utils/error-utils.ts:65-134 | A missing or null body, or a falsy `detail`, gives the status message. A non-empty string `detail` is returned as it is. |
| ErrorUtils.OnlyFirstIntegrityCounts | src/utils/error-utils.ts:82-104 | Only the first integrity entry decides the message; entries after it are never read. |
| ErrorUtils.DuplicateBeforeForeignKey | src/utils/error-utils.ts:88-97 | A `duplicate key value` message is reported as a duplicate even when it also mentions a foreign key. It names the captured field when the constraint pattern matches, and otherwise gives "This item already exists". |
| ErrorUtils.DuplicateWithoutConstraint | src/utils/error-utils.ts:88-96 | A duplicate-key message whose constraint name does not match gives "This item already exists". |
| ErrorUtils.NeitherMarkerConflicts | src/utils/error-utils.ts:88-104 | A message with neither the duplicate nor the foreign-key marker gives the generic conflict text. |
| ErrorUtils.ForeignKeyMessage | src/utils/error-utils.ts:99-101 | A foreign-key violation yields the broken-relation text. |
| ErrorUtils.ValidationList | src/utils/error-utils.ts:108-123 | A list without integrity or null entries gives the truthy `msg || message` of its entries joined by `. `, or the stringified list when there are none. |
| ErrorUtils.ItemMessage | src/utils/error-utils.ts:109 | `err.msg \|\| err.message`. No contract of its own; `ValidationMessagesOne` and `ValidationMessagesMembers` state its use. |
| ErrorUtils.ValidationMessages | src/utils/error-utils.ts:108-110 | At most one message per entry, each truthy. |
| ErrorUtils.ValidationMessagesAppend | src/utils/error-utils.ts:108-110 | The messages of a concatenation are the messages of its parts, in order. |
| ErrorUtils.ValidationMessagesOne | src/utils/error-utils.ts:108-110 | One entry contributes its truthy `msg \|\| message`, or nothing. |
| ErrorUtils.ValidationMessagesMembers | src/utils/error-utils.ts:108-110 | A value is listed exactly when it is the truthy `msg \|\| message` of some entry. |
| ErrorUtils.DetailMessage | src/utils/error-utils.ts:79-123 | What the `try` block returns for a truthy `detail`. No contract of its own; `IntegrityAt` states the integrity case, `ValidationList` the validation list, `ObjectDetail` an object or number detail, `ParseErrorFromResponse` a string detail and `NullEntryFallsBack` a `null` reached first. |
| ErrorUtils.NoIntegrityFound | src/utils/error-utils.ts:82-83 | No integrity entry and no null means the search finds nothing. |
| ErrorUtils.NullEntryFallsBack | src/utils/error-utils.ts:127-133 | A null entry reached before any integrity entry throws inside the parser, which falls back to the status message. |
| ErrorUtils.DuplicateFieldMessage | src/utils/error-utils.ts:88-95 | A duplicate whose constraint name matches reports the captured field. |
| ErrorUtils.FirstEntryIntegrity | src/utils/error-utils.ts:82-104 | An integrity first entry decides the message, or the status fallback when it throws. |
| ErrorUtils.IntegrityAt | src/utils/error-utils.ts:82-104 | The first integrity entry, at any index, decides the message, or the status fallback when reading it throws. |
| ErrorUtils.ObjectDetail | src/utils/error-utils.ts:121-122 | A truthy `detail` that is neither a list nor a string is reported as `JSON.stringify(detail)`. |
| ErrorUtils.DuplicateTitleMessage | src/utils/error-utils.ts:88-95 | The usual PostgreSQL unique violation on `blog_categories_title_key` reports that a title with this value already exists. |
| ConstraintPattern.WordRun | src/utils/error-utils.ts:90 | The longest run of `\w` characters at a position. |
| ConstraintPattern.LastSplit | src/utils/error-utils.ts:90 | The last inner `_` of a run is where the greedy first group ends. |
| ConstraintPattern.MatchFromSound | src/utils/error-utils.ts:90 | A match reported at a position is a match of the pattern there. |
| ConstraintPattern.MatchFromComplete | src/utils/error-utils.ts:90 | Any match at a position is found there, with a first group no longer than the reported one. |
| ConstraintPattern.RunOfMatch | src/utils/error-utils.ts:90 | Behind `constraint "`, a match is one word run made of both groups and `_key`, followed by `"`. |
| ConstraintPattern.FirstMatch | src/utils/error-utils.ts:90 | The reported match starts leftmost, has the longest first group at that start, and is absent only when nothing matches. |
| ConstraintPattern.FirstMatchSkips | src/utils/error-utils.ts:90 | Starting positions with no match are skipped. |
| ConstraintPattern.ConstraintField | src/utils/error-utils.ts:90-91 | `match(...)?.[2]` is present exactly when the pattern matches somewhere, and it is a second group of some match. |
| ConstraintPattern.BlogCategoryTitle | src/utils/error-utils.ts:90-91 | The field captured from `blog_categories_title_key` is `title`. |
| OtpInput.Padded | src/components/otp-input.tsx:14-18 | The cells hold the value's characters, one per cell, padded with empty cells to the length. |
| OtpInput.Pasted | src/components/otp-input.tsx:64-73 | Pasting writes the digits from the start cell and leaves every other cell. |
| OtpInput.PasteDigits | src/components/otp-input.tsx:65 | The pasted digits are the first `length` digits of the data. |
| OtpInput.OtpBuffer.constructor | src/components/otp-input.tsx:10-11 | The buffer starts with `length` empty cells. |
| OtpInput.OtpBuffer.Sync | src/components/otp-input.tsx:14-18 | The cells become the padded value; they are all digits exactly when the value's kept prefix is. |
| OtpInput.OtpBuffer.Emit | src/components/otp-input.tsx:27 | `onChange` receives the concatenated cells. |
| OtpInput.OtpBuffer.HandlePaste | src/components/otp-input.tsx:64-77 | The cells after the paste and the code emitted. Focus lands after the last pasted digit, capped at the last cell. Cells holding only digits stay that way. |
| OtpInput.OtpBuffer.HandleChange | src/components/otp-input.tsx:20-43 | No digit clears the cell. One digit fills it and moves focus on. Several digits are handled as a paste. Each case emits the code. |
| OtpInput.OtpBuffer.HandleKeyDown | src/components/otp-input.tsx:45-62 | Backspace clears a filled cell or moves back from an empty one. The arrows move focus within bounds. Nothing else changes. |
| OtpInput.PaddedCode | src/components/otp-input.tsx:14-18 | The code of the padded cells is the value cut to the length. |
| OtpInput.PasteKeepsDigits | src/components/otp-input.tsx:64-73 | Pasting digits into digit cells keeps them digit cells. |
| OtpInput.PasteWholeCode | src/components/otp-input.tsx:64-73 | Pasting a full-length code from the first cell makes the code exactly that. |
| OtpInput.PasteExtent | src/components/otp-input.tsx:68-72 | Cells before the start and after the pasted digits are untouched, and the ones between hold the digits. |
| Buttons.CustomTokens | src/components/ui/buttons.tsx:70 | The custom classes are the non-blank pieces of `className`, and no more than the pieces. |
| Buttons.CustomTokensAppend | src/components/ui/buttons.tsx:70 | The custom classes of a concatenation are the two parts' custom classes, in order. |
| Buttons.CustomTokensOne | src/components/ui/buttons.tsx:70 | One piece is kept as it is, or dropped when it is blank. |
| Buttons.KeepBase | src/components/ui/buttons.tsx:71-85 | A base class is kept exactly when no custom class overrides it. |
| Buttons.KeepBaseAppend | src/components/ui/buttons.tsx:71-85 | The kept base classes of a concatenation are the two parts' kept classes, in order, repeats included. |
| Buttons.KeepBaseOne | src/components/ui/buttons.tsx:71-85 | One base class is kept as it is, or dropped when a custom class overrides it. |
| Buttons.SplitBase | src/components/ui/buttons.tsx:55-67 | The base class string splits back into its tokens. |
| Buttons.EmptyClassName | src/components/ui/buttons.tsx:55-88 | Without a `className`, the result is the base classes. |
| Buttons.ResultTokens | src/components/ui/buttons.tsx:70-87 | The result's classes are the kept base classes followed by the custom ones. |
| Buttons.ButtonClasses | src/components/ui/buttons.tsx:55-88 | The merged class string. No contract of its own; `ResultTokens`, `BaseSurvives`, `CustomSurvives` and `EmptyClassName` state it. |
| Buttons.BaseSurvives | src/components/ui/buttons.tsx:71-87 | A base class appears in the result exactly when it is not overridden or a custom class repeats it. |
| Buttons.CustomSurvives | src/components/ui/buttons.tsx:70-87 | Every non-blank custom class appears in the result; blank pieces are dropped. |
| Buttons.InlineFlexKept | src/components/ui/buttons.tsx:61-65 | At least one base class always survives the merge. |
| Buttons.RadiusAndSizes | src/components/ui/buttons.tsx:32-53 | Rounding and size classes depend on the variant: the text variant gets neither rounding nor button padding. |
| Buttons.DisabledClasses | src/components/ui/buttons.tsx:61-67 | A disabled button is faded and shows the not-allowed cursor. An enabled one gets the clickable cursor class. The variant's classes come last. |
| Buttons.PaddingShorthand | src/components/ui/buttons.tsx:79-80 | A `p-` class overrides exactly the base classes `px-6` and `py-3`, and no other. |
| Table.CeilDiv | src/routes/blogs.tsx:220 | `Math.ceil(a / b)` is the least multiple count covering `a`. |
| Table.TotalPages | src/routes/blogs.tsx:220 | There are no pages exactly when nothing is counted; the last page holds the remainder. |
| Table.RangeOrdered | src/components/ui/table.tsx:81-82 | "Showing x to y of n" has x at most y, and y at most n. |
| Table.RangeOfPage | src/components/ui/table.tsx:81-82 | On a page that exists, the range starts at the page's first item and spans the page's size, or the remainder on the last page. |
| Table.RangeStart | src/components/ui/table.tsx:81 | The first number of the label. No contract of its own; `RangeOrdered` and `RangeOfPage` state it. |
| Table.RangeEnd | src/components/ui/table.tsx:82 | The second number of the label. No contract of its own; `RangeOrdered` and `RangeOfPage` state it. |
| Table.EmptyRange | src/components/ui/table.tsx:81-82 | Nothing counted shows "0 to 0". |
| Table.Click | src/components/ui/table.tsx:98-112 | A pager button asks for the neighbouring page exactly when it is not disabled. |
| Table.PrevDisabled | src/components/ui/table.tsx:100 | Previous is disabled on page 1 and before. No contract of its own; `Click` and `ClickStaysInRange` state its effect. |
| Table.NextDisabled | src/components/ui/table.tsx:112 | Next is disabled on the last page and after. No contract of its own; `Click` and `ClickStaysInRange` state its effect. |
| Table.ClickStaysInRange | src/components/ui/table.tsx:98-112 | From a page in range, an enabled button asks for a page in range. |
| Table.SomeButtonEnabled | src/components/ui/table.tsx:99-112 | With two pages or more, one of the buttons is enabled. |
| Table.SelectPageSize | src/components/ui/table.tsx:84-94 | A page-size choice asks for 5, 10, 20 or 50. |
| Table.PageSizeChoices | src/components/ui/table.tsx:32 | The choices offered are exactly 5, 10, 20 and 50. |
| Table.Row | src/components/ui/table.tsx:66-70 | A row has one cell per column. |
| Table.Cell | src/components/ui/table.tsx:68 | The renderer's output, or else the field. No contract of its own; `ColumnContents` states it. |
| Table.TableBody | src/components/ui/table.tsx:51-71 | Loading shows one loading row. No data shows one empty row. Otherwise there is one row per item. The single rows span every column. |
| Table.ColumnContents | src/components/ui/table.tsx:64-71 | A column's cells are its renderer's output per item, or the item's field, in data order. |
| Table.LoadingHidesData | src/components/ui/table.tsx:51-56 | While loading, the data does not matter. |
| CategoryChoice.FindByTitle | src/components/modals/edit-blog-modal.tsx:58 | `find` returns the first category with that title, or nothing when none has it. |
| CategoryChoice.ResolveCategory | src/components/modals/edit-blog-modal.tsx:55-62 | The record's own category id wins. Otherwise the first category with the record's title wins. Otherwise the previous choice stays. |
| EditBlogModal.EditBlogDialog.constructor | src/components/modals/edit-blog-modal.tsx:39-44 | Every field starts empty, with status draft. |
| EditBlogModal.EditBlogDialog.Sync | src/components/modals/edit-blog-modal.tsx:46-72 | While closed nothing changes. A new blog resets the form. An edited blog fills the six fields. |
| EditBlogModal.CleanTags | src/components/modals/edit-blog-modal.tsx:82 | The kept tags are non-empty, trimmed and comma-free, and no more than the pieces. |
| EditBlogModal.CleanTagsAppend | src/components/modals/edit-blog-modal.tsx:82 | The cleaned pieces of a concatenation are the two cleaned parts, in order. |
| EditBlogModal.CleanTagsOne | src/components/modals/edit-blog-modal.tsx:82 | One piece is kept as its trim, or dropped when that is blank. |
| EditBlogModal.CleanTagsMembers | src/components/modals/edit-blog-modal.tsx:82 | A tag is kept exactly when it is the non-blank trim of some piece. |
| EditBlogModal.SplitTags | src/components/modals/edit-blog-modal.tsx:82 | Every tag of the split is clean. |
| EditBlogModal.TagsText | src/components/modals/edit-blog-modal.tsx:52 | The tags joined with `, `, or empty. No contract of its own; `TagsRoundTrip` states its round trip. |
| EditBlogModal.FirstImage | src/components/modals/edit-blog-modal.tsx:53 | The first image id, or empty. No contract of its own; `EditUnchanged` uses it. |
| EditBlogModal.Synced | src/components/modals/edit-blog-modal.tsx:46-72 | The form after the sync effect. No contract of its own; it specifies `EditBlogDialog.Sync`. |
| EditBlogModal.SaveDisabled | src/components/modals/edit-blog-modal.tsx:200 | The Save button's `disabled`. No contract of its own; `SaveEnabledIffSubmits` states it. |
| EditBlogModal.DialogTitle | src/components/modals/edit-blog-modal.tsx:92 | "Edit Blog" or "Create Blog". No contract of its own. |
| EditBlogModal.Submit | src/components/modals/edit-blog-modal.tsx:74-86 | `onSave` is called exactly when the trimmed title, the trimmed content and the category are filled. It gets the trimmed text, the category, the status, exactly `SplitTags` of the tag text, and `[imageId]` when an image is set, else no image. |
| EditBlogModal.SaveEnabledIffSubmits | src/components/modals/edit-blog-modal.tsx:200 | Save is enabled exactly when not loading and a submit would reach `onSave`. |
| EditBlogModal.CleanSpaced | src/components/modals/edit-blog-modal.tsx:82 | Clean tags with a space in front trim back to themselves. |
| EditBlogModal.TagsRoundTrip | src/components/modals/edit-blog-modal.tsx:52 | Clean tags joined with `, ` split back into the same tags. |
| EditBlogModal.EditUnchanged | src/components/modals/edit-blog-modal.tsx:46-86 | Opening a clean blog and saving without edits hands back the blog's own fields. |
| EditBlogModal.NewBlogNotSubmittable | src/components/modals/edit-blog-modal.tsx:63-70 | A new blog starts from the empty form, which cannot be submitted. |
| EditFaqModal.EditFaqDialog.constructor | src/components/modals/edit-faq-modal.tsx:22-24 | The three fields start empty. |
| EditFaqModal.EditFaqDialog.Sync | src/components/modals/edit-faq-modal.tsx:26-47 | While closed nothing changes. A new FAQ resets the form. An edited FAQ fills it, with the category resolved. |
| EditFaqModal.Submit | src/components/modals/edit-faq-modal.tsx:49-58 | `onSave` is called exactly when question, answer and category are filled. It gets the trimmed text. |
| EditFaqModal.SaveEnabledIffSubmits | src/components/modals/edit-faq-modal.tsx:130 | Save is enabled exactly when not loading and a submit would reach `onSave`. |
| EditFaqModal.PayloadTrimmed | src/components/modals/edit-faq-modal.tsx:49-58 | Submitting a payload again changes nothing. |
| EditFaqModal.EditUnchanged | src/components/modals/edit-faq-modal.tsx:26-58 | Opening a clean FAQ and saving without edits hands back its fields. |
| EditFaqModal.UnknownTitleKeepsCategory | src/components/modals/edit-faq-modal.tsx:34-39 | A category title that matches nothing keeps the previous choice. |
| EditFaqModal.Synced | src/components/modals/edit-faq-modal.tsx:26-47 | The form after the sync effect. No contract of its own; it specifies `EditFaqDialog.Sync`. |
| EditFaqModal.SaveDisabled | src/components/modals/edit-faq-modal.tsx:130 | The Save button's `disabled`. No contract of its own; `SaveEnabledIffSubmits` states it. |
| EditFaqModal.DialogTitle | src/components/modals/edit-faq-modal.tsx:64 | "Edit FAQ" or "Create FAQ". No contract of its own. |
| EditCategoryModal.EditCategoryDialog.constructor | src/components/modals/edit-category-modal.tsx:22 | The title starts empty. |
| EditCategoryModal.EditCategoryDialog.Sync | src/components/modals/edit-category-modal.tsx:24-32 | While closed nothing changes. Opening fills the title from the category, or clears it. |
| EditCategoryModal.Submit | src/components/modals/edit-category-modal.tsx:34-39 | `onSave` is called exactly when the title is not blank. It gets exactly the trimmed title, which is non-empty. |
| EditCategoryModal.SaveEnabledIffSubmits | src/components/modals/edit-category-modal.tsx:76 | Save is enabled exactly when not loading and a submit would reach `onSave`. |
| EditCategoryModal.SubmitIdempotent | src/components/modals/edit-category-modal.tsx:34-39 | A submitted title submits again unchanged. |
| EditCategoryModal.EditUnchanged | src/components/modals/edit-category-modal.tsx:24-39 | Reopening on a clean title and saving hands back that title. |
| EditCategoryModal.HeaderNamesType | src/components/modals/edit-category-modal.tsx:45 | The header tells editing from creating, and ends in the category type. |
| EditCategoryModal.TypeName | src/components/modals/edit-category-modal.tsx:11 | "Blog" or "FAQ". No contract of its own. |
| EditCategoryModal.Synced | src/components/modals/edit-category-modal.tsx:24-32 | The title after the sync effect. No contract of its own; it specifies `EditCategoryDialog.Sync`. |
| EditCategoryModal.SaveDisabled | src/components/modals/edit-category-modal.tsx:76 | The Save button's `disabled`. No contract of its own; `SaveEnabledIffSubmits` states it. |
| EditCategoryModal.Header | src/components/modals/edit-category-modal.tsx:45 | The dialog header. No contract of its own; `HeaderNamesType` states it. |
| Proxy.KeptParams | src/server/proxy.ts:16-21 | No more pairs are sent than there are parameters. |
| Proxy.SearchParams | src/server/proxy.ts:16-21 | The `forEach` appends exactly the parameters that are neither `undefined` nor `null`, in order. |
| Proxy.Separator | src/server/proxy.ts:22 | `&` after a `?`, else `?`. No contract of its own; `SeparatorOfPath` states it. |
| Proxy.TargetUrl | src/server/proxy.ts:14-24 | The URL `fetch` is called with. No contract of its own; `BuildUrl` is proved equal to it. |
| Proxy.BuildUrl | src/server/proxy.ts:14-24 | The URL is the base plus the path, then, when there are parameters, the separator and the encoded query. |
| Proxy.KeptParamsAppend | src/server/proxy.ts:17-21 | Filtering works entry by entry over a concatenation. |
| Proxy.KeptParamsMembers | src/server/proxy.ts:17-21 | A pair is sent exactly when some entry with a value other than undefined or null converts to it. |
| Proxy.SeparatorOfPath | src/server/proxy.ts:22 | The separator depends only on the path, since the base URL has no `?`. |
| Proxy.EmptyQueryKeepsSeparator | src/server/proxy.ts:15-24 | Parameters that are all undefined or null still add the separator. |
| Proxy.Headers | src/server/proxy.ts:28-31 | The JSON content type always comes first; a bearer credential follows exactly when there is a token. |
| Proxy.BearerOnlyWithToken | src/server/proxy.ts:30 | A request carries an `Authorization` header exactly when there is a token. |
| Proxy.Body | src/server/proxy.ts:32 | A body is sent exactly when it is truthy, and it is the serialised payload. |
| Proxy.Respond | src/server/proxy.ts:35-69 | A thrown lookup or fetch gives the network failure. A failed response carries the parsed error and null data. A success carries the JSON, or the text as `{message}`. `ok` holds exactly when there is no error. |
| ServerCommon.CreateBody | src/server/blogs.ts:34 | The create body has the input's keys, each sanitised. |
| ServerCommon.UpdateBody | src/server/blogs.ts:55-56 | The update body has every key but `id`, each sanitised. |
| ServerCommon.Stamped | src/server/blogs.ts:19 | The read parameters gain `_t` and keep every other key. |
| ServerCommon.PathId | src/server/blogs.ts:59 | The id is read back from a templated path exactly when the path has that form. |
| ServerCommon.PathIdOfTemplate | src/server/blogs.ts:59 | A templated path names exactly the id it was built from. |
| ServerCommon.Addressed | src/server/blogs.ts:66-78 | An addressing request names its id and has neither body nor parameters. |
| ServerCommon.AddressedInjective | src/server/blogs.ts:66-78 | Distinct ids give distinct requests. |
| BlogsApi.GetBlogs | src/server/blogs.ts:5-22 | GET on the blogs path, with the caller's parameters stamped with the time. |
| BlogsApi.CreateBlog | src/server/blogs.ts:24-42 | POST on the blogs path with the sanitised form. |
| BlogsApi.UpdateBlog | src/server/blogs.ts:44-64 | PUT on the singular blog path of the id, with the sanitised form minus `id`. |
| BlogsApi.DeleteBlog | src/server/blogs.ts:66-78 | DELETE on the blog's path. |
| BlogsApi.HardDeleteBlog | src/server/blogs.ts:80-89 | DELETE on the hard-delete path with its trailing slash. |
| BlogsApi.RestoreBlog | src/server/blogs.ts:91-100 | PATCH on the restore path. |
| BlogsApi.UpdatePathSingular | src/server/blogs.ts:59 | An update and a delete of the same blog go to different paths. |
| BlogsApi.UpdateSanitisesTitle | src/server/blogs.ts:54-62 | The update sends the sanitised title. |
| FaqsApi.GetFaqs | src/server/faqs.ts:5-22 | GET on the FAQs path, with the caller's parameters stamped with the time. |
| FaqsApi.CreateFaq | src/server/faqs.ts:24-39 | POST with the sanitised form. |
| FaqsApi.UpdateFaq | src/server/faqs.ts:41-58 | PUT on the FAQ's path with the sanitised form minus `id`. |
| FaqsApi.DeleteFaq | src/server/faqs.ts:60-69 | DELETE on the FAQ's path with a trailing slash. |
| FaqsApi.RestoreFaq | src/server/faqs.ts:71-80 | PATCH on the restore path. |
| FaqsApi.HardDeleteFaq | src/server/faqs.ts:82-91 | DELETE on the hard-delete path with its trailing slash. |
| FaqsApi.DeleteAddsSlash | src/server/faqs.ts:53-65 | A delete goes to the update path plus `/`. |
| CategoriesApi.GetBlogCategories | src/server/categories.ts:5-16 | GET on the blog categories path with the caller's parameters as they are. |
| CategoriesApi.CreateBlogCategory | src/server/categories.ts:18-30 | POST on the blog-category create path with the sanitised form. |
| CategoriesApi.UpdateBlogCategory | src/server/categories.ts:32-45 | PUT on the category's path with the sanitised form minus `id`. |
| CategoriesApi.DeleteBlogCategory | src/server/categories.ts:47-57 | DELETE on the category's path. |
| CategoriesApi.GetFaqCategories | src/server/categories.ts:59-70 | GET on the FAQ categories path with the caller's parameters as they are. |
| CategoriesApi.CreateFaqCategory | src/server/categories.ts:72-84 | POST on the FAQ categories path with the sanitised form. |
| CategoriesApi.UpdateFaqCategory | src/server/categories.ts:86-99 | PUT on the category's path with the sanitised form minus `id`. |
| CategoriesApi.DeleteFaqCategory | src/server/categories.ts:101-111 | DELETE on the category's path. |
| CategoriesApi.CreatePathMismatch | src/server/categories.ts:10-78 | Blog categories are created on a path other than the one they are read from; FAQ categories use one path. |
| CategoriesApi.ReadsNotStamped | src/server/categories.ts:5-16 | Category reads carry no time stamp. |
| AuthGuard.Index0 | src/utils/auth-guard.ts:7 | `results?.[0]`: the first element of an array, absent for an empty one. |
| AuthGuard.FirstUser | src/utils/auth-guard.ts:7 | `userData?.results?.[0]`. No contract of its own; `RequireAuth` and `NoResultsRedirects` state it. |
| AuthGuard.SignedIn | src/utils/auth-guard.ts:7 | The lookup returned and its first user is truthy. No contract of its own; the guards are stated in its terms. |
| AuthGuard.RequireAuth | src/utils/auth-guard.ts:4-14 | The guard lets through exactly a signed-in user, returning the first user. Otherwise, and when the lookup throws, it redirects to the login page. |
| AuthGuard.RequireGuest | src/utils/auth-guard.ts:16-25 | The guard always lets the visitor through, because its `catch` swallows its own redirect. |
| AuthGuard.RequireGuestWithFlow | src/utils/auth-guard.ts:27-30 | The search is handed back unchanged. |
| AuthGuard.SignedInPassesBoth | src/utils/auth-guard.ts:4-25 | A signed-in user passes both guards. |
| AuthGuard.NoResultsRedirects | src/utils/auth-guard.ts:7-8 | Empty or missing `results` redirect to login. |
| AuthGuard.GuestGuardIgnoresSignIn | src/utils/auth-guard.ts:19-24 | A signed-in lookup passes the guest guard as written, but is redirected by the rethrowing one. |
| AuthGuard.RequireGuestRethrowing | src/utils/auth-guard.ts:19-20 | The evidently intended guest guard redirects to the dashboard exactly when a user is signed in. |
| PageEffects.OrEmpty | src/routes/auth/verify-otp.tsx:16-20 | `x \|\| ''` keeps a truthy value and turns anything else into `''`. |
| Listing.OrDefault | src/routes/blogs.tsx:28-29 | `Number(x) \|\| d` keeps a truthy number and falls back otherwise. |
| Listing.ValidatePaging | src/routes/blogs.tsx:26-31 | Page and page size are the numbers given, or 1 and 10 for falsy ones. |
| Listing.PageChange | src/routes/blogs.tsx:223 | Changing page keeps the page size. |
| Listing.PageSizeChange | src/routes/blogs.tsx:224 | Changing page size goes back to page 1. |
| Listing.ItemsOf | src/routes/blogs.tsx:46 | The items are the array, or its truthy `data`, or an empty list. |
| Listing.TotalCountOf | src/routes/blogs.tsx:47 | The count is the array's length, or a truthy `count`. |
| Listing.ErrorText | src/routes/blogs.tsx:42 | `error \|\| fallback`. |
| Listing.Load | src/routes/blogs.tsx:32-50 | The loader redirects exactly when the guard does. It fails exactly when the guard passes and the result is not ok, with `error \|\| fallback` as its message. Otherwise it returns the items, the count and the categories. |
| Listing.FindById | src/routes/blogs.tsx:90 | `find` by id returns the first entry with that id, or nothing when none has it. Reading `id` on a `null` entry met first raises a `TypeError`. |
| Listing.CategoryTitle | src/routes/blogs.tsx:89-92 | An unknown id reads "Unknown", and a found truthy category gives its title. The search's `TypeError` propagates. |
| Listing.CategoryCell | src/routes/blogs.tsx:99 | The item's own category name wins over a lookup by id. |
| Listing.WithId | src/routes/blogs.tsx:146 | `{ id, ...data }` carries the form's `id` when it has one, else the record's. |
| Listing.SaveToast | src/routes/blogs.tsx:148-167 | A save succeeds exactly when the call returns ok. Otherwise the toast shows the error or the fallback. |
| Listing.DeleteToast | src/routes/blogs.tsx:183-195 | A delete succeeds exactly when the call returns ok. Otherwise the toast shows the error or the fallback. |
| Listing.ListPage.constructor | src/routes/blogs.tsx:79-81 | The page starts with closed dialogs, no toasts and no reloads. |
| Listing.ListPage.OpenEdit | src/routes/blogs.tsx:121 | The edit dialog opens on the record, or empty for a new one; nothing else changes. |
| Listing.ListPage.OpenDelete | src/routes/blogs.tsx:127 | The delete dialog opens on the record; nothing else changes. |
| Listing.ListPage.HandleSave | src/routes/blogs.tsx:141-171 | An update when a record is being edited, a create otherwise. One toast is added, a reload happens on success, and the dialog closes unless the call threw. |
| Listing.ListPage.HandleDelete | src/routes/blogs.tsx:175-199 | Without a record the id read throws, giving one failure toast. Otherwise the id is sent, one toast is added, and a reload happens on success. |
| Listing.OrDefaultIdempotent | src/routes/blogs.tsx:28-29 | Defaulting twice is defaulting once. |
| Listing.PageSizeChangeShowsFirstPage | src/routes/blogs.tsx:218-224 | After a page-size change the table shows from item 1 and Previous is disabled. |
| Listing.CountMatchesItems | src/routes/blogs.tsx:46-47 | For an array or a `data` array without `count`, the count is the number of items. |
| Listing.FailedResponseListsNothing | src/routes/blogs.tsx:48 | A failed envelope lists no items. |
| Listing.CategoryCellFallback | src/routes/blogs.tsx:89-99 | No own name, no `null` category and no matching id shows "Unknown". |
| Listing.NullCategoryThrows | src/routes/blogs.tsx:89-99 | A `null` category listed before any match makes the cell throw. |
| Listing.NothingLoaded | src/routes/blogs.tsx:46-47 | A body without `data` and `count` lists nothing and counts 0. |
| Listing.ReloadOnlyOnSuccess | src/routes/blogs.tsx:148-190 | An error toast appears exactly when the call did not return ok. |
| Listing.UpdateInputCarriesId | src/routes/blogs.tsx:146 | The update input carries the record's id and the form's other fields. |
| BlogsRoute.LoadBlogs | src/routes/blogs.tsx:32-50 | Redirect exactly when signed out; failure exactly when the blogs call fails. On success, the categories are those listed. |
| BlogsRoute.SaveRequest | src/routes/blogs.tsx:141-164 | A create sends the create request; an update with a string id sends the update. |
| BlogsRoute.EditSendsUpdate | src/routes/blogs.tsx:144-146 | Editing sends PUT on the record's path, with the form's fields sanitised and no `id` in the body. |
| BlogsRoute.CategoriesNeverFailTheLoad | src/routes/blogs.tsx:36-48 | The categories call cannot make the load fail; a failed one lists no categories. |
| FaqsRoute.LoadFaqs | src/routes/faqs.tsx:32-50 | Redirect exactly when signed out; failure exactly when the FAQs call fails. |
| FaqsRoute.SaveRequest | src/routes/faqs.tsx:138-168 | A create sends the create request; an update with a string id sends the update. |
| FaqsRoute.EditSendsUpdate | src/routes/faqs.tsx:138-168 | Editing sends PUT on the record's path, with the form's fields sanitised and no `id` in the body. |
| CategoriesRoute.TabOf | src/routes/categories.tsx:38 | The tab is the one given when truthy, else blogs. |
| CategoriesRoute.ValidateSearch | src/routes/categories.tsx:34-40 | Paging as on the other lists, plus the tab. |
| CategoriesRoute.SwitchTab | src/routes/categories.tsx:195-205 | A tab switch goes to page 1 and keeps the page size. |
| CategoriesRoute.LoadRequest | src/routes/categories.tsx:47-53 | The blogs tab reads blog categories; any other tab reads FAQ categories. |
| CategoriesRoute.LoadCategories | src/routes/categories.tsx:41-55 | Redirect exactly when signed out; failure exactly when the call fails. |
| CategoriesRoute.SaveRequest | src/routes/categories.tsx:123-155 | Create or update on the endpoint of the current tab. |
| CategoriesRoute.DeleteRequest | src/routes/categories.tsx:157-175 | DELETE on the category's path for the current tab. |
| CategoriesRoute.DialogType | src/routes/categories.tsx:235 | The dialog names blogs exactly on the blogs tab. |
| CategoriesRoute.OtherTabsMeanFaqs | src/routes/categories.tsx:47-53 | Any tab other than blogs reads, deletes and edits FAQ categories. |
| CategoriesRoute.NoTabMeansBlogs | src/routes/categories.tsx:34-53 | A search without a tab reads blog categories. |
| CategoriesRoute.ResetsCompose | src/routes/categories.tsx:195-225 | A tab switch then a page-size change lands on page 1 of that tab with that size. |
| LoginPage.Answer | src/routes/auth/login.tsx:38-59 | A thrown login crashes. A non-empty error is refused with it. Sign-in happens exactly when there is no error and success is true. |
| LoginPage.Submit | src/routes/auth/login.tsx:25-60 | The email is checked first, then the password with its message. Only then is login called. |
| LoginPage.ToastsOf | src/routes/auth/login.tsx:38-59 | At most one toast, and none only when the login answered neither way. A success toast appears exactly on sign-in. |
| LoginPage.LoginForm.constructor | src/routes/auth/login.tsx:20-22 | The form starts empty with nothing recorded. |
| LoginPage.LoginForm.HandleSubmit | src/routes/auth/login.tsx:25-60 | Sanitised credentials are sent exactly when the checks pass. Toasts, the dashboard navigation and the refresh follow the outcome. Loading ends. |
| LoginPage.LoginForm.React | src/routes/auth/login.tsx:46-59 | The reaction to the login result: toasts, navigation and refresh. |
| LoginPage.EmailFirst | src/routes/auth/login.tsx:29-30 | A bad email stops the submit whatever the password. |
| LoginPage.ErrorBeatsSuccess | src/routes/auth/login.tsx:48-54 | An error message wins over `success: true`. |
| LoginPage.EscapedLengthCounts | src/routes/auth/login.tsx:32-36 | The length check runs on the escaped text, so a 7-character password with a special character passes. |
| NewPasswordPage.ValidateSearch | src/routes/auth/new-password.tsx:17-22 | Email and code are read with an empty-string fallback. |
| NewPasswordPage.BeforeLoad | src/routes/auth/new-password.tsx:11-15 | Redirect to reset-password exactly when the email or the code is missing. |
| NewPasswordPage.Check | src/routes/auth/new-password.tsx:36-52 | A mismatch is reported first, then the length message. There is no error exactly when the entries match and are valid. |
| NewPasswordPage.NewPasswordForm.constructor | src/routes/auth/new-password.tsx:28-31 | The form starts empty. |
| NewPasswordPage.NewPasswordForm.HandleSubmit | src/routes/auth/new-password.tsx:33-63 | The error shown is the check's. The login page opens exactly when the check passes. |
| NewPasswordPage.MatchIsTrimmedEquality | src/routes/auth/new-password.tsx:38-45 | The mismatch check compares the trimmed entries. |
| NewPasswordPage.MismatchBeforeLength | src/routes/auth/new-password.tsx:38-52 | A mismatch is reported even for a too-short password. |
| NewPasswordPage.MissingEntryRedirects | src/routes/auth/new-password.tsx:11-22 | A search without the email or the code redirects. |
| VerifyOtpPage.ValidateSearch | src/routes/auth/verify-otp.tsx:16-20 | The email is read with an empty-string fallback. |
| VerifyOtpPage.Load | src/routes/auth/verify-otp.tsx:9-14 | Redirect to reset-password exactly when the email is empty. |
| VerifyOtpPage.Onward | src/routes/auth/verify-otp.tsx:44 | The next page is new-password, carrying the email and the code. |
| VerifyOtpPage.VerifyOtpForm.constructor | src/routes/auth/verify-otp.tsx:26-28 | The form starts empty. |
| VerifyOtpPage.VerifyOtpForm.HandleSubmit | src/routes/auth/verify-otp.tsx:30-50 | An invalid code shows the error. A valid one navigates on. |
| VerifyOtpPage.VerifyOtpForm.HandleResend | src/routes/auth/verify-otp.tsx:52-60 | The error is cleared, and the code, the loading flag and the navigations are unchanged. |
| VerifyOtpPage.EnabledMeansSixCharacters | src/routes/auth/verify-otp.tsx:87 | Submit is enabled exactly when not loading and six characters are entered. |
| VerifyOtpPage.SubmitDisabled | src/routes/auth/verify-otp.tsx:87 | The submit button's `disabled`. No contract of its own; `EnabledMeansSixCharacters` states it. |
| VerifyOtpPage.AcceptedCodeOpensNewPassword | src/routes/auth/verify-otp.tsx:44 | An accepted code reaches the new-password page without its redirect. |
| ResetPasswordPage.Onward | src/routes/auth/reset-password.tsx:21-34 | A valid email opens verify-otp carrying the sanitised email. |
| ResetPasswordPage.ResetPasswordForm.constructor | src/routes/auth/reset-password.tsx:14-16 | The form starts empty. |
| ResetPasswordPage.ResetPasswordForm.HandleSubmit | src/routes/auth/reset-password.tsx:18-40 | An invalid email shows the error; a valid one navigates on. |
| ResetPasswordPage.CarriesSanitisedEmail | src/routes/auth/reset-password.tsx:34 | The email carried decodes to the trimmed input. |
| ResetPasswordPage.AcceptedEmailOpensVerifyOtp | src/routes/auth/reset-password.tsx:34 | A valid, non-blank email passes the verify-otp loader. |

## Left out

- I/O is outside the model: the session store, `getUserFn`, `fetch`, timers, `router.invalidate()`, `navigate` and the browser. Results come in as parameters, and effects are recorded as toasts, navigations and reloads.
- Toast display, its timeout and its container are outside the model. src/components/toast.tsx is not part of this model.
- src/components/modals/base-modal.tsx and src/components/ui/image-upload.tsx are not part of this model: the dialogs are modelled by their state and their submit.
- The user lookup of src/server/auth.ts is not part of this model; `loginFn` is modelled by its result.
- `Number(v)` is an abstract number, given as a function. The paging defaults depend only on whether it is truthy.
- JSON numbers are integers. Fractional numbers never decide a branch of the core.
- A `char` stands for one UTF-16 code unit, as JavaScript `length` counts.
- The server functions return the envelope of `apiCall` unchanged. They are modelled by the request they build; the envelope is `Proxy.Respond`.
- Listing.WithId: `editModal.blog.id` is taken as `null` when the record has no `id`, where JavaScript would pass `undefined`.
- BlogsRoute.SaveRequest: an update input whose `id` is not a string is not sent. The source types it as a string, so the template literal of a non-string id is not modelled.
- Listing.CategoryTitle: `categories.find` on a value that is not an array is not modelled: the categories are always a list here.
- Console logging is left out: the `console.log` and `console.error` calls of src/utils/error-utils.ts, src/server/proxy.ts, src/server/blogs.ts and src/routes/faqs.tsx have no effect the model keeps.
- Listing.ListPage.HandleSave: the case where `router.invalidate()` throws is not modelled. The call result is either returned or thrown.
- Timers that cannot fail leave the page `catch` blocks after them unreachable (verify-otp, reset-password, new-password). Those blocks are not modelled.
- Form typing, through the input setters, is left out: each page method reads the fields as they stand.
- React's rendering and stale closures are left out. Each handler runs on the state at the time of the call.
- Table.TotalPages: the page size is taken to be a positive integer, as the page-size select and the default of 10 give. A `pageSize` search parameter that is negative or fractional reaches `Math.ceil` in the routes, and that page count and the "Showing" label it produces are not modelled.
- Table.SelectPageSize: takes the index of an offered option, so values outside the select are not modelled.
- The loader's own `page`/`page_size` request parameters are carried as given parameters, without the snake-case renaming.
- LoginPage.LoginForm.HandleSubmit: `loginFn` sanitises the credentials again on the server. That second pass is not modelled.
- Rendering is not modelled: the icons, the header and sidebar layout, and the class strings of elements other than `Button`.

## Findings

| source | as written | input that shows it | evidently intended | confidence | as-written member | corrected member |
|---|---|---|---|---|---|---|
| src/utils/auth-guard.ts:17-24 | The redirect to `/dashboard` is thrown inside the `try`. The bare `catch` swallows it, so `requireGuest` never redirects. | A lookup returning `{results: [{id: "u1"}]}` | A signed-in user is sent from the guest pages to the dashboard, and only a failed lookup is absorbed | high, not executed | AuthGuard.GuestGuardIgnoresSignIn | AuthGuard.RequireGuestRethrowing |
