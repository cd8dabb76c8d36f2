# Email compose form: recipient picker and submit validation

This project models the logic of the ModalComp email-compose widget in Dafny.
The widget has two parts.

- **The recipient picker** (`AutocompleteEmails`). It keeps four pieces of local state: the search text, the suggestions, a loading flag and a format error. It edits a list of selected customers that the form owns. The operations are:
  - add a customer unless its id is already selected;
  - remove by id;
  - remove all;
  - replace the whole selection with a fetched directory.

  Each keystroke re-checks the search text against an anchored email pattern. When the debounce timer fires, the picker fetches the directory and keeps the customers whose lowercased name or email starts with the lowercased search text.
- **The compose form** (`EmailForm`). On submit it rebuilds an error record with the keys subject, description and emails. Each recipient address is checked with a looser, unanchored pattern. When the record is empty, the form is submitted and subject, body and recipients are cleared; otherwise nothing is reset. Cancel clears only the recipients.

Modules:
- `Text` holds the JavaScript string primitives the code relies on:
  - the `\s` class;
  - `trim`;
  - ASCII `toLowerCase`;
  - the UTF-16 `length`.
- `Sequences` holds `filter`, specified as an order-preserving subsequence with exact multiplicities.
- `AutocompleteEmails` holds the customer list operations, the suggestion filter, the strict pattern, and the classes `SelectedCustomers` (the form-owned list plus its setter) and `Picker` (the component state).
- `EmailForm` holds the loose pattern, the `Validate` specification of the error record, and the class `ComposeForm`.

Each regular expression is modelled twice:
- as a ghost predicate that states the pattern's language by index splits (`MatchesStrictPattern`, `MatchesLoosePattern`);
- as a compiled check (`ValidEmailFormat`, `ValidEmail`).

A lemma proves that the two accept the same strings.

Each network fetch is a parameter of type `Lookup = Result<seq<Customer>, LookupFailure>`. An `async` handler is split at its `await`:
- `StartLookup` sets `loading`;
- a `Complete…` method applies the response.

Two places where the code's behaviour may be unexpected are modelled as the code does it:
- A failed suggestion fetch leaves the previous suggestions in place; it does not clear them.
- The description length rule measures the untrimmed text. Only the emptiness test uses `trim()`.

## Model

| member | source | states |
|---|---|---|
| Text.LeadingSpaces | ModalComp/src/components/EmailForm.tsx:23-24 | the whitespace prefix `trim()` removes: every counted character is `\s` and the next one is not |
| Text.TrailingSpaces | ModalComp/src/components/EmailForm.tsx:23-24 | the whitespace suffix `trim()` removes: every counted character is `\s` and the one before is not |
| Text.Trim | ModalComp/src/components/EmailForm.tsx:23-24 | `trim()` returns an infix of the input that drops only whitespace on either side and neither starts nor ends with whitespace; it is empty exactly when the input is all whitespace |
| Text.Utf16Length | ModalComp/src/components/EmailForm.tsx:24 | `length` counts UTF-16 code units: between the number of characters and twice it, and equal to it when every character is in the Basic Multilingual Plane |
| Sequences.Filter | ModalComp/src/components/AutocompleteEmails.tsx:47-50 | `filter` returns a subsequence of its input whose every element satisfies the predicate |
| Sequences.FilterCounts | ModalComp/src/components/AutocompleteEmails.tsx:47-50 | `filter` keeps every satisfying element exactly as often as it occurs and drops every other element |
| Sequences.FilterKeepsAll | ModalComp/src/components/AutocompleteEmails.tsx:71 | when every element satisfies the predicate, `filter` returns its input unchanged |
| AutocompleteEmails.AddIfAbsent | ModalComp/src/components/AutocompleteEmails.tsx:60-63 | the new selection contains the id; it is the old list when the id was already selected, and otherwise the old list with the customer appended at the end |
| AutocompleteEmails.AddIfAbsentIdempotent | ModalComp/src/components/AutocompleteEmails.tsx:60-63 | adding the same customer twice has the same effect as adding it once |
| AutocompleteEmails.AddIfAbsentKeepsIdsUnique | ModalComp/src/components/AutocompleteEmails.tsx:61-62 | adding a customer keeps the selected ids unique |
| AutocompleteEmails.RemoveId | ModalComp/src/components/AutocompleteEmails.tsx:70-72 | after removal no entry has the id; every other entry stays, in its original relative order and as often as before; the list is unchanged when the id is absent |
| AutocompleteEmails.SubsequenceMembers | ModalComp/src/components/AutocompleteEmails.tsx:71 | every entry that survives the filter was in the original list |
| AutocompleteEmails.SubsequenceKeepsIdsUnique | ModalComp/src/components/AutocompleteEmails.tsx:71 | deleting entries from a list with unique ids keeps the ids unique |
| AutocompleteEmails.RemoveIdKeepsIdsUnique | ModalComp/src/components/AutocompleteEmails.tsx:70-72 | removing a customer keeps the selected ids unique |
| AutocompleteEmails.Suggest | ModalComp/src/components/AutocompleteEmails.tsx:47-51 | the suggestions are an order-preserving subsequence of the fetched data; they contain a customer exactly when its lowercased email or name starts with the lowercased query, each as often as fetched |
| AutocompleteEmails.OccursOnce | ModalComp/src/components/AutocompleteEmails.tsx:90 | a character counted once in the string sits at a single index |
| AutocompleteEmails.TwoOccurrences | ModalComp/src/components/AutocompleteEmails.tsx:90 | a character found at two indices is counted at least twice |
| AutocompleteEmails.NoAtCount | ModalComp/src/components/AutocompleteEmails.tsx:90 | a run of `[^\s@]` holds no `@` |
| AutocompleteEmails.StrictPatternHasOneAt | ModalComp/src/components/AutocompleteEmails.tsx:90 | a match of the anchored pattern holds exactly one `@` |
| AutocompleteEmails.StrictPatternHasNoSpace | ModalComp/src/components/AutocompleteEmails.tsx:90 | a match of the anchored pattern holds no whitespace |
| AutocompleteEmails.ValidEmailFormatMatches | ModalComp/src/components/AutocompleteEmails.tsx:89-92 | a string with no whitespace, one `@` that is not first, and a later `.` that is neither the domain's first nor the string's last character, matches `^[^\s@]+@[^\s@]+\.[^\s@]+$` |
| AutocompleteEmails.StrictPatternIsValidEmailFormat | ModalComp/src/components/AutocompleteEmails.tsx:89-92 | every match of the anchored pattern has that shape |
| AutocompleteEmails.ValidEmailFormatIsStrictPattern | ModalComp/src/components/AutocompleteEmails.tsx:89-92 | `validateEmailFormat` accepts exactly the strings the anchored pattern matches |
| AutocompleteEmails.FormatError | ModalComp/src/components/AutocompleteEmails.tsx:126-130 | the format error is null exactly when the value is empty or matches the anchored pattern; otherwise it is "Must be valid email format" |
| AutocompleteEmails.SelectedCustomers.constructor | ModalComp/src/components/EmailForm.tsx:11 | the form's selected-customer list starts empty |
| AutocompleteEmails.Picker.constructor | ModalComp/src/components/AutocompleteEmails.tsx:21-27 | the picker starts with empty input, no suggestions, not loading and no error |
| AutocompleteEmails.Picker.OnChange | ModalComp/src/components/AutocompleteEmails.tsx:123-131 | a keystroke stores the value and sets the error exactly as `FormatError` says; suggestions and loading are untouched |
| AutocompleteEmails.Picker.StartLookup | ModalComp/src/components/AutocompleteEmails.tsx:43 | a fetch sets `loading` before the response arrives and changes nothing else |
| AutocompleteEmails.Picker.CompleteSuggestionLookup | ModalComp/src/components/AutocompleteEmails.tsx:46-56 | on success the suggestions become the filtered data; on failure they are unchanged; `loading` ends false either way |
| AutocompleteEmails.Picker.FetchEmails | ModalComp/src/components/AutocompleteEmails.tsx:42-57 | `fetchEmails` filters by the input current at the call; failure leaves the suggestions unchanged; it ends not loading |
| AutocompleteEmails.Picker.DebounceFire | ModalComp/src/components/AutocompleteEmails.tsx:31-36 | the timer fetches exactly when the input is non-empty; with empty input the suggestions become empty and nothing is fetched |
| AutocompleteEmails.Picker.AddCustomer | ModalComp/src/components/AutocompleteEmails.tsx:60-67 | the selection becomes `AddIfAbsent` of the old one; input, suggestions and error are reset even for a duplicate |
| AutocompleteEmails.Picker.RemoveCustomer | ModalComp/src/components/AutocompleteEmails.tsx:70-72 | the selection becomes `RemoveId` of the old one |
| AutocompleteEmails.Picker.RemoveAll | ModalComp/src/components/AutocompleteEmails.tsx:171 | the remove-all button empties the selection |
| AutocompleteEmails.Picker.CompleteLoadAll | ModalComp/src/components/AutocompleteEmails.tsx:79-85 | on success the selection is replaced by the fetched data as it is; on failure it is unchanged; `loading` ends false |
| AutocompleteEmails.Picker.LoadAllCustomers | ModalComp/src/components/AutocompleteEmails.tsx:75-86 | `loadAllCustomers` replaces the selection wholesale on success, keeps it on failure, and ends not loading |
| AutocompleteEmails.LoadAllKeepsDuplicates | ModalComp/src/components/AutocompleteEmails.tsx:80 | add-all does not keep ids unique: a directory listing one id twice leaves duplicate ids selected |
| AutocompleteEmails.RemoveAllThenLoadAll | ModalComp/src/components/AutocompleteEmails.tsx:75-86 | remove-all followed by a successful add-all yields exactly the fetched directory, in fetch order |
| EmailForm.ValidEmailMatches | ModalComp/src/components/EmailForm.tsx:50 | every string `validateEmail` accepts contains a match of `\S+@\S+\.\S+` |
| EmailForm.LoosePatternIsValidEmail | ModalComp/src/components/EmailForm.tsx:50 | every string containing a match of the loose pattern passes `validateEmail` |
| EmailForm.ValidEmailIsLoosePattern | ModalComp/src/components/EmailForm.tsx:50 | `validateEmail` accepts exactly the strings in which the unanchored pattern finds a match |
| EmailForm.StrictFormatPassesValidEmail | ModalComp/src/components/EmailForm.tsx:50 | every address the picker's strict check accepts also passes the form's check |
| EmailForm.LooseCheckAcceptsTwoAts | ModalComp/src/components/EmailForm.tsx:50 | the form's check is strictly looser: `x@y@z.w` passes it but not the strict check |
| EmailForm.ValidateRules | ModalComp/src/components/EmailForm.tsx:22-29 | the error record's keys are among subject, description and emails; subject is set exactly when the trimmed subject is empty; description is set exactly when the trimmed body is empty or the untrimmed body has fewer than 10 code units; emails is "at least one recipient" exactly when the list is empty, and "invalid email" exactly when the list is non-empty and some address fails `validateEmail`; each key carries its message |
| EmailForm.ValidateEmptyExactly | ModalComp/src/components/EmailForm.tsx:22-31 | the record is empty, so submit goes through, exactly when every rule passes |
| EmailForm.EverythingMissingFailsAllRules | ModalComp/src/components/EmailForm.tsx:22-29 | an empty subject, a short body and no recipients give all three errors with their messages |
| EmailForm.CompleteFormPasses | ModalComp/src/components/EmailForm.tsx:22-31 | a subject, a ten-character body and one well-formed address give an empty record |
| EmailForm.PaddedShortDescriptionPasses | ModalComp/src/components/EmailForm.tsx:24 | a body padded to ten characters passes the length rule although its trimmed text is shorter than ten |
| EmailForm.ComposeForm.constructor | ModalComp/src/components/EmailForm.tsx:9-14 | the form starts with empty subject, body, errors and selection, and a picker over that selection |
| EmailForm.ComposeForm.Submit | ModalComp/src/components/EmailForm.tsx:20-47 | the errors become the freshly built record; submit succeeds exactly when it is empty; success clears subject, body and recipients; failure leaves all three unchanged |
| EmailForm.ComposeForm.Cancel | ModalComp/src/components/EmailForm.tsx:110 | Cancel empties the selection and leaves subject, body and errors unchanged |
| EmailForm.FormatErrorDoesNotBlockLookup | ModalComp/src/components/AutocompleteEmails.tsx:30-39 | typing text that is not an address shows the format error, and the lookup still runs and shows the matches for that text |

## Left out

- The HTTP `fetch` and `res.json()` calls are foreign I/O. Each fetch is a `Lookup` parameter, and a failed request or a failed JSON decode is a `Failure`.
- The `setTimeout`/`clearTimeout` timing is not modelled. `Picker.DebounceFire` models the timer firing. Overlapping fetches, stale responses and the cleanup on unmount are event-loop concurrency and are left out. The code has no guard for them, so no "latest input wins" property is stated.
- `Text.Lower`: `toLowerCase` is modelled on the ASCII letters only; other characters keep their case.
- `AutocompleteEmails.Customer`: ids are JavaScript numbers and are modelled as `int`. The comparison `===` on them is equality of integers.
- Recipients are selected and compared by id, as in the code. The model does not constrain names or emails beyond the loose check at submit.
- `scrollIntoView`, `alert`, `console.log`/`console.error`, the spinner, the `disabled` state of the add-all button and all JSX layout are UI side effects.
- The subject and body `onChange` setters are plain field assignments to `ComposeForm.subject` and `ComposeForm.description`. They have no logic to model.
- App.tsx and Modal.tsx are not part of this model. They only open and close a dialog.
