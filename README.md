# UkrgoParser `Index` page — a Dafny model

UkrgoParser's Blazor client has one page, `Index`, that drives a lead scrape.
It fetches the post links of a source page. For each post it asks the backend
for the phone number and checks that number against a blacklist. It collects
the unique, allowed numbers, together with their post and the contact name
found in a contact directory. The user can then block a number, which removes
its row, or rename a contact. The page also builds a Viber deep link for a
number.

This project models that page with the answers of its HTTP requests (the
contact directory, the scrape requests and the block request) passed in as
parameters; the contact upsert of `EditContact` is assumed to succeed:

- `entities.dfy` (module `Entities`): contacts, post links, result entries,
  and the phone-number searches the page does (`FirstOrDefault`, `All` and
  `FindIndex`).
- `scrape.dfy` (module `Scrape`): `Run`, the state after the scrape loop has
  handled a sequence of candidates. Each candidate is a post link plus the
  outcome of its requests: a 404, another failure, or a phone number with its
  blacklist verdict. The lemmas state what the loop guarantees.
- `result_edits.dfy` (module `ResultEdits`): the list edits behind blocking
  (`RemoveAt`) and renaming (`RenameAt`), with their lemmas.
- `viber.dfy` (module `Viber`): `GetViberUrl` and the trimming it uses.
- `index_page.dfy` (module `IndexPage`): the class `Index` with the fields
  `url`, `postLinks` and `progressSteps`. Its three handlers `Process`,
  `BlockPhoneNumber` and `EditContact` update those fields in place. Each
  handler is proved against the functions above. `Valid()` (unique, non-empty
  phone numbers) is established by `Process` and preserved by the other two.

The progress bar is a `double` that grows by `1/n` per candidate. The model
counts the steps instead (`progressSteps`). With no candidates, the loop body
never runs, so progress stays at 0. The model follows the code here: it does
not treat an empty run as complete (1.0).

## Model

| member | source | states |
|---|---|---|
| `Entities.IndexOfPhone` | UkrgoParser/Client/Pages/Index.razor.cs:126 | `FindIndex` by phone returns the index of the first entry carrying the number, or -1 exactly when no entry carries it |
| `Entities.FirstContactIndex` | UkrgoParser/Client/Pages/Index.razor.cs:80 | the directory search stops at the first contact with the number; no earlier contact has it |
| `Entities.LookupName` | UkrgoParser/Client/Pages/Index.razor.cs:80 | the name is null when the directory is null or has no contact with the number; otherwise it is the name of a contact that has the number |
| `Entities.LookupNameIsFirstMatch` | UkrgoParser/Client/Pages/Index.razor.cs:80 | the name taken is that of the first contact with the number, whatever later contacts say |
| `Scrape.FirstFailure` | UkrgoParser/Client/Pages/Index.razor.cs:88-97 | index of the first candidate whose requests fail with a non-404 error (or the count of candidates); no earlier candidate failed that way |
| `Scrape.RunProgress` | UkrgoParser/Client/Pages/Index.razor.cs:54-100 | before the first non-404 failure, k handled candidates give exactly k progress steps: added, empty, rejected and 404 candidates alike |
| `Scrape.CleanRun` | UkrgoParser/Client/Pages/Index.razor.cs:55-101 | with no non-404 failure the loop does not abort and the progress count equals the number of candidates (0 for none) |
| `Scrape.RunStopsAfterAbort` | UkrgoParser/Client/Pages/Index.razor.cs:91-96 | once the loop has aborted, later candidates change nothing |
| `Scrape.RunAbort` | UkrgoParser/Client/Pages/Index.razor.cs:91-96 | a non-404 failure on candidate k resets progress to 0 and keeps the entries appended before k; the outcome depends on candidates 0..k only |
| `Scrape.RunAbortedIff` | UkrgoParser/Client/Pages/Index.razor.cs:88-97 | the run ends in the error state if and only if some candidate failed with a non-404 error |
| `Scrape.RunAppendOnly` | UkrgoParser/Client/Pages/Index.razor.cs:48-84 | the result list only grows: the list after i candidates is a prefix of the list after j >= i |
| `Scrape.RunWellFormed` | UkrgoParser/Client/Pages/Index.razor.cs:61-84 | whether the run finished or aborted, no two entries share a phone number and none is empty |
| `Scrape.RunEntriesFromCandidates` | UkrgoParser/Client/Pages/Index.razor.cs:69-83 | each entry comes from its own candidate, in candidate order and before any abort. That candidate had a non-empty, not-blacklisted number. The entry copies the candidate's Uri and Caption, and its name is the directory lookup for that number |
| `Scrape.RunAcceptedArePresent` | UkrgoParser/Client/Pages/Index.razor.cs:61-84 | every candidate handled before any abort with a non-empty, not-blacklisted number has that number in the result list |
| `ResultEdits.RemoveAt` | UkrgoParser/Client/Pages/Index.razor.cs:126 | `RemoveAt(k)` drops entry k and keeps the others in order; the multiset loses exactly that entry |
| `ResultEdits.RenameAt` | UkrgoParser/Client/Pages/Index.razor.cs:174 | only the name of entry k changes; its phone and link stay, and every other entry is untouched |
| `ResultEdits.BlockRemovesOnlyThatPhone` | UkrgoParser/Client/Pages/Index.razor.cs:124-127 | blocking a number in a well-formed list removes that number, keeps every other number and keeps the list well-formed |
| `ResultEdits.RenameKeepsPhones` | UkrgoParser/Client/Pages/Index.razor.cs:159-175 | renaming keeps all phone numbers and links, keeps the list well-formed, and leaves every phone search's answer unchanged |
| `IndexPage.Index.constructor` | UkrgoParser/Client/Pages/Index.razor.cs:26-28 | a new page has an empty result list and zero progress |
| `IndexPage.Index.Process` | UkrgoParser/Client/Pages/Index.razor.cs:46-102 | the loop clears the list and leaves exactly the list, progress and error flag of `Run`; the list it leaves is well-formed; the url is unchanged |
| `IndexPage.Index.BlockPhoneNumber` | UkrgoParser/Client/Pages/Index.razor.cs:118-133 | a failure response leaves the list unchanged. On success the first entry with the number is removed and the other entries stay in order. If no entry has the number, `RemoveAt(-1)` throws and the list is unchanged. Well-formedness is preserved |
| `IndexPage.Index.EditContact` | UkrgoParser/Client/Pages/Index.razor.cs:157-178 | a cancelled dialog changes nothing. Otherwise only the name of the first entry with the number is replaced, by the dialog's name. Phones, links and all other entries are kept, and well-formedness is preserved |
| `Viber.SkipWhiteSpace` | UkrgoParser/Client/Pages/Index.razor.cs:195 | the scan from the front stops at the first character that is not white space (or the end); everything it passes is white space |
| `Viber.SkipWhiteSpaceBack` | UkrgoParser/Client/Pages/Index.razor.cs:195 | the scan from the back stops after the last character that is not white space, never before its lower bound; everything it passes is white space |
| `Viber.Trim` | UkrgoParser/Client/Pages/Index.razor.cs:195 | the result is an infix of the input surrounded only by white space, and it neither starts nor ends with white space |
| `Viber.TrimIsUnique` | UkrgoParser/Client/Pages/Index.razor.cs:195 | any non-empty infix with only white space around it and none at its own ends is exactly what trimming returns |
| `Viber.TrimAllWhiteSpace` | UkrgoParser/Client/Pages/Index.razor.cs:195 | a string of white space only trims to the empty string |
| `Viber.TrimNotAllWhiteSpace` | UkrgoParser/Client/Pages/Index.razor.cs:195 | a string with a character that is not white space trims to a non-empty string |
| `Viber.GetViberUrl` | UkrgoParser/Client/Pages/Index.razor.cs:207 | the link always starts with `viber://chat?number=` |
| `Viber.FullPhoneNumberCases` | UkrgoParser/Client/Pages/Index.razor.cs:196-206 | after trimming, a leading `+` is dropped and a leading `0` becomes `380`; anything else passes unchanged, and the two rules never both apply |
| `Viber.InternationalAndNationalAgree` | UkrgoParser/Client/Pages/Index.razor.cs:197-206 | `+380…` and `0…` spellings of the same subscriber number normalise to the same `380…` |
| `Viber.FullPhoneNumberDigits` | UkrgoParser/Client/Pages/Index.razor.cs:199-206 | a digit string (optionally with a leading `+`) normalises to a digit string: one shorter with `+`, two longer with `0`, the same length otherwise |
| `Viber.TrimIgnoresPadding` | UkrgoParser/Client/Pages/Index.razor.cs:195 | trimming ignores any white space added at either end |
| `Viber.ViberUrlIgnoresPadding` | UkrgoParser/Client/Pages/Index.razor.cs:193-207 | white space around the number never changes the link |
| `Viber.TrimUnpadded` | UkrgoParser/Client/Pages/Index.razor.cs:195 | a number with no white space at either end is left as it is |
| `Viber.ViberUrlUnpadded` | UkrgoParser/Client/Pages/Index.razor.cs:193-207 | for a number with no white space at either end, the link is the chat prefix plus the number without a leading `+`, with a leading `0` replaced by `380`, or unchanged otherwise |
| `Viber.ViberUrlInternationalExample` | UkrgoParser/Client/Pages/Index.razor.cs:199-207 | `+380991234567` gives `viber://chat?number=380991234567` |
| `Viber.ViberUrlNationalExample` | UkrgoParser/Client/Pages/Index.razor.cs:203-207 | `0991234567` gives `viber://chat?number=380991234567` |
| `Viber.ViberUrlBareExample` | UkrgoParser/Client/Pages/Index.razor.cs:196-207 | `991234567` passes through: `viber://chat?number=991234567` |

## Left out

- HTTP requests: the contact directory, the post-link list, the phone and blacklist checks and the block request are all parameters. The post-link list's own request failing, a null post-link list, and the contact upsert (`api/contact`) are not modelled; the upsert is taken to succeed.
- `Task.Delay(300)` throttling and `StateHasChanged` re-rendering: timing and rendering only.
- Progress as a `double`: modelled as an integer count of `1/n` steps, so floating-point rounding is not modelled.
- `Convert.ToBoolean` of the blacklist reply: the verdict is a `bool` parameter. A reply that is not a boolean would throw an uncaught `FormatException`; that path is not modelled.
- Local storage: restoring on start (`OnInitializedAsync`), `SaveData` and `SaveContact` are browser-storage I/O. A quirk worth noting: `SaveContact` finds the contact in the stored copy and renames it there. It then writes the in-memory list rather than that stored copy.
- Before the first run or restore, `PostLinks` is null in the page, and blocking or editing would throw a null reference. The model starts with an empty list.
- `CopyPhoneNumber`, `ShowPostDetails`, toasts and dialog rendering: UI only. Toasts appear only as the results of `Process` (`failed`), `BlockPhoneNumber` and `EditContact` (`renamed`).
- Index.EditContact: entries are values. The in-place `Name` assignment on the shared `Contact` object is a sequence update at the first matching index. The dialog receives that same object; the contact dialog is not part of this model, so any change it makes through that reference is not modelled. The list could also change while the dialog is open; that interleaving is not modelled either.
- Viber.Trim: `string.Trim` removes every Unicode white-space character. The model removes space, tab, line feed, vertical tab, form feed, carriage return and no-break space.
- Viber.FullPhoneNumber: `StartsWith(string)` compares using the current culture. The model tests the first character exactly (an ordinal comparison).
- Exception paths that end a handler early: the contact-directory request (Index.razor.cs:51) can fail after line 48 has already replaced `PostLinks` with an empty list. An exception other than `HttpRequestException` from the phone or blacklist request (lines 60 and 67; for example the `TaskCanceledException` of an HttpClient timeout) is not caught at line 88. The loop then stops with the entries and progress as they were, with no reset to 0 and no toast; `Outcome` has no case for it. `PostAsJsonAsync` in `BlockPhoneNumber` (line 120) can throw on a transport failure, leaving the list unchanged with no toast; the model can report only `Refused`, the error-toast case. The upsert in `EditContact` (line 171) can throw likewise, leaving the list unrenamed with no toast; the model always renames when the dialog returns a contact for a number in the list.
- Concurrency between a running scrape and a block or edit is not modelled; the handlers are run one at a time.
