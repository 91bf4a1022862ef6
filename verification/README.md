# CraftStudio web client — error handling and page logic in Dafny

This project models the client-side core of the CraftStudio service web
client, a React single-page application for managing writing projects,
novels and workflows. It covers:

- **The error taxonomy** (`src/api/errorCodes.ts`): numeric codes grouped by range into business (1000–4999), auth (2000–2999) and system (5000 and up) errors, their messages, the mapping from HTTP statuses, and the `ApiError` shape with its display text.
- **The error-state hook** (`src/hooks/useErrorHandler.ts`): a single error slot that `handleError` and `showError` overwrite and `clearError` empties, and the `executeAsync` wrapper that runs an operation under that protocol.
- **The request client's interceptors** (`src/api/request.ts`): the bearer token on outgoing requests, the check of the `code` field of the response envelope, and the 401 redirect.
- **The error display** (`src/components/ErrorDisplay.tsx`): severity and icon by code range, which optional parts are shown, and the error boundary's fallback.
- **The page logic**:
  - the project form and the projects list;
  - the novel list and the novel form, with their tag handling;
  - the workflows list;
  - the chapter editor;
  - the novel vocabulary (`novel.define.ts`) and the API base URL (`config.ts`).

Each handler is a pure function from the old state (and whatever the
outside world supplied: the clock reading, the stored token, how a network
call settled) to the new state and the callbacks it made. Thrown JavaScript
values are the datatype `Exceptions.Thrown`:

- an object with a `code` key;
- an `Error` with a message and a stack;
- any other value, with its string form.

Modules, one per source file plus shared helpers:

| module | models |
|---|---|
| `Wrappers` | `undefined`/`null` as `Option`, settled promises |
| `Text` | `trim`, `toLowerCase`, `includes`, `split`/`join` on strings |
| `Lists` | filtering, removal, duplicate-freedom on sequences |
| `ErrorCodes` | `src/api/errorCodes.ts` |
| `Exceptions` | the thrown values the handlers inspect |
| `ErrorHandler` | `src/hooks/useErrorHandler.ts` |
| `Request` | `src/api/request.ts` |
| `ErrorDisplay` | `src/components/ErrorDisplay.tsx` |
| `Selection` | the row selection shared by the three list pages |
| `ProjectForm` | `src/components/ProjectForm.tsx` |
| `Projects` | `src/pages/Projects.tsx` |
| `NovelDefine` | `src/api/novel.define.ts` |
| `NovelWorks` | `src/components/NovelWorks/NovelWorks.tsx` |
| `NovelForm` | `src/components/NovelForm.tsx` |
| `Workflows` | `src/pages/Workflows.tsx` |
| `CreateChapter` | `src/pages/CreateChapter.tsx` |
| `Config` | `src/api/config.ts` |

## Model

| member | source | states |
|---|---|---|
| ErrorCodes.CatalogueDistinct | src/api/errorCodes.ts:2-57 | the catalogue's 43 codes are pairwise distinct |
| ErrorCodes.CatalogueCodesHaveMessages | src/api/errorCodes.ts:63-117 | every catalogue code has a message entry |
| ErrorCodes.MessagesOnlyForCatalogueCodes | src/api/errorCodes.ts:63-117 | the message table has no entry for a code outside the catalogue |
| ErrorCodes.MessageOf | src/api/errorCodes.ts:63-117 | no message in the table is empty, and UNKNOWN_ERROR's message is '未知错误' |
| ErrorCodes.GetErrorMessage | src/api/errorCodes.ts:133-135 | the table entry for a listed code, the unknown-error message for every other code; never empty |
| ErrorCodes.CodeFromHttpStatus | src/api/errorCodes.ts:152-181 | the identity on the twelve listed HTTP statuses, 1000 for every other integer; the result always has a message |
| ErrorCodes.IsBusiness | src/api/errorCodes.ts:186-188 | every generic, authentication and project code of the catalogue is a business error, and no system code is |
| ErrorCodes.IsSystem | src/api/errorCodes.ts:193-195 | among the catalogue's codes, exactly the system codes are system errors; a system error is never a business error |
| ErrorCodes.IsAuth | src/api/errorCodes.ts:200-202 | among the catalogue's codes, exactly the authentication codes are auth errors; each is also a business error |
| ErrorCodes.AuthIsBusiness | src/api/errorCodes.ts:186-202 | an auth code is also a business code (2001 is both) |
| ErrorCodes.BusinessSystemPartition | src/api/errorCodes.ts:186-195 | business and system never overlap and together cover every code from 1000 up; codes below 1000 are in no class |
| ErrorCodes.SuccessAndHttpUnclassified | src/api/errorCodes.ts:4-56 | SUCCESS and every HTTP_* code fall in none of the three classes |
| ErrorCodes.CatalogueRanges | src/api/errorCodes.ts:2-57 | the grouping of the declaration agrees with the range predicates |
| ErrorCodes.CreateApiError | src/api/errorCodes.ts:140-147 | the code and details as given, the catalogue message (or the unknown-error message), the timestamp |
| ErrorCodes.FormatErrorForDisplay | src/api/errorCodes.ts:207-212 | starts with the message, and is exactly the message iff there are no non-empty details |
| ErrorCodes.FormatRecoversDetails | src/api/errorCodes.ts:207-212 | with details, the text after the message is ": " followed by exactly the details |
| ErrorHandler.EmptyIsConsistent | src/hooks/useErrorHandler.ts:28-32 | the initial state shows nothing and satisfies the state invariant |
| ErrorHandler.Normalize | src/hooks/useErrorHandler.ts:40-51 | a value with a code is kept unchanged; an Error becomes code 1000 with its own message and stack; anything else becomes code 1000 with '未知错误' and its string form |
| ErrorHandler.HandleError | src/hooks/useErrorHandler.ts:35-66 | the slot holds the normalised error, with hasError set and the formatted text as message (the invariant) |
| ErrorHandler.ClearError | src/hooks/useErrorHandler.ts:69-75 | the empty state whatever came before |
| ErrorHandler.ClearErrorIdempotent | src/hooks/useErrorHandler.ts:69-75 | clearing twice equals clearing once |
| ErrorHandler.ShowError | src/hooks/useErrorHandler.ts:78-90 | the given code (default 1000) and message, no details, display text equal to the message, invariant kept |
| ErrorHandler.IsBusinessError | src/hooks/useErrorHandler.ts:93-95 | a business error is neither a success nor a system error, and every auth error is one |
| ErrorHandler.IsSystemError | src/hooks/useErrorHandler.ts:98-100 | a system error is never a business error, and every catalogue system code is one |
| ErrorHandler.IsAuthError | src/hooks/useErrorHandler.ts:103-105 | an auth error is also a business error, and every catalogue authentication code is one |
| ErrorHandler.NormalizedClass | src/hooks/useErrorHandler.ts:35-51 | an error the hook builds itself is a business error that is neither auth nor system; a value that carries a code keeps its own class |
| ErrorHandler.ExecuteAsync | src/hooks/useErrorHandler.ts:125-144 | resolves to the value iff nothing was caught, and then the state is empty; on a throw (also from onSuccess) the state is handleError of the caught value; rejects iff something was caught and onError throws, with what onError threw; onSuccess first, onError last with the raw value |
| ErrorHandler.ExecuteAsyncCallbacks | src/hooks/useErrorHandler.ts:133-141 | onSuccess is called with the result whenever supplied and reached; onError with the caught value whenever supplied and something was caught |
| ErrorHandler.ExecuteAsyncRejectsOnlyThroughOnError | src/hooks/useErrorHandler.ts:137-143 | without a throwing onError the promise never rejects; a throwing onError leaves the same error state, since handleError runs first |
| ErrorHandler.ExecuteAsyncForgetsPriorState | src/hooks/useErrorHandler.ts:130-131 | the outcome does not depend on the state before the call, because the error is cleared first |
| Request.RequestInterceptor | src/api/request.ts:15-27 | a rejection passes unchanged; with a non-empty token the Authorization header is "Bearer " followed by the token and no other header changes; otherwise the config is unchanged |
| Request.RequestInterceptorIdempotent | src/api/request.ts:15-27 | running the interceptor again with the same token changes nothing, and dropping Authorization from its output gives back the incoming headers without it |
| Request.RejectionMessage | src/api/request.ts:38 | the server's msg when non-empty, otherwise '请求失败' |
| Request.ResponseInterceptor | src/api/request.ts:30-39 | the response is delivered unchanged iff its code is 1, otherwise rejected with an Error carrying the rejection message |
| Request.DeliveredResponsesSucceeded | src/api/request.ts:31-36 | every delivered response carries the success code |
| Request.BusinessFailureReachesController | src/api/request.ts:37-38 | a business failure reaches a page's handleError as code 1000 with the rejection message and the stack as details |
| Request.ErrorInterceptor | src/api/request.ts:40-65 | the error is re-rejected unchanged; a redirect to /login happens iff there is a response with status 401 |
| Request.RedirectMatchesTaxonomy | src/api/request.ts:40-65 | a redirect happens iff the answered status maps to the unauthorized code of the error catalogue; re-running the branch on its own rejection decides the same |
| Request.OnlyUnauthorizedRedirects | src/api/request.ts:42-63 | no response, or status 403, 404 or 500, never redirects |
| ErrorDisplay.SeverityFor | src/components/ErrorDisplay.tsx:40-50 | error for system codes, warning for auth codes, info for the other business codes, the severity prop below 1000 |
| ErrorDisplay.IconFor | src/components/ErrorDisplay.tsx:53-58 | the icon by the same cascade, the generic icon below 1000 |
| ErrorDisplay.IconMatchesSeverity | src/components/ErrorDisplay.tsx:45-58 | the icon and the severity pick the same class of code: generic icon iff the prop decides the severity, auth icon iff warning, system icon iff error |
| ErrorDisplay.CatalogueSeverities | src/components/ErrorDisplay.tsx:40-58 | HTTP codes use the prop; TOKEN_EXPIRED is a warning, PROJECT_NOT_FOUND info, RATE_LIMIT_EXCEEDED an error, UNKNOWN_ERROR info |
| ErrorDisplay.Render | src/components/ErrorDisplay.tsx:28-163 | nothing iff there is no error; the details section iff showDetails and details are non-empty; the time iff there is a timestamp; a retry button iff onRetry is given; a close button iff onClose is given and the variant is the card, since the alert always supplies its own action area and so shows no close icon |
| ErrorDisplay.OnlyCardCloses | src/components/ErrorDisplay.tsx:96-143 | an alert never shows a close control; a card shows one iff onClose is given |
| ErrorDisplay.SeverityPropIsFallback | src/components/ErrorDisplay.tsx:45-50 | for codes from 1000 up the severity prop has no effect on what is rendered |
| ErrorDisplay.DerivedStateFromError | src/components/ErrorDisplay.tsx:178-180 | a caught error sets hasError and stores the error |
| ErrorDisplay.BoundaryError | src/components/ErrorDisplay.tsx:196-200 | code 1000, the error's message or '组件渲染错误', its stack as details, the render time |
| ErrorDisplay.StackOf | src/components/ErrorDisplay.tsx:198 | only an `Error` object yields a stack, and then exactly its own (possibly missing) stack |
| ErrorDisplay.BoundaryRender | src/components/ErrorDisplay.tsx:186-206 | the children iff no error; the custom fallback with the stored error iff one is given; otherwise the error display with details shown |
| ErrorDisplay.BoundaryShowsInfo | src/components/ErrorDisplay.tsx:186-206 | a caught render error is shown as an info-severity unknown error with its stack |
| ErrorDisplay.BoundaryInitialRendersChildren | src/components/ErrorDisplay.tsx:174-176 | a fresh boundary renders its children |
| Selection.Toggle | src/pages/Projects.tsx:303-309 | the id flips membership and no other id changes; an absent id is appended at the end; removing a present id keeps the other ids in their order, each with its multiplicity |
| Selection.ToggleTwiceAbsent | src/pages/Workflows.tsx:123-129 | toggling an unselected id twice restores the selection exactly |
| Selection.ToggleTwicePresent | src/components/NovelWorks/NovelWorks.tsx:185-191 | toggling a selected id twice keeps the same ids and length, with that id moved to the end |
| Selection.ToggleNoDup | src/pages/Projects.tsx:303-309 | toggling keeps the selection free of duplicates |
| Selection.SelectAll | src/pages/Projects.tsx:294-300 | checking selects exactly the shown ids, as many as are shown and duplicate-free when they are; unchecking selects nothing |
| Selection.Header | src/pages/Projects.tsx:527-528 | indeterminate iff the number of selected ids is non-zero and below the number of shown rows; checked iff it is non-zero and equal to it; so never both, and neither for an empty selection |
| Selection.HeaderOf | src/pages/Workflows.tsx:195-196 | the header from the selection's length and the number of shown rows, whichever ids are selected |
| Selection.StaleSelectionChecksHeader | src/pages/Projects.tsx:527-528 | rows a and b selected while rows c and d are shown reads as "all selected"; the intended header shows neither state |
| Selection.HeaderIntended | src/components/NovelWorks/NovelWorks.tsx:287-288 | the corrected header: checked iff some row is shown and every shown row is selected; indeterminate iff some but not every shown row is selected |
| Selection.SelectAllHeaderIntended | src/pages/Projects.tsx:294-300 | after select-all or select-none the corrected header equals the one the pages compute |
| Selection.NovelHeaderAgrees | src/components/NovelWorks/NovelWorks.tsx:287-288 | NovelWorks' header formula (testing the list length) equals the other pages' formula on every input |
| Selection.SelectAllHeader | src/pages/Workflows.tsx:115-121 | after select-all the header is checked iff some row is shown; after select-none it shows neither state |
| ProjectForm.NameFieldCodes | src/components/ProjectForm.tsx:75-81 | the name-field codes are exactly 3001, 3002 and 1009, all catalogue business codes and none an auth code |
| ProjectForm.NameFieldError | src/components/ProjectForm.tsx:83 | the local error exactly when its code is 3001, 3002 or 1009 |
| ProjectForm.GeneralError | src/components/ProjectForm.tsx:84 | the local error exactly when its code is none of 3001, 3002 and 1009 |
| ProjectForm.ErrorShownOnce | src/components/ProjectForm.tsx:83-84 | a local error is shown in exactly one of the name field and the general alert, and nothing is shown without one |
| ProjectForm.DescriptionColor | src/components/ProjectForm.tsx:122-127 | error iff over 250 characters, warning iff 201 to 250, success iff at most 200 |
| ProjectForm.DescriptionColorMonotone | src/components/ProjectForm.tsx:122-127 | a longer description never gets a calmer colour |
| ProjectForm.HandleChange | src/components/ProjectForm.tsx:86-93 | only the edited field changes; the local error is dropped; onClearError is called iff there was an error and the callback is given |
| ProjectForm.FieldInput | src/components/ProjectForm.tsx:274-278 | a description over 300 characters changes nothing; every other input goes through handleChange |
| ProjectForm.ApplyEdits | src/components/ProjectForm.tsx:86-93 | any series of edits keeps a description within 300 characters, calls onClearError at most once and only if an error was shown |
| ProjectForm.SubmitEnabled | src/components/ProjectForm.tsx:368 | enabled iff not loading and the name is not all whitespace |
| ProjectForm.SubmitFailure | src/components/ProjectForm.tsx:101-105 | nothing for a null or undefined rejection, whose `code` read throws inside the catch; otherwise the thrown value's code unless missing or 0 (then 1000), its message unless missing or empty (then '提交失败，请稍后重试'), no details |
| ProjectForm.HandleSubmit | src/components/ProjectForm.tsx:95-108 | the form never changes; success leaves the state; a null or undefined rejection leaves the state, because the catch clause itself throws; any other rejection becomes the local error |
| ProjectForm.SubmitErrorRouting | src/components/ProjectForm.tsx:75-108 | a rejection with a name-field code shows under the name field; a plain Error goes to the general alert as code 1000; a null or undefined rejection is shown nowhere |
| ProjectForm.HandleClose | src/components/ProjectForm.tsx:110-115 | empty fields, no error, onClearError (if given) and then onClose |
| ProjectForm.HandleClearError | src/components/ProjectForm.tsx:117-120 | the error is dropped, the form kept, onClearError called iff given |
| ProjectForm.HandleCloseIdempotent | src/components/ProjectForm.tsx:110-115 | a second close gives the same state and callbacks and shows no error |
| ProjectForm.SyncProject | src/components/ProjectForm.tsx:55-61 | an edited project fills the form, otherwise the form is emptied; the error is untouched |
| ProjectForm.SyncError | src/components/ProjectForm.tsx:64-66 | the parent's error replaces the local one |
| ProjectForm.SyncOpen | src/components/ProjectForm.tsx:69-73 | closing drops the local error; opening changes nothing |
| ProjectForm.ParentErrorLifecycle | src/components/ProjectForm.tsx:64-93 | a parent error is dropped when the dialog closes, and cleared by the next edit |
| Projects.MatchesSearch | src/pages/Projects.tsx:107-108 | the empty term matches every row, and a term equal to the name up to ASCII case matches it |
| Projects.MatchesFilter | src/pages/Projects.tsx:109-111 | only the three menu values match anything; under "active" a row matches iff its chip reads '进行中', under "completed" iff its chip is the success colour |
| Projects.FilteredProjects | src/pages/Projects.tsx:106-113 | a row is shown iff it matches search and filter; rows keep their order |
| Projects.FilterExtremes | src/pages/Projects.tsx:106-113 | the empty term with "all" shows the whole list; an unknown filter shows nothing |
| Projects.FilterByStatus | src/pages/Projects.tsx:109-111 | "active" shows only status 1, "completed" only status 2, and both are contained in "all" |
| Projects.SearchIgnoresCase | src/pages/Projects.tsx:107-108 | searching a term and its lower-case form shows the same rows |
| Projects.StatusChip | src/pages/Projects.tsx:577-579 | '进行中' iff status 1, '已完成' otherwise, success colour iff status 2 |
| Projects.ChipAgreesWithFilter | src/pages/Projects.tsx:109-111 | on a row the search shows, the '进行中' caption holds iff the "active" filter shows the row, and the success colour iff the "completed" filter does; a '已完成' chip without the success colour is exactly a row no named filter shows |
| Projects.HandleEnvelope | src/pages/Projects.tsx:83-92 | success iff code 1, leaving the state; otherwise the error slot gets the server's code and msg, or the page's fallback message |
| Projects.EnvelopeBranchUnreachable | src/pages/Projects.tsx:83-92 | behind the response interceptor every envelope a page sees has the success code |
| Projects.ResolvedRun | src/pages/Projects.tsx:276-278 | the number of deletions that resolve before the first rejection |
| Projects.BatchDelete | src/pages/Projects.tsx:268-291 | nothing for an empty selection; otherwise sequential deletes stopping at the first rejection; full success empties the selection, reports the count and refetches; a rejection goes to the error slot and keeps the selection |
| Projects.BatchDeleteOnlySelected | src/pages/Projects.tsx:276-278 | only selected ids are deleted, and every call before the last resolved |
| NovelDefine.ParseStatus | src/api/novel.define.ts:2-8 | a string names a status iff it is one of the five values, and parsing inverts the value |
| NovelDefine.StatusValuesDistinct | src/api/novel.define.ts:2-8 | the five status values are distinct and each round-trips |
| NovelDefine.FromEntries | src/api/novel.define.ts:109 | the keys are exactly the entries' keys, each mapped to the value of its last entry |
| NovelDefine.FromEntriesSize | src/api/novel.define.ts:109 | with distinct keys the map has one key per entry |
| NovelDefine.CategoryLabelsTable | src/api/novel.define.ts:96-109 | CATEGORY_LABELS maps each of the nine categories to its label and has no other key |
| NovelDefine.TagLabelsTable | src/api/novel.define.ts:112-121 | TAG_LABELS maps each of the five preset tags to its label and has no other key |
| NovelWorks.SplitTags | src/components/NovelWorks/NovelWorks.tsx:123 | the tags are non-empty, free of separators, and in order among the pieces of the text |
| NovelWorks.SplitTagsKeepsContent | src/components/NovelWorks/NovelWorks.tsx:123 | the tags glued together are the text with its separators removed |
| NovelWorks.SplitTagsInvertsJoin | src/components/NovelWorks/NovelWorks.tsx:123 | separator-free non-empty tags joined with ',' split back into the same tags |
| NovelWorks.NormalizeTags | src/components/NovelWorks/NovelWorks.tsx:122-124 | text is split, an array kept, anything else becomes [] |
| NovelWorks.NormalizeStatus | src/components/NovelWorks/NovelWorks.tsx:125-127 | a known status value is kept, anything else becomes draft |
| NovelWorks.NormalizeStatusIdempotent | src/components/NovelWorks/NovelWorks.tsx:125-127 | the result is a status value, a status value is unchanged, normalising twice equals once |
| NovelWorks.MapItem | src/components/NovelWorks/NovelWorks.tsx:117-137 | each field is the item's, or '' / 0 when missing; cover from cover_image, chapters from total_chapters |
| NovelWorks.MapItemRoundTrip | src/components/NovelWorks/NovelWorks.tsx:117-137 | a novel written back as a complete item maps to itself |
| NovelWorks.ListTotal | src/components/NovelWorks/NovelWorks.tsx:138 | the sent total unless missing or 0, then the list length |
| NovelWorks.ApplyList | src/components/NovelWorks/NovelWorks.tsx:114-143 | a list that is not an array shows no novels; otherwise every item is mapped in order and the total falls back to the list length; every status is a valid value; a success envelope without `data` shows no novels, keeps the previous total and hands the resulting `TypeError` to `handleError` |
| NovelWorks.OrUndefined | src/components/NovelWorks/NovelWorks.tsx:103-111 | an empty string is left out, any other kept |
| NovelWorks.Params | src/components/NovelWorks/NovelWorks.tsx:103-111 | page and size as given; each filter sent iff non-empty, and a sent filter is exactly its non-empty input |
| NovelWorks.GetStatusInfo | src/components/NovelWorks/NovelWorks.tsx:252-267 | '未知' iff the value is not a status, in the default colour; primary iff publishing, success iff completed, warning iff paused, error iff deleted |
| NovelWorks.StatusInfoDistinct | src/components/NovelWorks/NovelWorks.tsx:252-267 | distinct statuses have distinct labels; a mapped item never shows '未知' |
| NovelWorks.CardTags | src/components/NovelWorks/NovelWorks.tsx:424-431 | no chips for no tags; the first three tags, and a "+n" chip iff there are more |
| NovelWorks.CardTagsAccountForAll | src/components/NovelWorks/NovelWorks.tsx:424-431 | shown chips plus the "+n" count equal the number of tags |
| NovelWorks.HandleDelete | src/components/NovelWorks/NovelWorks.tsx:194-197 | remembers the novel and opens the dialog; nothing else changes |
| NovelWorks.CancelDelete | src/components/NovelWorks/NovelWorks.tsx:615-623 | closes the dialog and keeps the remembered novel |
| NovelWorks.BatchDelete | src/components/NovelWorks/NovelWorks.tsx:219-234 | nothing for an empty selection; otherwise the selection is sent in one call; success empties the selection, reports the count and refetches; a rejection goes to handleError and keeps the selection |
| NovelWorks.ConfirmDelete | src/components/NovelWorks/NovelWorks.tsx:199-216 | nothing without a target; otherwise exactly the target is sent, the dialog closes and the target is forgotten either way, success refetches, a rejection goes to handleError; the selection is untouched |
| NovelWorks.DeletesOnlyChosen | src/components/NovelWorks/NovelWorks.tsx:199-234 | a batch sends exactly the selected ids and a single delete exactly the target; a reported count is the number of ids sent; a failed batch keeps the selection |
| NovelWorks.DeleteDialogRoundTrip | src/components/NovelWorks/NovelWorks.tsx:194-216 | asking to delete a novel and confirming sends exactly that novel; confirming again sends nothing |
| NovelWorks.BatchDeleteOnce | src/components/NovelWorks/NovelWorks.tsx:219-234 | after a successful batch, a second press sends nothing |
| NovelForm.PresetTagsCopyAgrees | src/components/NovelForm.tsx:34-40 | the form's local preset list equals the shared PRESET_TAGS |
| NovelForm.AddCustomTag | src/components/NovelForm.tsx:103-111 | as written: a non-blank trimmed input not already included is appended and the input cleared; otherwise nothing changes |
| NovelForm.AddCustomTagNoDuplicates | src/components/NovelForm.tsx:103-111 | for array tags: stays duplicate-free, keeps every tag, contains the new tag; a blank input changes nothing |
| NovelForm.AddCustomTagSpreadsString | src/components/NovelForm.tsx:104-108 | for string tags the string is spread into its characters before the new tag |
| NovelForm.AddCustomTagSpreadDuplicates | src/components/NovelForm.tsx:104-108 | a string of tags whose first two characters are equal yields a tag list with a duplicate |
| NovelForm.AddCustomTagDuplicates | src/components/NovelForm.tsx:104-108 | with tags "aa", adding "b" gives exactly the tag list ["a", "a", "b"], which has a duplicate |
| NovelForm.TagArray | src/components/NovelForm.tsx:116-121 | an array as is, nothing for a missing value, and non-empty pieces for a string |
| NovelForm.AddCustomTagIntended | src/components/NovelForm.tsx:103-111 | corrected: the same handler with string tags read as handleDeleteTag reads them |
| NovelForm.AddCustomTagIntendedKeepsTags | src/components/NovelForm.tsx:103-111 | corrected: the result is duplicate-free when the tags were, keeps every tag, agrees with the source on arrays, and is idempotent |
| NovelForm.DeleteTag | src/components/NovelForm.tsx:114-127 | the tags become an array without the tag, every other tag kept with its count and order |
| NovelForm.DeleteTagIdempotent | src/components/NovelForm.tsx:114-127 | deleting twice equals deleting once; deleting an absent tag from an array changes nothing |
| NovelForm.TagsChange | src/components/NovelForm.tsx:94-100 | an array is stored as is; a string is split on commas, and the pieces joined with ',' give the string back |
| NovelForm.TagsChangeInvertsJoin | src/components/NovelForm.tsx:94-100 | comma-free tags joined and chosen again as a string come back unchanged |
| NovelForm.SelectedTags | src/components/NovelForm.tsx:203 | an array as is; a non-empty string split on commas with each piece trimmed; otherwise nothing |
| NovelForm.SelectedTagsAgreeWithDelete | src/components/NovelForm.tsx:120 | for string tags the select shows what deletion works on, apart from blank pieces |
| NovelForm.TagCaptionFrom | src/components/NovelForm.tsx:210-214 | the label of the first preset with the value, or the value itself |
| NovelForm.TagCaptionUsesLabels | src/components/NovelForm.tsx:210-214 | a chip shows TAG_LABELS' label for a preset tag and the value for a custom one |
| NovelForm.ValidateForm | src/components/NovelForm.tsx:130-144 | valid iff title and author are not blank and a category is chosen; otherwise the alert of the first failing check |
| NovelForm.HandleSubmit | src/components/NovelForm.tsx:147-151 | onSubmit receives the form unchanged iff it is valid |
| NovelForm.ValidationIgnoresPadding | src/components/NovelForm.tsx:130-144 | padding the title and the author with whitespace gives the same validation outcome, the same alert included |
| NovelForm.SyncedCoverUrl | src/components/NovelForm.tsx:70 | cover_url when non-empty, else cover_image, else '' |
| NovelForm.SyncInitialData | src/components/NovelForm.tsx:65-73 | every supplied field overrides the form's; the cover is the synced cover URL |
| NovelForm.InitialForm | src/components/NovelForm.tsx:51-62 | empty defaults overridden by supplied fields; a missing cover_url falls back to a non-empty cover_image |
| NovelForm.CoverUrlSources | src/components/NovelForm.tsx:51-73 | the first state and the effect disagree on the cover only in the listed corner cases |
| Workflows.Params | src/pages/Workflows.tsx:69-74 | page size 10; query sent iff the keyword is non-empty, status iff the filter is non-empty; a sent value is exactly its non-empty input |
| Workflows.ApplyList | src/pages/Workflows.tsx:76-85 | with `data`, a missing list becomes [] and a missing total 0; without `data` the read throws, the error is only logged, and list and total keep their previous values |
| Workflows.ApplyListForgetsPrevious | src/pages/Workflows.tsx:76-85 | a response with `data` determines the page regardless of what it showed before; one without `data` changes nothing |
| Workflows.PageCount | src/pages/Workflows.tsx:546-549 | at least one page, and count is the least number of 10-row pages that hold the total |
| Workflows.PageCountIsCeiling | src/pages/Workflows.tsx:55 | the count is the unique ceiling of total/10, and every row index falls on one of its pages |
| Workflows.Pagination | src/pages/Workflows.tsx:546-551 | the bar is shown iff the total is positive, with the page count |
| Workflows.GetStatusInfo | src/pages/Workflows.tsx:137-148 | '未知' iff the value is not draft, active or inactive; success colour iff active, error iff inactive |
| Workflows.StatusLabelsDistinct | src/pages/Workflows.tsx:137-148 | the three statuses have three different labels |
| Workflows.Summary | src/pages/Workflows.tsx:523-527 | the summary row is shown iff keyword or status filter is set, with one chip for each that is |
| Workflows.SummaryMatchesParams | src/pages/Workflows.tsx:523-527 | the summary is shown iff the request carries a filter; the keyword chip iff the query is sent, quoting it; the status chip iff the status is sent, naming it |
| CreateChapter.MaxId | src/pages/CreateChapter.tsx:51 | the largest id: no id exceeds it and some chapter has it |
| CreateChapter.NextId | src/pages/CreateChapter.tsx:51 | exceeds every existing id; 1 for an empty list |
| CreateChapter.NextIdIsLeastFresh | src/pages/CreateChapter.tsx:51 | it is the least id above every existing id |
| CreateChapter.Find | src/pages/CreateChapter.tsx:41 | the first chapter with the id, or nothing iff no chapter has it |
| CreateChapter.SelectChapter | src/pages/CreateChapter.tsx:39-43 | the id is selected and the editor holds that chapter's content, or '' when no chapter has it |
| CreateChapter.AddChapter | src/pages/CreateChapter.tsx:45-47 | opens the dialog and changes nothing else |
| CreateChapter.DialogOk | src/pages/CreateChapter.tsx:49-56 | a blank title changes nothing; otherwise one chapter with a fresh id, the untrimmed title and empty content is appended after the unchanged list, the input cleared and the dialog closed |
| CreateChapter.DialogOkKeepsIdsUnique | src/pages/CreateChapter.tsx:51-52 | appending keeps ids unique |
| CreateChapter.DialogOkFindsNewChapter | src/pages/CreateChapter.tsx:51-52 | selecting the new id finds the new chapter |
| CreateChapter.DialogCancel | src/pages/CreateChapter.tsx:58-61 | closes the dialog and clears the input; chapters unchanged |
| CreateChapter.SaveInto | src/pages/CreateChapter.tsx:65 | only chapters with the id get the text; ids, titles and length unchanged |
| CreateChapter.SaveContent | src/pages/CreateChapter.tsx:63-67 | with no selection nothing changes; otherwise the text is saved into the selected chapters |
| CreateChapter.SaveThenSelect | src/pages/CreateChapter.tsx:39-67 | selecting the saved chapter again loads exactly the saved text |
| CreateChapter.SaveContentIdempotent | src/pages/CreateChapter.tsx:63-67 | saving twice equals saving once |
| Config.Lookup | src/api/config.ts:2-18 | a configuration exists exactly for development, test and production |
| Config.Mode | src/api/config.ts:21 | an unset or empty mode is development |
| Config.CurrentConfig | src/api/config.ts:21-24 | an unset mode gives the development configuration; a configuration exists iff the mode is one of the three |
| Config.BaseUrl | src/api/config.ts:27-33 | ends with "/api/" and the version; starts with the host when there is one, otherwise is relative |
| Config.ConfiguredBaseUrls | src/api/config.ts:2-30 | every configured host is non-empty with version v1, so the relative branch is never taken; development gives http://localhost:8080/api/v1 |
| Config.BaseUrlRoundTrip | src/api/config.ts:27-30 | the host and the version can be read back from the base URL |

## Left out

- I/O is not modelled:
  - `localStorage` reads become a token parameter;
  - `window.location` assignments become a redirect decision;
  - `console` output is dropped;
  - `new Date().toISOString()` is a `now` parameter.
- React is reduced to the state it changes: rendering, styling, effects scheduling, and the order of batched `setState` updates within one event are not modelled. Snackbar messages are kept only as the counts they report.
- The network calls of the pages (`getProjects`, `deleteNovel`, …) are parameters that say how each call settles. Data that the pages only display is not modelled.
- `ErrorHandler.ExecuteAsync` models one call run to completion. Two overlapping calls sharing one state, and their interleaving, are not modelled.
- `Text.Lower` lowers only ASCII letters, because JavaScript's full Unicode case mapping is not modelled. `Text.Trim` and the tag separators use the ECMAScript whitespace set as fixed characters.
- String lengths count Dafny characters, not UTF-16 code units, so a character outside the Basic Multilingual Plane counts once here (ProjectForm's 300-character cap).
- JavaScript number coercion:
  - `Number(x ?? 0)` of a non-numeric value (NaN) and the `||` fallback for NaN totals are not modelled;
  - numbers are integers.
- A thrown `null` or `undefined` is `Exceptions.Nullish`; other thrown primitives are all `Exceptions.Other` with their string form.
- ProjectForm.HandleSubmit: after a `null` or `undefined` rejection the handler's own promise rejects with a `TypeError`. Nothing awaits that promise, so only the unchanged state is modelled, not the rejection or its message.
- Exceptions.Thrown: `Coded` holds an `ApiError`, whose code is an integer. The commonest coded value the hook receives is an axios error re-rejected by the error interceptor, whose `code` is a string such as `ERR_NETWORK` and which has no details. Such a value is represented here by a positive code below 1000 and no details. The axios error's `stack` is not kept either: `ErrorDisplay.StackOf` gives nothing for a `Coded` value, while the source's boundary would read the stack of an axios error it caught. That gives the same display as the source: the severity falls back to the prop, the icon is ❌, and ProjectForm's `err.code || 1000` keeps the code and routes the error to the general alert.
- NovelWorks.ApplyList: every element of `data.list` is taken to be an object. A `null` or `undefined` element makes `String(item.id)` throw; `handleError` then runs and the novels stay as they were. That case is not modelled.
- In `NovelForm`, a `tags` value that is neither a string nor an array (a number, say) is treated as missing. In the source, `tags?.includes` would throw on such a value.
- Projects' sort menu (`sortedProjects`, by name or by creation date) is not modelled. It relies on locale comparison and date parsing. Selection's select-all uses the displayed rows as given.
- The Workflows batch-delete button only logs the selection (`handleBatchDelete` is a placeholder), so there is no state change to model.
- `src/api/request.ts` does not build `ApiError` objects, clear the stored token or set a timeout. The model follows the file: a 401 redirects to `/login`, and every error is re-rejected as it came.
- The `ErrorBoundary` custom fallback component is modelled only as which error it receives, not as what it renders.
- The VoiceOver, Layout, Home, release-order, detail and creation wrapper pages are not part of this model. They hold no logic beyond rendering and navigation.
- Config.CurrentConfig: an unknown build mode yields no configuration. The source would then fail when it reads `currentConfig.host`; that failure is not modelled further.
- NovelWorks.GetStatusInfo: the icon of each status (a pen, a play sign, a tick, a pause sign, a bin, a book for the unknown status) is not modelled, only the text and the colour.

## Findings

| source | as written | input that shows it | evidently intended | confidence | as-written member | corrected member |
|---|---|---|---|---|---|---|
| src/components/NovelForm.tsx:104-108 | `handleAddCustomTag` checks a string of tags with substring `includes`, then spreads the string into single characters with `[...(prev.tags \|\| []), t]` | tags "aa" (a string; only `initialData` can bring one, since `handleTagsChange` always stores an array, and `initialData.tags` is declared `string[]` while NovelWorks.tsx:122 shows the server does send string tags; the pages that render the form are not part of this model) and custom tag "b" give `["a","a","b"]` | read the string as the list of comma-separated tags, as `handleDeleteTag` does, and add the tag only if it is not already one of them | medium, not executed | NovelForm.AddCustomTagDuplicates | NovelForm.AddCustomTagIntendedKeepsTags |
| src/pages/Projects.tsx:527-528 | the header checkbox compares `selectedProjects.length` with `sortedProjects.length`, and the selection is never pruned when the search or the filter changes the shown rows (the only `setSelectedProjects` calls are at lines 284, 296, 298 and 304); Workflows.tsx:195-196 and NovelWorks.tsx:287-288 do the same | select rows a and b, then search for a term that shows only rows c and d: the header reads checked although no shown row is selected | the header counts the shown rows that are selected, so it is checked only when every shown row is | medium, not executed | Selection.StaleSelectionChecksHeader | Selection.HeaderIntended |
