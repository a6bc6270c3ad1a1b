# O-range team site: a Dafny model

The O-range site is a small Next.js application that a team uses to share:

- member profiles;
- weekly progress reports;
- an idea notebook.

All data sits in Cloud Firestore, photos in Firebase Storage, and a Gemini
language model writes report summaries, teasers, idea titles and answers to
questions about past reports.

This project models the logic of that application in Dafny:

- **Values.** The JavaScript value semantics the code relies on: `||`, `??`,
  `String(v)`, `trim`, `padStart`, `parseInt`, `Array.filter`.
- **Data.** The entities of `lib/data.ts`.
- **Firestore.** The document store of `lib/firestore.ts`. A database is a
  pair of maps from document id to document. The model covers:
  - merge writes;
  - the full-replace `saveMembers`/`saveReports`;
  - the normalising reads `getMembers`, `getMember` and `getReports`;
  - the error raised when Firebase is not configured.
- **Storage.** The image-storage helpers of `lib/storage.ts`.
- **Gemini.** The response post-processing of `lib/gemini.ts`:
  - JSON extraction and the defaults of the summary;
  - teaser shaping and idea-title truncation;
  - cosine similarity and top-k ranking.
- **Contexts.** The three React contexts: login, edit mode, and toasts with
  confirmation dialogs.
- **Pages.** The list-editing logic of the three pages: members (`app/page.tsx`),
  reports (`app/reports/page.tsx`) and ideas (`app/ideas/page.tsx`). The reports
  page includes:
  - change detection;
  - the placeholder teaser;
  - the background teaser pass;
  - archiving;
  - the delete-index rule;
  - the question-answering guards.
- **Scripts.** The maintenance scripts that normalise the member and report
  collections and seed one report per member.

Stateful parts are classes whose methods update fields:

- `Firestore.Store`, `Storage.Bucket`;
- the contexts;
- the page classes `MembersPage.HomePage`, `ReportsPage.ReportPage` and `IdeasPage.IdeaBoard`.

Each method's postcondition ties its new state to a specification function of
the old state. The lemmas beside these functions prove what the code promises:

- round trips through the store;
- idempotence of the scripts;
- freshness of generated ids;
- stability and ranking of the sorts;
- the teaser pass resolving every placeholder;
- what a delete keeps.

The network, the clock, the random toast id and the language model's replies
are parameters of the operations that use them.

## Model

| member | source | states |
|---|---|---|
| Values.OrElse | lib/firestore.ts:53-62 | `v \|\| fallback`: a truthy value is kept, anything falsy (absent, `null`, `''`, `0`, `false`) gives the fallback |
| Values.Coalesce | scripts/normalize-members.ts:52 | `v ?? fallback`: only `undefined` and `null` fall through; `''` is kept |
| Values.NatToStringRoundTrip | app/page.tsx:77 | the decimal text of a number reads back as that number |
| Values.LeadingZerosValue | app/page.tsx:77 | zero padding in front of digits does not change their value |
| Values.ParseDigits | app/page.tsx:73 | `parseInt` of a digit string is its decimal value |
| Values.ParseNegative | app/page.tsx:73 | `parseInt("-" + n)` is `-n` |
| Values.ParseZerosThenSign | app/page.tsx:73 | `parseInt` stops at a sign after leading zeros: `"000-4"` reads as 0 |
| Values.ParsePaddedAtLeast | app/page.tsx:73-77 | `parseInt(String(k).padStart(5, '0'))` is defined and at least `k`, for every integer `k` |
| Values.ParsePaddedNegative | app/page.tsx:73-77 | zero-padded negative numbers parse to a number at least the original |
| Values.ParseNegativeString | app/page.tsx:73-77 | `parseInt(String(k))` is `k` for negative `k` |
| Values.ParsePaddedNat | app/page.tsx:73-77 | zero-padded naturals parse back exactly |
| Values.TrimShape | app/ideas/page.tsx:78 | `trim` drops only leading and trailing whitespace and keeps the middle |
| Values.TrimEdges | app/ideas/page.tsx:78 | the trimmed string neither starts nor ends with whitespace |
| Values.TrimMiddle | app/ideas/page.tsx:78 | the trimmed string is the slice of the input that follows its leading whitespace |
| Values.TrimDropsOnlyWhitespace | app/ideas/page.tsx:78 | every character `trim` removes is whitespace |
| Values.BlankIffAllWhitespace | app/ideas/page.tsx:78 | `!s.trim()` holds exactly when `s` is all whitespace |
| Values.PadStart | app/page.tsx:77 | `padStart(width, c)` is `s` preceded by exactly enough copies of `c` to reach `width` |
| Values.DigitPrefix | app/page.tsx:73 | the digits `parseInt` reads are a prefix of the input, followed by a non-digit or the end |
| Values.FilterExactly | app/page.tsx:122 | `Array.filter` keeps exactly the elements satisfying the predicate; with all satisfying it is the identity |
| Values.FilterAppend | app/page.tsx:122 | filtering distributes over appending one element |
| Values.FilterPrepend | app/page.tsx:122 | filtering distributes over putting one element in front |
| Data.ReportIdsAppend | lib/data.ts:15-22 | the id set of a report list grows by exactly the appended report's id |
| Data.MemberIdsAppend | lib/data.ts:1-13 | the id set of a member list grows by exactly the appended member's id |
| Firestore.Merge | lib/firestore.ts:152 | a merge write keeps every stored field it does not mention and overwrites the ones it writes |
| Firestore.UpsertAllKeys | lib/firestore.ts:268-269 | a run of merge writes leaves the stored ids plus every written id |
| Firestore.SyncKeys | lib/firestore.ts:247-275 | after `saveMembers`/`saveReports` the stored id set is exactly the new list's id set |
| Firestore.UpsertAllUntouched | lib/firestore.ts:268-269 | documents whose ids are not written keep their contents |
| Firestore.LastIdFresh | lib/firestore.ts:259 | with distinct ids, the last entry's id occurs nowhere earlier |
| Firestore.UpsertAllDistinct | lib/firestore.ts:268-269 | with distinct ids, each document ends up as its record merged over what was stored before |
| Firestore.SyncDistinct | lib/firestore.ts:247-275 | a full replace with distinct ids stores each record merged over the document it replaces |
| Firestore.MergeTwice | lib/firestore.ts:152 | writing the same record twice with merge is writing it once |
| Firestore.SyncIdempotent | lib/firestore.ts:247-275 | saving the same list twice leaves the store as saving it once |
| Firestore.SanitizeUrl | lib/firestore.ts:127 | a `blob:` URL is dropped, any other URL is kept unchanged |
| Firestore.StripUndefined | lib/firestore.ts:145-149 | exactly the `undefined` fields are removed, empty strings stay |
| Firestore.MemberRecord | lib/firestore.ts:128-149 | the saved member document: all text fields (absent ones as `''`), the birth date under `birthdate` and never `birthDate`, and each image only when defined and not `blob:` |
| Firestore.MemberRecordKeys | lib/firestore.ts:128-149 | the record holds the text fields plus exactly the images that survive sanitising |
| Firestore.ReportRecord | lib/firestore.ts:201-210 | the saved report document has exactly the five fields id, nickname, currentTrial, progress and result; the teaser is never written |
| Firestore.ReportRecordIgnoresTeaser | lib/firestore.ts:201-210 | the record does not depend on the teaser |
| Firestore.MemberEntries | lib/firestore.ts:268 | one (id, record) write per member, in list order |
| Firestore.ReportEntries | lib/firestore.ts:298 | one (id, record) write per report, in list order |
| Firestore.ReportEntryIds | lib/firestore.ts:287-289 | the written ids of a report list are its id set |
| Firestore.MemberEntryIds | lib/firestore.ts:257-259 | the written ids of a member list are its id set |
| Firestore.UpsertAllPrefix | lib/firestore.ts:268-269 | writing one more entry is one more merge over the previous state |
| Firestore.ReadMember | lib/firestore.ts:47-64 | the member read from a document carries the document's id |
| Firestore.NoBlobInDisplay | lib/firestore.ts:49-50 | a non-string stored value never displays as a `blob:` URL |
| Firestore.ReadMemberNormalised | lib/firestore.ts:47-64 | a read member never has a `blob:` image and has every optional text defined |
| Firestore.ReadReport | lib/firestore.ts:173-182 | a read report carries the document id and no teaser |
| Firestore.ReportRoundTrip | lib/firestore.ts:192-219 | saving then reading a report gives it back without its teaser, whatever was stored before |
| Firestore.WrittenText | lib/firestore.ts:53-62 | a field written as a string reads back as that string |
| Firestore.MemberRoundTripText | lib/firestore.ts:116-158 | saving then reading a member gives back its texts, with `''` for absent optional ones |
| Firestore.MemberRoundTripBirthDate | lib/firestore.ts:58 | an empty saved birth date reads back as the legacy `birthDate` held before the save |
| Firestore.MergedImage | lib/firestore.ts:127-152 | an image the record does not write reads as it was stored before |
| Firestore.MemberRoundTripImages | lib/firestore.ts:116-158 | a sanitised-away or absent image reads back as the image stored before the save |
| Firestore.MembersReadFromAppend | lib/firestore.ts:47-64 | reading one more document keeps every listed member the normal form of its stored document |
| Firestore.ReportsReadFromAppend | lib/firestore.ts:173-182 | the same for reports |
| Firestore.UpsertMemberNoBlob | lib/firestore.ts:116-158 | saving a member never puts a `blob:` URL into the store |
| Firestore.Records | scripts/normalize-members.ts:45-69 | one record per snapshot document, under the document's id, in snapshot order |
| Firestore.UpsertEach | scripts/normalize-members.ts:44-72 | the script loop writes each snapshot document's record in turn and counts them |
| Firestore.UpsertEachResult | scripts/normalize-members.ts:44-72 | with distinct ids, the loop leaves every written document merged with its record and the others untouched |
| Firestore.UpsertSnapshotInPlace | scripts/normalize-members.ts:43-72 | rewriting every document of a snapshot of a collection merges each document with its own record |
| Firestore.UpsertSnapshotAt | scripts/normalize-members.ts:43-72 | one document of that rewrite |
| Firestore.SnapshotIndex | scripts/normalize-members.ts:43-45 | every document of the collection sits somewhere in its snapshot |
| Firestore.Store.constructor | lib/firestore.ts:32 | a store with the given configuration and collections |
| Firestore.Store.SaveMember | lib/firestore.ts:116-158 | unconfigured: error and no write; otherwise one merge of the sanitised record |
| Firestore.Store.SaveReport | lib/firestore.ts:192-219 | unconfigured: error and no write; otherwise one merge of the five report fields |
| Firestore.Store.DeleteMember | lib/firestore.ts:222-232 | unconfigured: error; otherwise exactly that document is removed |
| Firestore.Store.DeleteReport | lib/firestore.ts:234-244 | unconfigured: error; otherwise exactly that document is removed |
| Firestore.Store.SaveMembers | lib/firestore.ts:247-275 | unconfigured: error; otherwise the stored members are synchronised with the list |
| Firestore.Store.DeleteStaleMembers | lib/firestore.ts:257-266 | exactly the stored ids outside the new list are deleted |
| Firestore.Store.UpsertMembers | lib/firestore.ts:268-269 | each member is merged in list order |
| Firestore.Store.SaveReports | lib/firestore.ts:278-305 | unconfigured: error; otherwise the stored reports are synchronised with the list |
| Firestore.Store.DeleteStaleReports | lib/firestore.ts:287-296 | exactly the stored ids outside the new list are deleted |
| Firestore.Store.UpsertReports | lib/firestore.ts:298-299 | each report is merged in list order |
| Firestore.Store.GetMembers | lib/firestore.ts:35-71 | `[]` when unconfigured; otherwise one normalised member per stored document, covering every id |
| Firestore.Store.GetMember | lib/firestore.ts:74-113 | the normalised member exactly when configured and stored, otherwise `null` |
| Firestore.Store.GetReports | lib/firestore.ts:161-189 | `[]` when unconfigured; otherwise one normalised report per stored document, covering every id |
| Firestore.Upsert | lib/firestore.ts:152 | one `setDoc(..., { merge: true })`: the record merged over the stored document, or over an empty one; see `Firestore.Merge` |
| Firestore.UpsertAll | lib/firestore.ts:268-269 | the merges of a list of writes in order; stated by `Firestore.UpsertAllKeys`, `Firestore.UpsertAllUntouched` and `Firestore.UpsertAllDistinct` |
| Firestore.Sync | lib/firestore.ts:247-275 | `saveMembers`/`saveReports`: delete the stored ids absent from the list, then merge every entry; stated by `Firestore.SyncKeys`, `Firestore.SyncDistinct` and `Firestore.SyncIdempotent` |
| Firestore.TextField | lib/firestore.ts:53-62 | `data.f \|\| ''` on read: a truthy value as its text, anything else `''` |
| Firestore.ImageField | lib/firestore.ts:49-50 | an image on read: a `blob:` string or an absent or `null` value gives no image; any other string is kept (a number or boolean as its text) |
| Firestore.StringField | lib/firestore.ts:174-178 | `typeof data.f === 'string' ? data.f : ''` |
| Storage.ValidateImageFile | lib/storage.ts:82-101 | valid exactly for JPEG/PNG/WebP of at most 5 MB; a bad type reports the format error first, then a large file the size error |
| Storage.SizeBoundary | lib/storage.ts:83-98 | 5 242 880 bytes pass, one byte more fails with the size error |
| Storage.MemberImagePath | lib/storage.ts:56 | the path lies in the member's folder and ends in `.jpg` |
| Storage.NatToStringInjective | lib/storage.ts:56 | different timestamps give different texts |
| Storage.FileNamesDistinct | lib/storage.ts:56 | different (image type, timestamp) pairs give different file names |
| Storage.MemberImagePathsDistinct | lib/storage.ts:56 | two uploads for one member with different type or time never share a path |
| Storage.Bucket.constructor | lib/storage.ts:6 | a bucket with the given configuration and objects |
| Storage.Bucket.UploadImage | lib/storage.ts:25-48 | unconfigured: error, nothing stored; otherwise the file is stored at the path and its location returned |
| Storage.Bucket.UploadMemberImage | lib/storage.ts:51-58 | the upload goes to the member's timestamped path |
| Storage.Bucket.DeleteImage | lib/storage.ts:61-79 | unconfigured: silently nothing; otherwise exactly that object is removed |
| Storage.FileName | lib/storage.ts:56 | `${imageType}_${Date.now()}.jpg`; distinct inputs give distinct names (`Storage.FileNamesDistinct`) |
| Gemini.ValidateGeminiApiKey | lib/gemini.ts:148-150 | a key is accepted exactly when it starts with `AIza` and is longer than 30 characters |
| Gemini.CosineSimilarity | lib/gemini.ts:187-203 | lengths differing throw; otherwise the dot product and both squared norms |
| Gemini.CauchySchwarz | lib/gemini.ts:202 | the squared dot product never exceeds the product of the squared norms |
| Gemini.CrossTermNonNegative | lib/gemini.ts:196-200 | the Lagrange form used by the Cauchy-Schwarz proof is non-negative |
| Gemini.AppendExpansion | lib/gemini.ts:196-200 | the algebra of extending the three sums by one coordinate |
| Gemini.SimilarityBounded | lib/gemini.ts:187-203 | equal-length vectors always get a similarity, and the squared dot product is at most the product of the squared norms, so the cosine lies in [-1, 1] |
| Gemini.InsertDesc | lib/gemini.ts:225 | insertion adds exactly one element |
| Gemini.SortDesc | lib/gemini.ts:225 | sorting is a permutation |
| Gemini.InsertDescSorted | lib/gemini.ts:225 | insertion keeps a list sorted by descending score |
| Gemini.SortDescSorted | lib/gemini.ts:225 | the result is sorted by descending score |
| Gemini.InsertDescStable | lib/gemini.ts:225 | insertion keeps the order of equal-score elements |
| Gemini.SortDescStable | lib/gemini.ts:225 | the sort is stable, as `Array.prototype.sort` is |
| Gemini.SliceTo | lib/gemini.ts:226 | `slice(0, k)` is the prefix of length `min(k, n)`, with negative `k` counted from the end |
| Gemini.ScoreAll | lib/gemini.ts:218-221 | one scored entry per document, carrying its text |
| Gemini.SearchSimilarTexts | lib/gemini.ts:208-227 | a failed query embedding gives its error, any dimension mismatch gives a mismatch error, and a query whose length every document shares always succeeds |
| Gemini.PrefixIsBest | lib/gemini.ts:224-226 | nothing outside a sorted prefix scores above anything in it |
| Gemini.PrefixSorted | lib/gemini.ts:224-226 | a prefix of a sorted list is sorted and drawn from it |
| Gemini.SearchRanked | lib/gemini.ts:208-227 | the hits are `min(topK, n)` of the documents, best first, and no document left out scores higher than a hit |
| Gemini.FirstIndexOf | lib/gemini.ts:55 | the first occurrence of a character, or none |
| Gemini.LastIndexOf | lib/gemini.ts:55 | the last occurrence of a character, or none |
| Gemini.JsonSpanExists | lib/gemini.ts:55-58 | the greedy `{...}` match exists exactly when some `{` precedes some `}` |
| Gemini.JsonSpanBounds | lib/gemini.ts:55 | the match runs from the first `{` to the last `}` |
| Gemini.SummarizeReport | lib/gemini.ts:14-72 | no key: key error; with a key every failure (no reply, no `{...}` span, unparsable JSON) is the summary error; success exactly when a span exists and parses, and then each field is `parsed.f \|\| '今週の報告なし'` |
| Gemini.SummaryDefaults | lib/gemini.ts:64-66 | each summary field is never empty: a non-empty string is kept, a missing or empty one becomes `今週の報告なし` |
| Gemini.StripQuotes | lib/gemini.ts:130 | at most one opening quote is dropped from the front and one closing quote from the back |
| Gemini.RemoveNewlines | lib/gemini.ts:130 | no newline is left and the result is no longer than the input |
| Gemini.RemoveNewlinesKeepsOthers | lib/gemini.ts:130 | the result is `Array.filter` with `c !== '\n'` on the characters: every other character is kept, in order, and the length drops by the number of newlines |
| Gemini.TrimNoNewline | lib/gemini.ts:130 | trimming a line without newlines keeps it without newlines |
| Gemini.TeaserCoreShape | lib/gemini.ts:127-135 | the cleaned teaser has at most 20 characters and no newline |
| Gemini.EllipsisShaped | lib/gemini.ts:138 | such a core followed by `...` is a well-shaped teaser |
| Gemini.GenerateReportTeaser | lib/gemini.ts:80-143 | no key: error; a failed call or an empty result: `報告あり...`; otherwise the cleaned core plus `...`; every teaser is one line ending in `...` with at most 20 characters before it |
| Gemini.TitleFallback | lib/gemini.ts:282 | content up to 30 characters is kept; longer content is cut to 30 characters plus `...` |
| Gemini.GenerateIdeaTitle | lib/gemini.ts:279-312 | no key or a failed call: the fallback; otherwise the trimmed reply, kept whole when it has at most 30 characters and its first 30 characters when longer |
| Gemini.GenerateEmbedding | lib/gemini.ts:164-182 | a vector exactly when a key is set and the call succeeds; no key: key error |
| Gemini.AnswerWithRag | lib/gemini.ts:232-274 | an answer exactly when a key is set and the call succeeds; no key: key error |
| Gemini.JsonSpan | lib/gemini.ts:55 | `text.match(/\{[\s\S]*\}/)`: the greedy span from the first `{` to the last `}`; stated by `Gemini.JsonSpanExists` and `Gemini.JsonSpanBounds` |
| Gemini.SummaryField | lib/gemini.ts:64-66 | `summary.f \|\| '今週の報告なし'`; stated by `Gemini.SummaryDefaults` |
| Gemini.TeaserCore | lib/gemini.ts:127-135 | trim, strip one quote at each end, remove newlines, trim again, cut to 20; stated by `Gemini.TeaserCoreShape` |
| Auth.ToLowerIdempotent | contexts/AuthContext.tsx:41 | lower-casing twice is lower-casing once |
| Auth.LoginIgnoresCase | contexts/AuthContext.tsx:39-41 | an id is accepted exactly when its lower-case form is |
| Auth.RestoredSession | contexts/AuthContext.tsx:24-32 | a session is restored exactly when the flag is `'true'` and both member id and name are non-empty, and it is that id and name |
| Auth.RestoreAfterLogin | contexts/AuthContext.tsx:37-51 | a reload after a login restores that member, whenever id and name are non-empty |
| Auth.RestoreAfterLogout | contexts/AuthContext.tsx:53-60 | a reload after a logout restores nobody |
| Auth.AuthContext.constructor | contexts/AuthContext.tsx:17-20 | not authenticated, loading, no member |
| Auth.AuthContext.Restore | contexts/AuthContext.tsx:22-35 | loading ends; the stored session, if any, becomes current, and storage is untouched |
| Auth.AuthContext.Login | contexts/AuthContext.tsx:37-51 | succeeds exactly for a valid id; then the member becomes current and is persisted, otherwise nothing changes |
| Auth.AuthContext.Logout | contexts/AuthContext.tsx:53-60 | nobody is current and exactly the three keys are removed from storage |
| Auth.IsValidLoginId | contexts/AuthContext.tsx:39-41 | `validIds.includes(id.toLowerCase())`; case-insensitive by `Auth.LoginIgnoresCase` |
| Edit.EditContext.constructor | contexts/EditContext.tsx:16-17 | both flags start false |
| Edit.EditContext.EnableEditMode | contexts/EditContext.tsx:19-21 | edit mode on; the unsaved flag is untouched |
| Edit.EditContext.DisableEditMode | contexts/EditContext.tsx:23-26 | both flags cleared |
| Edit.EditContext.SetHasUnsavedChanges | contexts/EditContext.tsx:17 | only the unsaved flag changes |
| Notification.WithoutToastExactly | contexts/NotificationContext.tsx:40 | expiry removes exactly the toasts with that id |
| Notification.ShowThenExpire | contexts/NotificationContext.tsx:34-42 | a toast shown and then expired leaves the list as before |
| Notification.NotificationCenter.constructor | contexts/NotificationContext.tsx:31-32 | no toasts, no dialog |
| Notification.NotificationCenter.ShowToast | contexts/NotificationContext.tsx:34-36 | the toast is appended; the dialog is untouched |
| Notification.NotificationCenter.ExpireToast | contexts/NotificationContext.tsx:39-41 | the toasts with that id are removed |
| Notification.NotificationCenter.ConfirmAction | contexts/NotificationContext.tsx:44-46 | the dialog shows these options |
| Notification.NotificationCenter.HandleConfirm | contexts/NotificationContext.tsx:48-53 | with a dialog open its `onConfirm` runs and the dialog closes; without one nothing happens |
| Notification.NotificationCenter.HandleCancel | contexts/NotificationContext.tsx:55-60 | with a dialog open its optional `onCancel` runs and the dialog closes; without one nothing happens |
| Notification.WithoutToast | contexts/NotificationContext.tsx:40 | `prev.filter((t) => t.id !== id)`; stated by `Notification.WithoutToastExactly` |
| MembersPage.IdsOf | app/page.tsx:70-71 | the ids of the members, in order |
| MembersPage.MemberNumbersComplete | app/page.tsx:70-74 | every id that parses after `member-` contributes its number |
| MembersPage.MemberNumbersSound | app/page.tsx:70-74 | every number came from some `member-` id |
| MembersPage.MaxOf | app/page.tsx:76 | `Math.max` of a non-empty list is an element and bounds all elements |
| MembersPage.NextMemberNumberAbove | app/page.tsx:76 | the next number exceeds every number in use; it is 1 when none is in use, otherwise one more than the largest |
| MembersPage.NextMemberId | app/page.tsx:77 | the new id starts with `member-` |
| MembersPage.NextMemberIdNumber | app/page.tsx:73-77 | the new id parses back to a number at least the next number |
| MembersPage.NextMemberIdFresh | app/page.tsx:68-77 | the new id is not one of the existing ids |
| MembersPage.FieldsDetermineMember | lib/data.ts:1-13 | members that agree on every field are equal |
| MembersPage.WithField | app/page.tsx:64 | `{ ...m, [field]: value }` sets that field and keeps every other |
| MembersPage.WithFieldSameValue | app/page.tsx:64 | writing back a field's own value changes nothing |
| MembersPage.UpdateMembers | app/page.tsx:64 | the update keeps the list length |
| MembersPage.UpdateMembersOnly | app/page.tsx:64 | only the members with that id change, only in that field, and ids stay unless the id is edited |
| MembersPage.WithoutMemberExactly | app/page.tsx:122 | the delete keeps exactly the members with other ids |
| MembersPage.UniqueEntries | lib/firestore.ts:268 | distinct member ids give distinct writes |
| MembersPage.SavedMemberReadsBack | app/page.tsx:39-49 | after a save with distinct ids each member is stored and reads back with its texts |
| MembersPage.AppendFreshUnique | app/page.tsx:96 | appending a member with a new id keeps the ids distinct |
| MembersPage.HomePage.constructor | app/page.tsx:17-18 | no members, loading |
| MembersPage.HomePage.LoadMembers | app/page.tsx:24-37 | loading ends and the page lists what `getMembers` returns |
| MembersPage.HomePage.Save | app/page.tsx:39-49 | on success the store holds exactly the page's members and the unsaved flag clears; on failure nothing changes |
| MembersPage.HomePage.SaveAndExit | app/page.tsx:51-61 | as Save, and on success edit mode ends |
| MembersPage.HomePage.UpdateMember | app/page.tsx:63-66 | the field changes locally, the page is unsaved, and distinct ids stay distinct; only the list and the unsaved flag may change, so `loading` and the edit mode are kept |
| MembersPage.HomePage.AddMember | app/page.tsx:68-110 | the placeholder member with a fresh id is saved and then appended; on failure nothing changes; ids stay distinct; only the list and the stored members may change |
| MembersPage.HomePage.ConfirmDeleteMember | app/page.tsx:121-125 | the member leaves the local list only, and the page is unsaved; only the list and the unsaved flag may change |
| MembersPage.MemberNumber | app/page.tsx:72-74 | the number `parseInt` reads after `member-`, none for other ids and for `NaN` |
| MembersPage.MemberNumbers | app/page.tsx:70-74 | `existingIds`; stated by `MembersPage.MemberNumbersComplete` and `MembersPage.MemberNumbersSound` |
| MembersPage.NextMemberNumber | app/page.tsx:76 | `nextNumber`; above every number in use by `MembersPage.NextMemberNumberAbove` |
| MembersPage.PlaceholderMember | app/page.tsx:80-91 | the new member: every text `準備中` (the tagline `準備中です`), no images |
| MembersPage.WithoutMember | app/page.tsx:122 | `prev.filter((m) => m.id !== id)`; stated by `MembersPage.WithoutMemberExactly` |
| ReportsPage.FindById | app/reports/page.tsx:343 | the position of the first report with that id, or none |
| ReportsPage.TagThenStrip | app/reports/page.tsx:342-365 | exactly the reports needing a teaser get the placeholder; the stored list has no placeholder, differs from the input only in teasers, and writes the same records |
| ReportsPage.TaggedNeedsTeaser | app/reports/page.tsx:342-356 | tagging does not change which reports need a teaser |
| ReportsPage.ChangedReportsExactly | app/reports/page.tsx:455-465 | the background pass selects exactly the reports that need a teaser |
| ReportsPage.FallbackTeaser | app/reports/page.tsx:490 | the first 30 characters of the first non-empty text, then `...` |
| ReportsPage.ReplaceById | app/reports/page.tsx:482 | replacing by id keeps the list length |
| ReportsPage.ApplyResolved | app/reports/page.tsx:474-496 | the pass keeps the list length |
| ReportsPage.LastWithId | app/reports/page.tsx:474-496 | the last selected report with an id, or none |
| ReportsPage.ApplyResolvedAt | app/reports/page.tsx:485-494 | after the pass each report is resolved from the last selection with its id, or left as it was |
| ReportsPage.LastWithIdAppended | app/reports/page.tsx:474-496 | the last selection with its id is itself |
| ReportsPage.LastWithIdAppendedOther | app/reports/page.tsx:474-496 | a selection with another id does not change the last one with this id |
| ReportsPage.LastChangedWithId | app/reports/page.tsx:455-465 | with distinct ids a report is selected exactly when it needs a teaser |
| ReportsPage.LastSelectedOnce | app/reports/page.tsx:455-465 | a report whose id is new is not among the earlier selections |
| ReportsPage.TeaserPassResolves | app/reports/page.tsx:336-390 | with distinct ids, after a save and its pass no placeholder is left: each report needing one shows its generated or fallback teaser, the others are as they were |
| ReportsPage.UniqueEntries | lib/firestore.ts:298 | distinct report ids give distinct writes |
| ReportsPage.ResolvedSameEntries | app/reports/page.tsx:482-492 | writing a report with another teaser writes the same records |
| ReportsPage.TeaserPassKeepsStore | app/reports/page.tsx:474-496 | with distinct ids, the pass's writes leave the store as the save left it |
| ReportsPage.SaveThenPassStore | app/reports/page.tsx:336-390 | with distinct ids, after a save and its pass the store holds exactly the edited list |
| ReportsPage.ClearReports | app/reports/page.tsx:98-104 | clearing keeps the list length |
| ReportsPage.ClearedReports | app/reports/page.tsx:98-104 | after archiving every report keeps its id and nickname with empty texts and teaser, and nothing needs a teaser |
| ReportsPage.WithReportField | app/reports/page.tsx:502 | `{ ...r, [field]: value }` sets that field and keeps every other |
| ReportsPage.UpdateReports | app/reports/page.tsx:502 | the update keeps the list length |
| ReportsPage.UpdateReportsOnly | app/reports/page.tsx:502 | only the reports with that id change, only in that field |
| ReportsPage.WithSummary | app/reports/page.tsx:570-581 | the voice update keeps the list length |
| ReportsPage.WithSummaryIsThreeUpdates | app/reports/page.tsx:570-581 | applying a summary is editing the three texts one after another |
| ReportsPage.SummaryGivesContent | app/reports/page.tsx:567-577 | a summary has three non-empty texts, so the report it fills has content |
| ReportsPage.WithoutReportExactly | app/reports/page.tsx:538 | the delete keeps exactly the reports with other ids |
| ReportsPage.WithoutReportDropsOne | app/reports/page.tsx:538 | with distinct ids the delete removes at most one report |
| ReportsPage.IndexAfterDeleteInRange | app/reports/page.tsx:535-553 | the index after a delete is valid, or 0 for an empty list |
| ReportsPage.RagSearch | app/reports/page.tsx:261-308 | a blank question is rejected; no embeddings stops before any search; an answer needs non-empty embeddings and a reply; a non-blank question with embeddings, a successful search and a successful answer call is answered with those hits and that answer |
| ReportsPage.RagAnswerRanked | app/reports/page.tsx:289-296 | an answer is built from min(5, n) scored passages, best first, drawn from the scored documents, with none left out scoring higher |
| ReportsPage.ReportPage.constructor | app/reports/page.tsx:20-35 | empty lists, index 0, no dialog, no answer |
| ReportsPage.ReportPage.LoadReports | app/reports/page.tsx:49-64 | the list and its change-detection copy both show what `getReports` returns |
| ReportsPage.ReportPage.GenerateTeasers | app/reports/page.tsx:450-499 | the pass resolves each selected report in turn on the page, the copy and the store |
| ReportsPage.ReportPage.ResolveOne | app/reports/page.tsx:475-495 | one step writes the generated teaser, or the fallback when generation or the write failed |
| ReportsPage.ReportPage.Save | app/reports/page.tsx:336-390 | on success the tagged list is shown and then resolved, the stripped list becomes the copy, the unsaved flag clears, and, with distinct ids, the store holds the edited list; on failure nothing changes |
| ReportsPage.ReportPage.SaveAndExit | app/reports/page.tsx:392-447 | as Save, and on success edit mode ends |
| ReportsPage.ReportPage.SaveModalEdit | app/reports/page.tsx:147-205 | as Save, and on success the detail dialog closes |
| ReportsPage.ReportPage.SaveToHistory | app/reports/page.tsx:85-122 | once archived, the cleared list is stored and becomes both list and copy; otherwise nothing changes; the index, selection, modal and answer are never touched |
| ReportsPage.ReportPage.VoiceInput | app/reports/page.tsx:561-591 | a summary replaces that report's three texts and marks the page unsaved; a failure changes nothing |
| ReportsPage.ReportPage.UpdateReport | app/reports/page.tsx:501-504 | the field changes locally and the page is unsaved; only the list and the unsaved flag may change |
| ReportsPage.ReportPage.AddReport | app/reports/page.tsx:506-523 | an empty report is appended and becomes the current one; only the list, the index and the unsaved flag may change |
| ReportsPage.ReportPage.ConfirmDeleteReport | app/reports/page.tsx:534-557 | the report leaves the local list; the index is 0 for an empty list or a deleted first position, else one less; only the list, the index and the unsaved flag may change |
| ReportsPage.ReportPage.ConfirmLongPressDelete | app/reports/page.tsx:247-253 | the report leaves the local list; the index is kept; only the list and the unsaved flag may change |
| ReportsPage.ReportPage.AskQuestion | app/reports/page.tsx:261-308 | a blank question leaves the answer alone; otherwise it is cleared and then set to the answer when one comes; nothing but the answer changes |
| ReportsPage.HasContent | app/reports/page.tsx:352 | `currentTrial \|\| progress \|\| result`: some text is non-empty |
| ReportsPage.NeedsTeaser | app/reports/page.tsx:343-352 | `(isNew \|\| isChanged) && hasContent`: no original with that id, or one of the three texts differs, and some text is non-empty |
| ReportsPage.TagPlaceholders | app/reports/page.tsx:342-356 | `reportsWithTempTeasers`; stated by `ReportsPage.TagThenStrip` and `ReportsPage.TaggedNeedsTeaser` |
| ReportsPage.StripPlaceholders | app/reports/page.tsx:359-365 | `reportsToSave`: the placeholder teaser is dropped; stated by `ReportsPage.TagThenStrip` |
| ReportsPage.ChangedReports | app/reports/page.tsx:455-465 | `changedReports`; stated by `ReportsPage.ChangedReportsExactly` |
| ReportsPage.FirstFilled | app/reports/page.tsx:490 | `currentTrial \|\| progress \|\| result \|\| ''` |
| ReportsPage.Resolved | app/reports/page.tsx:477-491 | the report with the generated teaser, or with the fallback teaser when generation threw |
| ReportsPage.StoreAfterPass | app/reports/page.tsx:474-496 | the store after the pass: each step saves `current` with one report replaced; stated by `ReportsPage.TeaserPassKeepsStore` |
| ReportsPage.WithoutReport | app/reports/page.tsx:538 | `prev.filter((r) => r.id !== id)`; stated by `ReportsPage.WithoutReportExactly` |
| ReportsPage.IndexAfterDelete | app/reports/page.tsx:540-550 | 0 for an empty list or a deleted first index, else the index before; in range by `ReportsPage.IndexAfterDeleteInRange` |
| ReportsPage.NewReport | app/reports/page.tsx:507-514 | `report-${Date.now()}` with every text empty and no teaser |
| IdeasPage.StrLtIrreflexive | app/ideas/page.tsx:38 | no string sorts before itself |
| IdeasPage.StrLtAsymmetric | app/ideas/page.tsx:38 | the order is asymmetric |
| IdeasPage.NotLessTransitive | app/ideas/page.tsx:38 | "not before" is transitive |
| IdeasPage.StrLtTotal | app/ideas/page.tsx:38 | strings neither of which sorts first are equal |
| IdeasPage.InsertByCreated | app/ideas/page.tsx:38 | insertion adds exactly one idea |
| IdeasPage.SortByCreatedDesc | app/ideas/page.tsx:38 | sorting is a permutation |
| IdeasPage.InsertByCreatedSorted | app/ideas/page.tsx:38 | insertion keeps the list newest first |
| IdeasPage.SortByCreatedSorted | app/ideas/page.tsx:38 | the sorted list is newest first |
| IdeasPage.InsertByCreatedStable | app/ideas/page.tsx:38 | insertion keeps the order of ideas created at the same time |
| IdeasPage.SortByCreatedStable | app/ideas/page.tsx:38 | ideas created at the same time keep their fetched order |
| IdeasPage.IdeasOfExactly | app/ideas/page.tsx:146-147 | a member's ideas are exactly those with that member id |
| IdeasPage.FilteredIdeasShows | app/ideas/page.tsx:143-147 | `'all'` shows everything, `'my'` with a login shows the current member's ideas, anything else the selected member's |
| IdeasPage.MyIdeasCountIsMyView | app/ideas/page.tsx:150-152 | the count is the size of the `'my'` view when logged in, and 0 otherwise |
| IdeasPage.OptionalText | app/ideas/page.tsx:98 | `s.trim() \|\| undefined`: absent exactly for blank text, otherwise the trimmed text |
| IdeasPage.FindMember | app/ideas/page.tsx:84 | a listed member with that id, or none exists |
| IdeasPage.FindIdea | app/ideas/page.tsx:93 | a listed idea with that id, or none exists |
| IdeasPage.ReplaceIdea | app/ideas/page.tsx:102 | replacing keeps the list length |
| IdeasPage.EditInPlace | app/ideas/page.tsx:90-102 | an edit keeps the idea's id, creation time and position, takes the form's member id, the member's name, the trimmed texts, the optional reason (absent when blank) and the new time, and leaves the others |
| IdeasPage.EditVanished | app/ideas/page.tsx:90-102 | editing an id no longer listed leaves the list as it was |
| IdeasPage.AddFirst | app/ideas/page.tsx:104-117 | a new idea goes first with a clock-based id, the form's member id, the member's name, the trimmed name and content and the optional reason (absent when blank); `createdAt` and `updatedAt` are two separate clock readings |
| IdeasPage.WithoutIdeaExactly | app/ideas/page.tsx:133 | the delete keeps exactly the ideas with other ids |
| IdeasPage.SaveResultCases | app/ideas/page.tsx:77-127 | rejected for blank name or content, then for an unknown member; saved exactly when both are non-blank, the member exists and the write succeeds |
| IdeasPage.IdeaBoard.constructor | app/ideas/page.tsx:12-25 | empty lists, empty form, nothing being edited |
| IdeasPage.IdeaBoard.LoadData | app/ideas/page.tsx:31-46 | members from the store; fetched ideas sorted newest first as a permutation; a failed fetch keeps the list |
| IdeasPage.IdeaBoard.Save | app/ideas/page.tsx:77-127 | the outcome follows the checks; only a successful save changes the list and closes the form |
| IdeasPage.IdeaBoard.Delete | app/ideas/page.tsx:129-140 | only a confirmed, successful delete removes exactly the ideas with that id; nothing but the idea list changes |
| IdeasPage.StrLt | app/ideas/page.tsx:38 | code-unit order, the comparison behind `localeCompare`; a strict total order by `IdeasPage.StrLtIrreflexive`, `IdeasPage.StrLtAsymmetric`, `IdeasPage.NotLessTransitive` and `IdeasPage.StrLtTotal` |
| IdeasPage.IdeasOf | app/ideas/page.tsx:146-147 | `ideas.filter(idea => idea.memberId === id)`; stated by `IdeasPage.IdeasOfExactly` |
| IdeasPage.FilteredIdeas | app/ideas/page.tsx:143-147 | `filteredIdeas`; stated by `IdeasPage.FilteredIdeasShows` |
| IdeasPage.MyIdeasCount | app/ideas/page.tsx:150-152 | `myIdeasCount`; stated by `IdeasPage.MyIdeasCountIsMyView` |
| IdeasPage.EditedIdea | app/ideas/page.tsx:92-100 | the found idea with the form's trimmed texts, member, optional reason and a new `updatedAt`; stated by `IdeasPage.EditInPlace` |
| IdeasPage.NewIdea | app/ideas/page.tsx:106-115 | the new idea, from three clock readings; stated by `IdeasPage.AddFirst` |
| IdeasPage.SavedIdeas | app/ideas/page.tsx:90-117 | the list after a successful save; stated by `IdeasPage.EditInPlace`, `IdeasPage.EditVanished` and `IdeasPage.AddFirst` |
| IdeasPage.WithoutIdea | app/ideas/page.tsx:133 | `prev.filter(i => i.id !== id)`; stated by `IdeasPage.WithoutIdeaExactly` |
| IdeasPage.SaveResult | app/ideas/page.tsx:77-127 | the outcome of `handleSave`'s checks; stated by `IdeasPage.SaveResultCases` |
| NormalizeMembers.CleanUrl | scripts/normalize-members.ts:27-31 | a non-`blob:` string is kept; anything else becomes `''` |
| NormalizeMembers.StrOr | scripts/normalize-members.ts:33-36 | `null`/`undefined` give the fallback; a string is kept |
| Values.TruthyDisplayNonEmpty | scripts/normalize-members.ts:48 | a truthy value never displays as `''` |
| Values.Truthy | lib/firestore.ts:53-62 | JavaScript truthiness of a stored value: `''`, `0`, `false` and `null` are falsy; `OrElse` and `Values.TruthyDisplayNonEmpty` state its use |
| Values.Display | scripts/normalize-members.ts:33-36 | `String(v)` of a string, number, boolean or `null`; a truthy value never displays as `''` (`Values.TruthyDisplayNonEmpty`) |
| Values.Trim | app/ideas/page.tsx:78 | `s.trim()`; what it keeps and drops is stated by `Values.TrimShape`, `Values.TrimDropsOnlyWhitespace` and `Values.BlankIffAllWhitespace` |
| Values.TrimStart | app/ideas/page.tsx:78 | `trimStart`: a suffix of the input that does not start with whitespace, with only whitespace dropped |
| Values.TrimEnd | app/ideas/page.tsx:78 | `trimEnd`: a prefix of the input that does not end with whitespace, with only whitespace dropped |
| Values.ParseInt | app/page.tsx:73 | `parseInt(s, 10)` with `NaN` as none: leading whitespace, an optional sign, then the longest digit run; stated by `Values.ParseDigits`, `Values.ParseNegative`, `Values.ParseZerosThenSign` and `Values.DigitPrefix` |
| Values.ToLower | contexts/AuthContext.tsx:41 | `toLowerCase` on ASCII letters; idempotent by `Auth.ToLowerIdempotent` |
| Values.Filter | app/page.tsx:122 | `Array.filter`: no longer than the input; membership and order are stated by `Values.FilterExactly`, `Values.FilterAppend` and `Values.FilterPrepend` |
| Values.NatToString | app/page.tsx:77 | `String(n)` for a natural: non-empty digits without leading zeros that read back as `n` (`Values.NatToStringRoundTrip`) |
| Values.Prefix | lib/gemini.ts:133-135 | `substring(0, n)`: the first `n` characters, or the whole string when shorter |
| NormalizeMembers.NormalizedKeysExactly | scripts/normalize-members.ts:47-67 | the record has exactly the 13 schema keys; nothing is left undefined |
| NormalizeMembers.NormalizedIdAndTimes | scripts/normalize-members.ts:48-61 | the id falls back to the document id; `createdAt` is kept when truthy; `updatedAt` is the run's time |
| NormalizeMembers.NormalizedBirthdate | scripts/normalize-members.ts:52 | `birthdate` wins whenever it is present and not `null`, even when empty; else `birthDate`; else `''` |
| NormalizeMembers.NormalizedTexts | scripts/normalize-members.ts:49-58 | texts are kept as strings or become `''`; images are never `blob:` URLs |
| NormalizeMembers.NormalizeIdempotent | scripts/normalize-members.ts:45-72 | normalising a normalised document with the same clock changes nothing |
| NormalizeMembers.NormalizedRecordFixed | scripts/normalize-members.ts:47-62 | a normalised document yields the same record again |
| NormalizeMembers.NormalizedTextFixed | scripts/normalize-members.ts:47-62 | the same, key by key |
| NormalizeMembers.TextOfWritten | scripts/normalize-members.ts:47-62 | a document holding the normalised text under a key normalises to it again |
| NormalizeMembers.Run | scripts/normalize-members.ts:38-75 | each snapshot document is merged with its record in order, and the count is the number of documents |
| NormalizeMembers.RunNormalizesEach | scripts/normalize-members.ts:38-75 | the run keeps the same documents, each the merge of what it held with its normalised record |
| NormalizeMembers.RunOrderIrrelevant | scripts/normalize-members.ts:43-45 | the snapshot order does not change the result |
| NormalizeMembers.NormalizedMember | scripts/normalize-members.ts:47-67 | the `normalized` record; stated by `NormalizeMembers.NormalizedKeysExactly`, `NormalizeMembers.NormalizedIdAndTimes`, `NormalizeMembers.NormalizedBirthdate` and `NormalizeMembers.NormalizedTexts` |
| NormalizeReports.Str | scripts/normalize-reports.ts:23 | a string is kept; `null`/`undefined` give `''` |
| NormalizeReports.StrIsStrOrEmpty | scripts/normalize-reports.ts:23 | it agrees with the member script's `str(v, '')` |
| NormalizeReports.NormalizedKeysExactly | scripts/normalize-reports.ts:34-42 | the record has exactly the six schema keys |
| NormalizeReports.NormalizedFields | scripts/normalize-reports.ts:34-41 | the id falls back to the document id; texts are kept or become `''`; `updatedAt` is the run's time |
| NormalizeReports.NormalizeKeepsOtherFields | scripts/normalize-reports.ts:43 | merge keeps fields outside the schema, such as a teaser |
| NormalizeReports.ReadAfterNormalize | scripts/normalize-reports.ts:34-43 | the app reads a normalised document as the normalised texts |
| NormalizeReports.NormalizeIdempotent | scripts/normalize-reports.ts:32-46 | normalising twice with the same clock is normalising once |
| NormalizeReports.NormalizedRecordFixed | scripts/normalize-reports.ts:34-41 | a normalised document yields the same record again |
| NormalizeReports.TextOfWritten | scripts/normalize-reports.ts:34-41 | a document holding the normalised text under a key normalises to it again |
| NormalizeReports.Run | scripts/normalize-reports.ts:25-49 | each snapshot document is merged with its record in order, and the count is the number of documents |
| NormalizeReports.RunNormalizesEach | scripts/normalize-reports.ts:25-49 | the run keeps the same documents, each the merge of what it held with its normalised record |
| NormalizeReports.NormalizedReport | scripts/normalize-reports.ts:34-42 | the `normalized` record; stated by `NormalizeReports.NormalizedKeysExactly` and `NormalizeReports.NormalizedFields` |
| SeedReports.SeedNicknameCases | scripts/seed-reports.ts:33-38 | a non-blank string nickname wins, else a truthy name as text, else the document id |
| SeedReports.SeedNicknameNonEmpty | scripts/seed-reports.ts:38 | the seeded nickname is never empty |
| SeedReports.SeededReportReadsBack | scripts/seed-reports.ts:36-43 | the app reads a seeded report as that id and nickname with empty texts, whatever was stored |
| SeedReports.Run | scripts/seed-reports.ts:23-48 | one report merge per member document, in snapshot order, counted |
| SeedReports.RunSeedsEach | scripts/seed-reports.ts:23-48 | afterwards every member has a report reading as its nickname with empty texts, and other reports are untouched |
| SeedReports.SeedNickname | scripts/seed-reports.ts:33-38 | `String(nickname \|\| id)`; stated by `SeedReports.SeedNicknameCases` and `SeedReports.SeedNicknameNonEmpty` |
| SeedReports.SeedRecord | scripts/seed-reports.ts:36-43 | the merged report: id, nickname, three empty texts and the run's `updatedAt`; stated by `SeedReports.SeededReportReadsBack` |

## Left out

- Network and SDK failures other than "Firebase not configured" are not modelled: every configured Firestore and Storage call succeeds. The pages' `catch` branches are modelled only where the failure is an input: a `Failed` outcome, a `None` reply, or a `saveOk`/`deleteOk` flag.
- Floating point: embeddings are integer vectors, and `cosineSimilarity` returns the dot product and both squared norms instead of the quotient.
- Gemini.CosineSimilarity: returns the three sums rather than `dot / (sqrt(normA) * sqrt(normB))`. The bound in [-1, 1] is stated as Cauchy-Schwarz on those sums.
- Gemini.SearchSimilarTexts: the score is a parameter (a function of the three sums), because the float quotient is not modelled. The ranking is proved for any such score.
- Concurrency and timing are not modelled:
  - `Promise.all`, `setTimeout`, the 100 ms minimum spinner time, and the 100 ms delay before the second long-press dialog;
  - the interleaving of the background teaser pass with later edits.
- ReportsPage.ReportPage.Save: the background teaser pass is modelled as running to completion right after the save, so a later edit during the pass is not modelled.
- The page wrappers in `lib/gemini-client.ts` post to an API route. The model uses the corresponding `lib/gemini.ts` functions directly, with the model's reply as a parameter. The one exception is the teaser pass of `ReportsPage.ReportPage.Save` and `ReportsPage.ReportPage.GenerateTeasers`: it takes the teaser generator as a free `generate` function, whose replies the model does not constrain.
- The idea store (`getIdeas`, `saveIdea`, `deleteIdea`) and the report history (`saveReportsToHistory`, `getReportsHistoryList`, `getReportsHistory`, `getAllEmbeddings`) are imported by the pages but not defined in `lib/firestore.ts`. They are not part of this model: their results are parameters.
- `handleViewHistory`, `loadHistoryList`, the detail dialog's open/close, long-press timers, `handleAddClick`/`handleEditClick` (they only fill the form) and all rendering are UI state, and are left out.
- Firestore.Store.GetMembers and Firestore.Store.GetReports: the order of the returned list is not stated (Firestore orders by document id), only that each stored document appears once.
- The scripts take a snapshot as a parameter. The source reads `new Date()` once per document; the model takes one `now` for the whole run.
- The scripts' console logging, `process.exit`, `dotenv` and the Firebase configuration are left out.
- JavaScript numbers beyond 2^53, and characters outside the Basic Multilingual Plane (`length` counts UTF-16 units, the model counts characters), are not modelled.
- `localeCompare` is modelled as code-unit order. `toLowerCase` is modelled for ASCII letters only.
- `String(v)` of objects and arrays is not modelled: stored values are strings, numbers, booleans or `null`.
- Firestore.ReadMember: every stored value that is neither a string nor null is read as its `String(v)` text: a truthy number or boolean in a text field (`5` becomes `"5"`), and any number or boolean in an image field, falsy `0` and `false` included (they become `Some("0")` and `Some("false")`). The source keeps the raw value behind its `string` type, and `saveMember` writes that raw value back. The model's member fields are strings, so a later save writes the text instead.
- Firestore.Store.GetMembers and Firestore.Store.GetMember: they read through `Firestore.ReadMember`, so numbers and booleans come back as text.
- MembersPage.HomePage.LoadMembers: it lists what `getMembers` returns, so numbers and booleans come back as text.
- Gemini.SummarizeReport: a truthy number or boolean in the parsed summary is returned as its `String(v)` text, where the source keeps the raw value.
- `JSON.parse` is a parameter that returns a document or fails.
- Storage.Bucket.UploadImage: the download URL is modelled as the storage path.
- Storage.Bucket.DeleteImage: `deleteObject` on a missing object (which throws) is modelled as a no-op.
- Math.max of a very long list (the argument-spread limit) is not modelled.
- A second `confirmAction` while a dialog is open replaces it; re-entrant confirmation callbacks are not modelled.
- The toast id comes from `Math.random` and is a parameter of `ShowToast`.
