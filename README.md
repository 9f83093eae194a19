# Question-tracker bookkeeping, modelled in Dafny

This project models the bookkeeping rules of the LeetCode progress tracker's
`script.js`, a browser dashboard. An admin curates a shared catalog of
practice questions. Each user ticks questions off in a personal list of
completed ids. The rules sit inside DOM and Firebase callbacks in the
source; here they are standalone functions, methods and a class over plain
values:

- `Identity` (identity.dfy): `isAdmin`, `getUsernameFromEmail`, and the
  session variables `currentUser`, `currentUserName` and `currentUserRole`.
  These are a `Session` class whose `SignIn`/`SignOut` methods are the two
  branches of the auth-state listener.
- `Catalog` (catalog.dfy): the store's id-to-record map turned into an array
  of `{id, ...record}` entries. Also the todo/completed split of
  `loadUserQuestions`, and the admin's per-user line in `loadUserProgress`
  (the "n/m completed" figures, the 15-character abridged names and the
  ticks).
- `Completion` (completion.dfy): the list logic of
  `toggleQuestionCompletion`. A write is `Some(newList)`; the early return
  that writes nothing is `None`.
- `Store` (store.dfy): `deleteQuestion`'s cleanup. The `forEach` that fills
  `updates` is a loop method, `CleanupUpdates`, proved equal to the
  specification function `CleanupOf`. `progressRef.update` is
  `ApplyUpdates`. A stored progress value may be a list, a falsy value, a
  string or some other value; each is read and toggled the way `script.js`
  handles it. A failed read, which hands the toggle `[]`, is modelled
  separately. The catalog views read only list or falsy values. A
  consistency invariant says every progress value is a list (or falsy) and
  every id in every list names an existing question. Deleting a question
  preserves it, and so does toggling a question that exists.
- `Authoring` (authoring.dfy): `addQuestion`'s validation and record
  construction, with refusals as a `Result`.
- `Text` (text.dfy), `Seqs` (seqs.dfy), `Wrappers` (wrappers.dfy):
  JavaScript's `trim`, `split` and `startsWith`, `Array.prototype.filter`
  with its order and count facts, and Option/Result.

The store is modelled as two maps, `questions` and `progress`, passed in and
returned. `Object.keys` order is an explicit argument: the sequence of keys
the store delivered, each key once (`IsKeyOrder`). Trimming uses the exact
set of characters ECMAScript's `trim` removes: WhiteSpace and
LineTerminator, with the Unicode space separators U+0020, U+00A0, U+1680,
U+2000–U+200A, U+202F, U+205F and U+3000.

Some consequences of following the code as written:

- A user's completed ids are an ordered list that may be appended to.
- Difficulty is whatever string the form field holds.
- Tags are a sequence, in input order.
- `getUsernameFromEmail` takes the text before the first `.`, even though
  its comment says it strips the `@domain` part. For example,
  `a@b.com` gives `a@b`.

## Model

| member | source | states |
|---|---|---|
| Identity.IsAdmin | script.js:27-29 | only the exact admin address is the admin; a missing email never is |
| Identity.RoleOf | script.js:48 | the role is admin iff the email is exactly the one hard-coded admin address; a missing email is a user |
| Identity.AdminIsUnique | script.js:27-29 | two emails that both get the admin role are the same address |
| Identity.UsernameFromEmail | script.js:32-37 | `"user"` for a missing or empty email; otherwise a prefix of the email with no `.`, which is followed by `.` in the email or is the whole email |
| Identity.UsernameBeforeDot | script.js:35 | when the first `.` is at index k, the username is the first k characters |
| Identity.AdminUsername | script.js:35 | whichever email `isAdmin` accepts yields the username `shreyansh` |
| Identity.Session.constructor | script.js:23-25 | the page starts with user, name and role all unset |
| Identity.Session.SignIn | script.js:45-48 | sign-in sets the user, the name derived from the email and the role `admin`/`user` from `isAdmin`, keeping the three consistent |
| Identity.Session.SignOut | script.js:82-84 | sign-out clears all three session variables together |
| Identity.Session.IsAdminSession | script.js:58 | in a consistent session, the admin dashboard is chosen iff the signed-in email is the admin address |
| Catalog.ToArray | script.js:194-197 | one entry per store key, in `Object.keys` order; each entry's `id` is its key and carries the record stored under it; as many entries as keys |
| Catalog.Partition | script.js:369-370 | a question is completed iff its id is in the user's list and todo otherwise; the two parts together hold every question exactly once, and each keeps catalog order |
| Catalog.PartitionDisjoint | script.js:369-370 | no question is both todo and completed |
| Catalog.CompletedSize | script.js:370 | with distinct catalog ids, the completed part has one entry per catalog id in the user's list |
| Catalog.ProgressCountAgreesWithTicks | script.js:329-336 | while the user's list is duplicate-free and names only catalog questions, the "n" of "n/m completed" equals the number of ticked questions and is at most "m" |
| Catalog.ProgressCount | script.js:329 | "n" is the length of the user's list, duplicates and stale ids included, and "m" is the number of questions; "n" is never less than the number of ticked questions |
| Catalog.DanglingIdOvercounts | script.js:329-336 | if the user's list holds an id that is not in the catalog, the "n" shown is strictly more than the number of ticked questions |
| Catalog.DisplayName | script.js:339 | names of at most 15 characters are shown whole; longer ones as their first 15 characters followed by `...` |
| Catalog.DisplayNameFaithfulWhenShort | script.js:339 | a name of at most 15 characters is shown as itself, so no other name displays like it |
| Catalog.Marks | script.js:335-343 | the admin's line has one mark per catalog question, in order, captioned by the abridged name and ticked iff the question is in the user's completed part |
| Completion.RemoveId | script.js:465 | the filtered list has no occurrence of the id, keeps every other id as often as before, and keeps their order |
| Completion.RemoveIdIdempotent | script.js:465 | removing the id twice equals removing it once |
| Completion.RemoveAbsentId | script.js:465 | removing an id the list lacks returns the list unchanged |
| Completion.Toggle | script.js:452-465 | nothing is written iff marking complete an id already listed; marking an absent id writes the old list with the id appended; unmarking writes the list filtered by `RemoveId`, so other ids keep their order and counts; afterwards the id is listed iff `completed`, and every other id is listed iff it was before |
| Completion.MarkAppends | script.js:455-456 | marking an absent id gives the old list, unchanged and in order, with the id appended last |
| Completion.ToggleIdempotent | script.js:453-465 | toggling to the same state twice equals toggling once; a second "complete" writes nothing |
| Completion.UnmarkUndoesMark | script.js:455-465 | marking then unmarking an absent id restores the original list |
| Completion.ToggleKeepsNoDup | script.js:455-465 | toggling never introduces a duplicate id into a duplicate-free list |
| Store.CleanupOf | script.js:245-252 | an update entry exists exactly for users whose value is a list. Each entry lacks the deleted id, keeps every other id as often as before, and keeps their order |
| Store.CleanupUpdates | script.js:248-252 | the loop over the users builds exactly the `CleanupOf` updates |
| Store.ApplyUpdates | script.js:255 | each updated user's value becomes the new list; every other user's value is unchanged |
| Store.DeleteQuestion | script.js:237-255 | after deletion the id is in neither the catalog nor any list; the same users keep progress, non-list values are untouched, and lists keep their other ids in order |
| Store.DeletePreservesConsistency | script.js:237-255 | if every progress value is a list of catalog ids (or falsy) before a deletion, the same holds after it |
| Store.ReadProgress | script.js:157-159 | a missing or falsy value (`0`, `false`, `""`) reads as `[]`; a list, a non-empty string and any other value read as themselves |
| Store.ToggleInStore | script.js:446-473 | the catalog and other users are untouched, and no other user key appears. A list (or `[]` from a falsy value) becomes the toggled list. A string not containing the id, when marked, becomes its characters followed by the id; otherwise a string, like a value without list methods, is left as it is |
| Store.MarkOverFalsyValue | script.js:455-456 | marking over a falsy stored value, which reads as `[]`, stores the one-id list |
| Store.MarkOverStringValue | script.js:455-456 | marking `"q"` over the string `"ab"` stores `["a", "b", "q"]`; marking `"b"` finds it inside the string and writes nothing |
| Store.ToggleKeepsOtherIds | script.js:446-472 | with a successful read, toggling one id keeps every other id the user had listed |
| Store.ToggleAfterFailedRead | script.js:162-164 | when the read fails, the progress handed to the toggle is `[]`, so the user's value becomes `[id]` when marking and `[]` when unmarking, whatever was stored |
| Store.FailedReadLosesList | script.js:162-164 | after a failed read, every other id the user had listed is gone from the stored list |
| Store.TogglePreservesConsistency | script.js:446-473 | toggling a question that exists keeps every progress value a list of catalog ids (or falsy) |
| Authoring.Difficulty | script.js:495 | the difficulty is the field's value when non-empty, and `Easy` when the field is missing or empty |
| Authoring.Tags | script.js:496 | no tags when the field is missing; otherwise one tag per comma-separated piece, in input order, each trimmed |
| Authoring.TagsAreClean | script.js:496 | there is one tag more than the input has commas, and no tag contains a comma or begins or ends with white space |
| Authoring.EmptyTagsFieldGivesOneEmptyTag | script.js:496 | an empty tags field gives the single tag `""` |
| Authoring.AddQuestion | script.js:476-497 | refused as missing when the trimmed name or link is empty, and as an invalid URL when the trimmed link lacks the `http` prefix. Otherwise the record holds the trimmed name and link, the author, the date, the difficulty and the tags |
| Authoring.SavedIffValid | script.js:480-488 | a form is saved iff name and link are not all white space and the trimmed link starts with `http` |
| Authoring.SavedLinkIsTyped | script.js:478-492 | a form that passes both checks is saved, and its saved link is a contiguous part of what was typed |
| Text.Trim | script.js:477-478 | the result is empty iff the input is all white space, and otherwise begins and ends with a non-space character |
| Text.TrimIdempotent | script.js:477-478 | trimming twice equals trimming once |
| Text.TrimInside | script.js:477-478 | the trimmed string is the input with white-space runs removed from both ends |
| Text.Split | script.js:496 | a split always yields at least one piece, and no piece contains the separator |
| Text.JoinSplit | script.js:496 | joining the pieces with the separator gives back the input |
| Text.SplitLength | script.js:496 | there is one piece more than there are separators |
| Text.SplitFirst | script.js:35 | the first piece is the longest separator-free prefix of the input |
| Text.StartsWith | script.js:485 | the prefix matches the string character by character from the start |
| Text.ContainsIffOccurs | script.js:455 | a string's `includes` finds the id iff it occurs in the string as a contiguous run |
| Text.Spread | script.js:456 | spreading a string gives one one-character string per character, in order |

## Left out

- Firebase reads, writes, pushes, listeners and `off()` are left out. This
  is asynchronous I/O with a foreign service. A failed write only logs or
  alerts. `DeleteQuestion` and `ToggleInStore` describe the store when every
  read and write succeeds.
- Store.ToggleInStore: a failed progress read (or a missing store
  connection) hands `[]` to the toggle, which then overwrites the stored
  list. `ToggleInStore` assumes the read succeeded; `ToggleAfterFailedRead`
  models the failed read separately.
- Catalog.Partition: a failed catalog read hands `[]` to the loaders, which
  then show an empty catalog. The views are modelled over the catalog they
  receive, with no failure input.
- Catalog.Partition, Catalog.ProgressCount and Catalog.Marks take the
  user's progress as a list of ids. They do not model a stored string, for
  which `includes` is a substring test and `length` counts characters. Nor
  do they model a value without list methods, for which the count shows
  `undefined` and the ticks throw. Falsy values read as `[]` and are
  covered. `Store.Consistent` guarantees that every stored value is a list
  or falsy.
- The store assigns the key of a pushed question, and `saveQuestionToFirebase`
  clears the form; neither is modelled. `AddQuestion` ends with the record to
  push.
- Firebase Auth sign-in/sign-out and the `onAuthStateChanged` wiring are left
  out: these are external identity-service calls. `Session.SignIn` and
  `Session.SignOut` take the listener's two branches as explicit calls.
- `login`'s empty-field check is left out; it only guards the external
  sign-in call.
- `localStorage` persistence of email, name and role is left out: it is
  browser I/O.
- DOM construction, HTML templates, event listeners, `alert`/`confirm`, the
  show/hide functions and the empty-state messages are left out. Also left
  out: which dashboard's loaders run on a snapshot, and the two usernames
  (`shiwangi`, `nishitah`) that `loadUserProgress` hard-codes. The count
  text's decimal rendering is not modelled; `ProgressCount` gives its two
  numbers.
- The order of the asynchronous refresh calls relative to the progress write
  in `toggleQuestionCompletion` is left out. It is fire-and-forget promise
  interleaving.
- `addedDate` comes from the wall clock (`new Date().toISOString()`). It is
  an opaque parameter of `AddQuestion`, as is the author name taken from the
  session.
- Catalog.ToArray: a stored record carrying its own `id` property would
  override the key in `{ id: key, ...record }`. Records here have no such
  property, as `addQuestion` never writes one.
- Store.ApplyUpdates: the store deletes a child set to an empty array. The
  model keeps an empty list instead, which reads back the same way through
  `ReadProgress` (missing reads as `[]`).
- Store.ToggleInStore: unmarking the only listed id writes `[]` (script.js:170),
  which the store also deletes. The model keeps the user's key with an empty
  list, which reads back the same way. The same holds for
  `ToggleAfterFailedRead`.
- Catalog.DisplayName: JavaScript counts UTF-16 code units and the model
  counts characters. The two differ for names containing characters outside
  the Basic Multilingual Plane.
- Text.Trim: the Unicode space separators are those listed above, fixed at
  one Unicode version.
- Text.Spread: JavaScript spreads a string by code point; a lone surrogate,
  which a Dafny character cannot hold, is not modelled.
- Store.ReadProgress: list elements are taken to be id strings; a list
  holding numbers or other values is not modelled.

## Findings

| source | as written | input that shows it | evidently intended | confidence | as-written member | corrected member |
|---|---|---|---|---|---|---|
| script.js:162-164 | a failed progress read calls back with `[]`, and `toggleQuestionCompletion` writes its new list over the stored one | stored `["a", "b"]`, the read fails, mark `"c"`: the store then holds `["c"]` | toggle the list actually stored, keeping the other ids | not executed; high for the code path, its frequency depends on the store | Store.FailedReadLosesList | Store.ToggleKeepsOtherIds |
