# Broken-promise issue tracker: a Dafny model

This project models the core of a small issue tracker for "broken promises". The server
keeps one table of issues (`{ issues: [...] }` in a JSON file). Its four route handlers
list the table, append a new issue with the next id, merge an update body over the first
issue with a given id, and delete every issue with a given id. The browser client escapes
text for HTML, turns a status into a label, and keeps an add/edit mode that decides
whether the issue form is sent as a POST or a PUT.

Modules:

- `Wrappers` (`wrappers.dfy`): `Option`. It stands for a JavaScript `undefined`/`null`,
  for a path id that `parseInt` turns into `NaN`, and for a field that a body leaves out.
- `Issues` (`issues.dfy`): the `Issue` record, the create and update bodies, and the pure
  sub-expressions the handlers use: `NextId` (max + 1, or 1), `FirstMatch` (`findIndex`),
  `Merge` (`{ ...stored, ...body, id }`) and `Without` (`filter`). It also holds the
  lemmas about them: ids stay unique, the filter keeps order, and a miss leaves the
  table unchanged.
- `Server` (`server.js`, `server.dfy`): the class `Data` is the object `readData` returns.
  Its methods change `issues` in place, as the handlers do (push, indexed assignment,
  reassignment with a filtered array). The four handler methods take the data file as a
  parameter: `None` means it cannot be read or parsed, `Some(s)` means it holds `s`. A flag
  `writeOk` says whether writing it back succeeds. Each handler returns the response and
  the file as it is afterwards.
- `Client` (`public/js/app.js`, `client.dfy`): `EscapeHtml`, `FormatStatus`, `Trim`, and
  the class `FormMode`, which holds the globals `isEditMode`/`editingIssueId` and has the
  Add handler, `editIssue` and `handleFormSubmit` as methods.

Points of the code the model keeps:

- `status` is a `string`, not an enumeration. The update route stores any string the
  body carries (server.js:85-89).
- `datePromised` is a string. Both sides only pass it through.
- The update route changes only the first issue with the id (server.js:79, 85). The
  delete route removes every issue with it (server.js:105).
- The server has no per-issue GET route. The client's request for `/api/issues/:id` in
  `editIssue` (public/js/app.js:143) reaches the catch-all page route
  (server.js:119-121). The model turns the outcome of that request into the parameter
  `detailOk`.

## Model

| member | source | states |
|---|---|---|
| `Issues.MaxId` | server.js:58 | the result is at least every id in the non-empty table and equals one of them |
| `Issues.Matches` | server.js:79 | an issue matches exactly when the parsed id is present and equal to its id; an unparseable (`NaN`) id matches nothing |
| `Issues.NewIssue` | server.js:57-63 | the created issue's id is above every stored id, its status is "pending", and title, description and date come from the body |
| `Issues.NextId` | server.js:58 | 1 for an empty table; otherwise strictly above every existing id and exactly one more than some existing id (so max + 1) |
| `Issues.FirstMatch` | server.js:78-81 | `None` exactly when no issue matches the parsed id (a `NaN` id matches none); otherwise an in-range index that matches and has no match before it |
| `Issues.Without` | server.js:105 | never longer than the table; every kept issue comes from the table and does not match the id |
| `Issues.WithoutAppend` | server.js:105 | filtering distributes over concatenation, so relative order is kept |
| `Issues.WithoutSingle` | server.js:105 | on one issue, the filter keeps it exactly when it does not match |
| `Issues.WithoutKeepsOthers` | server.js:105 | every issue whose id differs from the target survives the filter |
| `Issues.WithoutRemovesNothingIff` | server.js:103-109 | the length is unchanged exactly when no issue matches, and then the table is returned unchanged |
| `Issues.WithoutKeepsIdsUnique` | server.js:105 | filtering keeps ids unique |
| `Issues.CreateKeepsIdsUnique` | server.js:57-65 | appending the created issue keeps ids unique |
| `Issues.Merge` | server.js:85-89 | the merged issue carries the pinned id; a body with none of the four fields changes nothing but the id |
| `Issues.MergeKeepsId` | server.js:85-89 | when the lookup matched, the merged issue keeps the stored id |
| `Issues.MergeIsShallow` | server.js:85-89 | the id is the pinned one, whatever the body says; each field present in the body replaces the stored value; each absent field keeps it |
| `Issues.ReplaceKeepsIdsUnique` | server.js:85 | replacing one issue by one with the same id keeps ids unique |
| `Server.ReadIssues` | server.js:23-31 | the stored issues when the file can be read and parsed, otherwise an empty table |
| `Server.Data.Read` | server.js:23-31 | the data object holds the stored issues, or none when the file cannot be read or parsed |
| `Server.Data.Create` | server.js:57-65 | the new issue has the next id, the body's title, description and date, and status "pending"; the table is the old one plus that issue at the end |
| `Server.Data.Update` | server.js:78-89 | on a miss, nothing changes and there is no result; otherwise only the first matching slot is replaced by the merge with the id re-pinned, and that merged issue is returned |
| `Server.Data.Delete` | server.js:102-107 | the table becomes the filter of the old one; "removed" holds exactly when some issue matched; without a match the table is unchanged |
| `Server.GetIssues` | server.js:44-51 | status 200 with the stored issues in order, or an empty list when the file cannot be read |
| `Server.PostIssue` | server.js:54-72 | on a successful write: 201 and the file becomes the old table plus the new issue. The new id is above every stored id, the status is "pending" and the fields come from the body. A failed write gives 500 and keeps the file. Ids stay unique |
| `Server.PutIssue` | server.js:75-96 | a miss gives 404 and keeps the file; a hit with a successful write rewrites only the first matching slot with the merge and returns it, with the path's id; a hit with a failed write gives 500 and keeps the file; ids stay unique |
| `Server.DeleteIssue` | server.js:99-116 | if no issue has the id: 404 and the file is kept; otherwise a successful write removes every issue with the id and keeps the rest in order, and a failed write gives 500 and keeps the file; ids stay unique |
| `Client.ReplaceAll` | public/js/app.js:260-264 | a global one-character replace; every output character is either an input character other than the pattern or a character of the replacement; with no occurrence the string is unchanged |
| `Client.ReplaceSpecials` | public/js/app.js:259-264 | after the five replacements no `<`, `>`, `"` or `'` is left |
| `Client.EscapeHtml` | public/js/app.js:257-265 | "" for an absent or empty argument; the output never contains `<`, `>`, `"` or `'` |
| `Client.ReplaceSpecialsChar` | public/js/app.js:260-264 | on one character the five replacements give that character's entity (the ampersand is replaced first, so no entity is escaped twice) |
| `Client.EscapeHtmlIsCharMap` | public/js/app.js:259-264 | `escapeHtml` equals the per-character map `&`→`&amp;`, `<`→`&lt;`, `>`→`&gt;`, `"`→`&quot;`, `'`→`&#039;`, everything else unchanged |
| `Client.EscapeHtmlRoundTrip` | public/js/app.js:259-264 | decoding the five entities after `escapeHtml` gives back the original string |
| `Client.UpperAscii` | public/js/app.js:254 | the result is never a lower-case ASCII letter; `a`-`z` map to `A`-`Z`; every other character is unchanged |
| `Client.IndexOf` | public/js/app.js:254 | `None` exactly when the character is absent; otherwise its first position |
| `Client.ReplaceFirst` | public/js/app.js:254 | with no occurrence the string is unchanged; otherwise exactly the first occurrence is replaced |
| `Client.FormatStatus` | public/js/app.js:252-255 | "Pending" for an absent or empty status; otherwise the same length with the first character upper-cased |
| `Client.FormatStatusLabels` | public/js/app.js:252-255 | "pending" → "Pending", "resolved" → "Resolved" |
| `Client.FormatStatusHyphen` | public/js/app.js:254 | after the first character, exactly the first `-` becomes a space; with no `-` the rest is unchanged |
| `Client.FormatStatusFirstHyphen` | public/js/app.js:254 | for any first character, hyphen-free prefix and any rest, only the hyphen after the prefix becomes a space; later hyphens stay |
| `Client.FormatStatusExamples` | public/js/app.js:254 | "in-progress" → "In progress"; "a-b-c" → "A b-c" |
| `Client.IsSpace` | public/js/app.js:200-201 | space, tab, line feed and carriage return are white space; no visible ASCII character is |
| `Client.SkipSpaces` | public/js/app.js:200-201 | the first position at or after the start that is not white space (or the end), with only white space before it |
| `Client.SkipSpacesBack` | public/js/app.js:200-201 | the end of the text once trailing white space is dropped, with only white space after it and a non-space character just before it |
| `Client.Trim` | public/js/app.js:200-201 | the result is the piece of the input that starts at the first non-space character; only white space lies before and after it, and it neither starts nor ends with white space |
| `Client.TrimIdempotent` | public/js/app.js:200-201 | trimming twice is trimming once |
| `Client.FormUpdateReplacesFields` | public/js/app.js:199-217 | a PUT sent from the form carries all four fields, so merging it replaces title, description, date and status and keeps the id |
| `Client.FormMode.constructor` | public/js/app.js:15-16 | the page starts in add mode with no issue being edited |
| `Client.FormMode.AddClicked` | public/js/app.js:107-109 | after the Add button the mode is (false, null) |
| `Client.FormMode.EditIssue` | public/js/app.js:141-171 | edit mode with that id is entered exactly when both fetches succeed and the list holds an issue with the id; the form is filled with the first such issue; otherwise the mode is unchanged |
| `Client.FormMode.Submit` | public/js/app.js:196-227 | PUT to `/id` of the edited issue in edit mode, POST to the collection in add mode; title and description are trimmed, date and status are sent as typed |

## Left out

- Express wiring: middleware, CORS, environment loading, static files, the catch-all page
  route and `listen`. These are framework plumbing.
- File I/O and JSON (de)serialisation. The file is a parameter of the handlers (`None`
  when unreadable or unparseable), and a write is the `writeOk` flag. A failed write is
  modelled as leaving the file as it was. A partially written file is not modelled.
- A parsed file without an `issues` array. The create, update and delete routes then
  throw and answer 500, and the list route answers with no array.
- Keys of a request body other than the five issue fields. Fields whose JSON value is not
  a string (numbers, `null`) are also left out. Update-body fields are `Option<string>`.
- Server.Data.Create: a create body is taken to carry title, description and date as
  strings. A body that leaves one out stores an issue without that key; the model does
  not express that case.
- `parseInt`'s reading of the path segment. The handlers take its result as
  `Option<int>`, with `None` for `NaN`.
- Server.Data.Create: ids are unbounded integers. JavaScript numbers lose precision above
  2^53. `Math.max(...ids)` also throws on very large tables. Neither is modelled.
- The lost update between concurrent requests (each handler reads, changes and rewrites
  the whole file). It is about concurrency, and the code makes no promise about it.
- All `fetch`/promise handling, `alert`/`confirm`, the modal, and DOM rendering
  (`renderIssues`, `setupEventListeners`, `openModal`, `closeModal`). The outcomes of the
  two fetches in `editIssue` become its parameters `detailOk` and `listing`.
- Client.FormMode.EditIssue: edit mode is set before the form is filled. Filling it
  formats the date, which throws on an unparseable date; the client then shows an alert,
  edit mode stays on and the form is not shown. The model's mode outcome matches this,
  but it does not model that the form then stays unfilled.
- `deleteIssue` in the client. It only confirms, sends a DELETE and refreshes, and it
  touches no modelled state.
- Date handling (`formatDate`, `formatDateForInput`, the "days since oldest promise"
  figure, the footer date). It depends on `Date` parsing, the locale and the clock.
- Client.FormatStatus: only ASCII letters are upper-cased. JavaScript's `toUpperCase`
  also maps other letters and can lengthen one (`ß` becomes `SS`). The model works on
  characters, not UTF-16 code units.
- Client.EscapeHtml: the `!unsafe` test is modelled for strings only (absent or empty).
  Other falsy values such as `0` are not.
- Request URLs are the `Target` values `Collection` and `Item(id)` rather than rendered
  strings.
