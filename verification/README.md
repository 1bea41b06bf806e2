# Page persistence and versioning in codex.docs, modelled in Dafny

This project models the core of the codex.docs page store. A page has a current state and an append-only history of revisions.

- **Page entity** (`src/models/page.js`). A Page holds an optional bound `_id`, a `title`, a `body` of editor blocks, `dtCreate` and `dtModify`.
  - The title is always derived from the body. It is the text of the first block of type `"header"`, or `""`.
  - Assigning `data` merges new fields into old ones. An absent body or a falsy timestamp keeps the old value.
  - `save()` upserts the current-state record. It then appends one snapshot to the page's own revision collection, named `page:<id>`.
  - `Page.get(id, version)` resolves either the live record or the first revision whose `dtModify` equals `version`.
  - History is listed newest first. All pages are listed oldest first.
- **Pages controller** (`src/controllers/pages.js`). It validates new pages in four ordered steps, each with its own message. It stamps timestamps. It reports "Page with given id does not exist" before anything is written.

Both collections of the document store are plain values, in `PageModel.Store`:

- `pages` maps an id to its current-state record.
- `logs` maps a collection name to the revisions appended to it, oldest first.

Each operation is a pure state transition. Controller operations return an `Outcome`: the store they leave behind, plus the page or the thrown error. So "nothing was written" is stated as "the store is unchanged".

Files:

- `wrappers.dfy`: `Option` and `Result`.
- `text.dfy`: JavaScript's `trim` and first-occurrence `replace`.
- `ordering.dfy`: the sort behind the store's `sort` option.
- `page.dfy`: the Page entity.
- `pages_controller.dfy`: the controller.
- `properties.dfy`: lemmas that relate several operations.

Modelling conventions:

- Timestamps and versions are integers. `0` stands for "absent or falsy" because the code's `||` and `if (version)` cannot tell them apart. A `NaN` from `parseInt` also counts as no version.
- The clock reading `now` (`Date.now()`) is a parameter.
- The id the store assigns to a new record is a parameter, `freshId`. It must be `Fresh`: non-empty, with no record and no revision collection under it. This reflects that ids are never reused.
- A body as a caller sends it (`BodyInput`) may be absent, falsy, or lack a `blocks` array. A body a Page holds (`Body`) always has an array. This is because the `data` setter throws a TypeError on any other body before the page can be used.

Points of the code's behaviour that are easy to miss, and that the model follows:

- On insert, the stored title is the raw `blocks[0].data.text`. Only validation removes the first `<br>` and trims.
- An insert payload with a truthy `_id` binds that id. `save()` then takes its update path. If no record has that id, the update writes no record, but a revision is still appended. `PagesController.Insert` states both cases.
- `update` lets a truthy `data.dtCreate` replace the stored creation time. `PagesController.Update` states this.
- `remove` calls `page.destroy()`, which the Page class does not define because it is commented out. So for a known id the call throws a TypeError and writes nothing. `PagesController.Remove` models exactly that.

## Model

| member | source | states |
|---|---|---|
| Text.ReplaceFirst | src/controllers/pages.js:101 | `replace('<br>', '')` returns the text unchanged when it has no `<br>`. Otherwise it removes only the earliest occurrence. |
| Text.Trim | src/controllers/pages.js:101 | `trim()` returns a slice of the input with only whitespace outside it. The slice neither starts nor ends with whitespace. |
| Text.TrimEmptyIff | src/controllers/pages.js:101 | The trimmed header text is empty exactly when the text is all whitespace. |
| Ordering.SortBy | src/models/page.js:69 | The store's sort returns a permutation of the documents, ordered by the sort key. |
| PageModel.HeaderText | src/models/page.js:132-136 | The title is the text of the first block of type `"header"`. It is `""` when no block is a header. |
| PageModel.TitleOf | src/models/page.js:132-136 | `extractTitleFromBody` gives `""` when there is no body or no header block. Otherwise it gives the text of the first block of type `"header"`. |
| PageModel.SetData | src/models/page.js:104-111 | The setter throws a TypeError exactly when the body is truthy but has no `blocks` array. Otherwise the result keeps the title invariant and the id, keeps the old body when the new one is absent, and takes each timestamp only when it is truthy. |
| PageModel.Construct | src/models/page.js:83-93 | `null` gives an empty, id-less page. Otherwise the constructor throws a TypeError exactly when the body is truthy but has no `blocks` array. A truthy `_id` is bound and an empty one is not. The body comes from the data when given, else there is none. The timestamps come from the data. Every constructed page keeps the title invariant. |
| PageModel.NullLikeEmpty | src/models/page.js:83-86 | `new Page(null)` equals `new Page({})`. |
| PageModel.ConstructFromDoc | src/models/page.js:71-74 | Building a Page from a stored document tagged with `_id` never throws. It takes the body and timestamps as stored and rederives the title. |
| PageModel.RebuildIdentity | src/models/page.js:36-39 | `new Page(page)` rebuilds the same page, provided the page keeps the title invariant. |
| PageModel.DbNameInjective | src/models/page.js:95-97 | Distinct page ids name distinct revision collections. |
| PageModel.Save | src/models/page.js:143-162 | An unbound page is inserted under the assigned id and binds it. A bound page, whose id is never empty, keeps its id and replaces only its own record. Exactly one snapshot of the page is appended to that id's log, which is created if absent. Every other record and log is unchanged, and no other log is created. |
| PageModel.Matching | src/models/page.js:63-67 | A falsy version selects every revision. A truthy one selects exactly those whose `dtModify` equals it. |
| PageModel.MatchingCounts | src/models/page.js:63-69 | A query by version keeps each selected revision exactly as many times as it is stored, and drops every other revision. |
| PageModel.SortNewestFirst | src/models/page.js:69 | `sort({dtModify: -1})` returns the same pages as a multiset, with `dtModify` non-increasing. |
| PageModel.GetPageHistory | src/models/page.js:61-76 | Returns, as a multiset, exactly the pages built from the selected revisions, one per revision, newest `dtModify` first. Each carries `_id = id` and the title invariant. |
| PageModel.Get | src/models/page.js:30-40 | With a falsy version, returns the live record or an id-less page. With a truthy version, the result has an id exactly when some revision carries that `dtModify`, and it is built from such a revision. |
| PageModel.GetAll | src/models/page.js:48-52 | Returns every current record as a page, each exactly once, ordered by ascending `dtCreate`. |
| PagesController.Validate | src/controllers/pages.js:82-106 | Each of the four messages is returned exactly under its own condition, in the code's order. A payload passes exactly when its first block is a header whose text, with the first `<br>` removed, is not all whitespace. |
| PagesController.Get | src/controllers/pages.js:26-34 | Fails with "not found" exactly when the id is unknown, or when no revision has the asked version. Otherwise returns the page with that id, from the record or from a matching revision. |
| PagesController.GetAll | src/controllers/pages.js:41-43 | Returns all current pages, oldest `dtCreate` first. |
| PagesController.GetPageHistory | src/controllers/pages.js:51-53 | Returns the page's whole history, newest first. As a multiset it holds exactly one entry per revision. An unknown id gives an empty history, not an error. |
| PagesController.Insert | src/controllers/pages.js:61-74 | A failure throws and leaves the store unchanged. On success the first block is a header, `dtCreate == dtModify == now`, the title is the raw first header text. When the payload has no truthy `_id`, the page is saved under the fresh id with a one-entry history. With a truthy `_id`, one revision is appended under that id, and a record under it exists afterwards exactly when one existed before. No other record or log changes, and no other log is created. |
| PagesController.InsertValidatesFirst | src/controllers/pages.js:61-65 | Insert fails exactly when validation fails. It then throws the validation message and writes nothing. |
| PagesController.Update | src/controllers/pages.js:115-127 | An unknown id fails with "not found" and leaves the store unchanged. On success the id is kept and `dtModify` is `now`. `dtCreate` and the body are kept unless the data supplies them. A supplied body replaces the stored one. Only this page's record changes, and exactly one revision is appended. No other log changes or is created. |
| PagesController.Remove | src/controllers/pages.js:135-143 | Never writes. An unknown id fails with "not found". A known id fails with a TypeError, because `destroy` is not defined. |
| PageProperties.SetDataRoundTrip | src/models/page.js:104-126 | Assigning a page its own `data` (`get data()`, modelled by `PageModel.DataOf`) changes nothing. |
| PageProperties.ReadBackAfterSave | src/models/page.js:143-150 | After `save()` of an unbound page, or of a bound page whose record exists, `Page.get(id)` returns exactly the saved page. Without a record, an update-path save writes none. |
| PageProperties.GetUniqueVersion | src/models/page.js:33-37 | When exactly one revision carries the version, `get(id, version)` returns the page built from that revision. |
| PageProperties.VersionRoundTrip | src/models/page.js:30-40 | Two updates have distinct clock readings, and no earlier revision has the first reading. Then asking for the first reading's version returns exactly the page the first update saved. |
| PageProperties.UpdateAddsOneRevision | src/controllers/pages.js:115-127 | An update grows the page's history by exactly one. If the clock has not run backwards, the newest entry carries the update's `dtModify`. |
| PageProperties.InsertStartsHistory | src/controllers/pages.js:61-74 | A new page reads back as itself under the assigned id, both live and by its creation version. Its history is exactly that one revision. |
| PageProperties.SoleRevisionReadable | src/models/page.js:30-76 | A page whose record and only revision are its own document reads back as itself, live, by version, and as its history. |
| PageProperties.WriteKeepsWellFormed | src/models/page.js:143-159 | A save-shaped write keeps the store invariant: no record under the empty id, and every record and revision carries its derived title. |
| PageProperties.InsertPreservesWellFormed | src/controllers/pages.js:61-74 | Insert keeps the store invariant. |
| PageProperties.UpdatePreservesWellFormed | src/controllers/pages.js:115-127 | Update keeps the store invariant. |
| PageProperties.DoubleBreakHeaderPasses | src/controllers/pages.js:101-105 | A header text of `"<br><br>"` passes, because only the first `<br>` is removed. |
| PageProperties.LoneBreakHeaderFails | src/controllers/pages.js:101-105 | A header text of `"<br>"` or `" <br> "` is rejected. |

## Left out

- Storage internals are not modelled: nedb, asynchronous calls, the connection handle, and storage failures. Each operation is one sequential state transition. This hides the non-atomic gap between the record write and the revision append.
- Store-generated ids and `Date.now()` are inputs. `PagesController.Update` requires `now > 0`, as epoch milliseconds are positive.
- `PageModel.Save` requires a bound id to be non-empty. `save()` treats an empty `_id` as unbound and inserts, but no modelled operation builds a page bound to `""`, because the constructor binds only a truthy `_id`.
- History is sorted after its revisions are built into pages, while the code sorts the stored documents first. Both sort on `dtModify`, so they can differ only in how revisions with equal `dtModify` are ordered.
- `Ordering.SortBy` promises only a sorted permutation. The order it gives to equal keys is the model's own, while nedb breaks ties by its internal index order, which the model does not represent. For history, the input to the sort is the log order. For `getAll`, it is whatever order the loop in `PageModel.GetAll` picks keys from the map. So with two revisions of equal `dtModify`, which one `get(id, version)` returns is modelled, not reproduced.
- `PagesController.Insert` does not model the `new Error(validationError)` re-wrapping. The model keeps the validation message itself.
- `Page.getAll(query)` is modelled without its query filter. The controller always passes the empty query.
- Blocks are modelled as a type and a string text. Outside validation, the code does not check block shape.
  - `update` takes a non-string `data.text` of the first header as the title as it is.
  - Blocks before the first header are read only for their `type`.
  - Only three shapes throw a TypeError: a `null` block before the first header; a first header block without `data`; and, on insert only, a first block whose `data.text` is not a string, which validation's `replace` rejects and insert re-wraps as an `Error`.
  - The model represents none of these shapes.
- `PagesController.IsDefined` is defined only for the required fields, and `body` is the only one.
- `Page.destroy` is commented out in the source, so there is no successful removal to model.
- `PagesController.GetAll`: no separate lemma says that pages inserted in order A, B, C are listed as [A, B, C]. It is a method, and its contract already gives the ascending `dtCreate` order and the full contents.
- Not modelled: the frontend editor and writing form, Express routing and rendering, and the process-global menu cache middleware.
