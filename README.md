# Cost allocation and project list of a research-management back end

This project models the core of a small FastAPI back end for a research
organisation. The modelled core is all in `main.py`:

- **Active project titles.** The in-memory project list `PROJECTS` defines
  which titles are active. Only projects whose status is "진행중" (in
  progress) or "신청완료" (applied) count. Titles are listed once each, in
  the order they first occur.
- **Cost-owner share tables.** Personnel (base value: salary) and equipment
  (base value: acquisition cost) each have a table of per-project percent
  shares. Replacing an owner's shares is a full replacement: every old row
  goes, and the accepted payload entries (non-null, numeric, greater than 0)
  go in. Deleting an owner also deletes its share rows. An unknown owner id
  is a 404 that changes nothing.
- **The cost-allocation report (`GET /assets`).** Only share rows with an
  active title count. The last row for an owner and title wins. A missing
  share is 0. The percents are summed with no cap, and that percentage of
  the base value is taken. Python's `int()` truncates each amount and each
  grand total toward zero. Each grand total is truncated once, after
  summing.
- **The project endpoints.** These are add (a new id one above the
  maximum, or 1), update (a key-by-key merge into the first project with
  that id, plus today's date), delete (drop every project with that id),
  attaching a file name, and listing a project's files.
- **The upload file-name sanitiser.** It replaces every character outside
  `A-Z a-z 0-9 _ . -` by `_`. The stored name is a time stamp, `_`, and the
  sanitised name.
- **The IR listing (`GET /ir`).** It narrows to one category unless the
  category is absent, empty or "전체" (all). It then sorts stably by the
  lower-cased original name.

The modules are:

- `Basics`: Option, filter, first match, de-duplication.
- `FileNames`: the sanitiser.
- `IrListing`: the IR listing.
- `Projects`: the project list and the `ProjectStore` class that owns it.
- `Shares`: owners, share rows and the `ShareLedger` class, one instance
  per owner table.
- `Assets`: the report, both as functions and as the loops the handler
  runs.

The clock, the request body and the database snapshot are passed in as
parameters.

Four behaviours of the handlers that the model keeps as they are:

- `get_assets` has no fallback: a failing table read propagates as an
  error rather than producing an all-zero report.
- `int()` truncates the amounts toward zero, which differs from the floor
  only for a negative base value.
- Status is compared as a raw string against the two active values.
- The share handlers only check that a percent is greater than 0; there is
  no upper bound of 100.

## Model

| member | source | states |
|---|---|---|
| Projects.ActiveTitleList | main.py:533-537 | The active-status comprehension fails exactly when an active project has no `title` key. Otherwise its titles are exactly those of active projects. |
| Projects.IsActive | main.py:532-536 | Definition, no ensures: a project is active exactly when its `status` key is present and is "진행중" or "신청완료". |
| Projects.ActiveTitles | main.py:531-538 | `get_active_project_titles` fails exactly when an active project has no title. Otherwise it returns each active title exactly once (no duplicates) and nothing else. |
| Projects.ActiveTitlesSnoc | main.py:533-538 | Appending a project either leaves the title list alone, or appends that project's title when the project is active and the title is new. |
| Projects.ActiveTitlesFirstOccurrenceOrder | main.py:538 | For titles at positions i < j of the result, some prefix of the list already has an active project titled r[i] and none titled r[j]: first-occurrence order. |
| Projects.SeedActiveTitles | main.py:745-773 | Of the two seed projects only the first (in progress) is active, so the seeded list has exactly one active title. |
| Projects.FindProject | main.py:817 | Finds the first project with the id. It returns none exactly when no project has that id. |
| Projects.MaxId | main.py:783 | The maximum id of a non-empty list: no id is larger, and some project has it. |
| Projects.NextId | main.py:783 | The new id is larger than every existing id. It is 1 for an empty list, and otherwise one above the id of some existing project. |
| Projects.NewProject | main.py:783-787 | The stored project gets the id `NextId` (max + 1, or 1), which is above every existing id, and no files and today's date. Each of its descriptive keys (title, organisation, type, period, budget, status, due date, participants) is the body's. |
| Projects.AddedProjectIdUnique | main.py:781-790 | After appending, the new project is the only one with its id, so lookups by that id find it. |
| Projects.Merge | main.py:799-800 | `p.update(body)` then the date stamp. Every key present in the body (`id`, `files` and the eight descriptive keys) takes the body's value. Every absent key keeps the project's old value. `last_updated` is today. |
| Projects.MergeIdempotent | main.py:799-800 | Sending the same update body twice has the effect of sending it once. |
| Projects.MergeEmptyBody | main.py:799-800 | An empty body changes nothing but `last_updated`. |
| Projects.Updated | main.py:796-803 | Only the first project with the id is merged, and every other entry is untouched. With no match the list is unchanged (the 404). |
| Projects.WithoutId | main.py:809-812 | After deletion no project has the id, and every project without it stays. The list shrinks exactly when some project had the id (otherwise 404). An unshrunk list is the same list. |
| Projects.WithoutIdConcat | main.py:809 | Deleting from a concatenation deletes from each part, so the survivors keep their list order. |
| Projects.WithoutIdSingle | main.py:809 | A single project survives exactly when its id differs. Together with `WithoutIdConcat` this fixes the result exactly. |
| Projects.WithFile | main.py:817-830 | Only the first project with the id gets the file name appended and today's date. Otherwise nothing changes. |
| Projects.ProjectStore.AddProject | main.py:781-790 | The loop computing the maximum id gives the new project `NextId`, no files and today's date; the list grows by exactly that project. |
| Projects.ProjectStore.UpdateProject | main.py:796-803 | The list becomes `Updated`. The method returns the merged project, or none exactly when no project has the id. |
| Projects.ProjectStore.DeleteProject | main.py:806-812 | The list becomes `WithoutId`. The result is true exactly when the list shrank, which is exactly when some project had the id. |
| Projects.ProjectStore.UploadProjectFile | main.py:816-830 | The list becomes `WithFile`. The result is false exactly for the 404. |
| Projects.ProjectStore.ProjectFiles | main.py:834-838 | Returns the first matching project's files. It returns none exactly when no project has the id. |
| Shares.NewRows | main.py:427-442 | Replacement inserts one row per accepted payload entry, in payload order: the rows are the accepted entries, each for this owner with its title and a positive percent. A null, non-numeric or non-positive value is skipped. |
| Shares.Accepted | main.py:428-435 | Definition, no ensures: a payload value is kept exactly when it is non-null, numeric (accepted by `float()`) and greater than 0. |
| Shares.AcceptedEntries | main.py:427-435 | Definition, no ensures: the payload entries that survive the three `continue`s, in payload order. |
| Shares.NewRowsAreAcceptedEntries | main.py:427-442 | There is one new row per accepted entry, in the same order, carrying the entry's title and percent: the count and the order are fixed exactly. |
| Shares.Owner.BaseValue | main.py:574 | The base value is the salary or acquisition cost, and 0 when that column is NULL. |
| Shares.OwnedBy | main.py:401-403 | The rows of one owner: a row is among them exactly when it is in the table with that owner id. |
| Shares.NotOwnedBy | main.py:401-403 | The bulk delete never grows the table. Its membership is stated by `NotOwnedByMembers`. |
| Shares.Replaced | main.py:423-442 | Definition, no ensures: the bulk delete of the owner's rows followed by the inserts of `NewRows`. `ReplacedMembers`, `ReplacedOwnerRows`, `ReplacedOtherRows` and `ReplacedIdempotent` state its properties. |
| Shares.NotOwnedByMembers | main.py:401-403 | A row survives the bulk delete exactly when it belongs to another owner. |
| Shares.ReplacedMembers | main.py:423-442 | After a replacement, a row is in the table exactly when it is another owner's old row or one of the new rows. |
| Shares.FindOwner | main.py:419-421 | Finds an owner with the id. It returns none exactly when no owner has that id (the 404). |
| Shares.OwnedByAfterDelete | main.py:401-403 | Deleting one owner's rows leaves every other owner's rows as they were, in order. |
| Shares.ReplacedOwnerRows | main.py:423-442 | After a replacement the owner's rows are exactly the accepted payload entries, in payload order. No old row of the owner survives. |
| Shares.ReplacedOtherRows | main.py:423-442 | A replacement leaves every other owner's rows unchanged. |
| Shares.ReplacedIdempotent | main.py:423-442 | Replacing twice with the same payload equals replacing once: a full replacement, not a merge. |
| Shares.NoRowsAfterDelete | main.py:401-403 | After an owner is deleted no share row refers to it. |
| Shares.RemoveOwnerAt | main.py:404 | Removing an owner keeps owner ids unique. It removes exactly the owner with that id. |
| Shares.ShareLedger.ReplaceShares | main.py:416-446 | On the 404 (unknown owner) nothing changes. Otherwise the loop over the payload leaves the share table as `Replaced`: the other owners' rows, then the new ones. Owners are unchanged. |
| Shares.ShareLedger.DeleteOwner | main.py:395-408 | On the 404 nothing changes. Otherwise exactly the owner and all of its share rows are removed, and ids stay unique. |
| FileNames.Sanitize | main.py:185 | The substitution keeps the length, keeps every safe character in place and turns every other character into `_`. The result is safe. |
| FileNames.IsSafeChar | main.py:185 | Definition, no ensures: the characters the class `[A-Za-z0-9_.-]` matches, by code-point range plus `_`, `.` and `-`. |
| FileNames.SanitizeKeepsSafeName | main.py:185 | An already-safe name is unchanged. |
| FileNames.SanitizeIdempotent | main.py:299 | Sanitising twice is sanitising once. |
| FileNames.StoredName | main.py:299-300 | The stored name is the stamp, `_`, then the sanitised name. With a safe stamp it is entirely safe and holds no `/` or `\`. |
| IrListing.Selected | main.py:269-272 | With no narrowing category every record is listed, as-is. Otherwise exactly the records whose category equals the requested one are listed (a NULL category never matches). |
| IrListing.Narrows | main.py:270 | Definition, no ensures: the category narrows the listing exactly when it is present, non-empty and not "전체". |
| IrListing.Kept | main.py:270-271 | Definition, no ensures: a record is kept when nothing narrows the listing, or when its category equals the requested one. |
| IrListing.LexLe | main.py:286 | Definition, no ensures: Python's `<=` on `str`, compared code point by code point with a proper prefix first. `LexLeTotal`, `LexLeTransitive` and `LexLeAntisymmetric` state its properties. |
| IrListing.LexLeTotal | main.py:286 | Python string order is total. |
| IrListing.LexLeTransitive | main.py:286 | Python string order is transitive. |
| IrListing.LexLeAntisymmetric | main.py:286 | Two strings each at most the other are equal. |
| IrListing.Insert | main.py:286 | One insertion step of the sort adds exactly the one record. |
| IrListing.Sort | main.py:286 | `sorted` returns a permutation of its input. |
| IrListing.InsertSorted | main.py:286 | Inserting into a sorted list keeps it sorted. |
| IrListing.SortSorted | main.py:286 | `sorted` by the lower-cased name gives an ordered result. |
| IrListing.InsertStable | main.py:286 | An inserted record goes after the records whose key equals its own, and leaves every other key's run alone. |
| IrListing.SortStable | main.py:286 | Stability: records with equal keys keep their input order. |
| IrListing.ListIr | main.py:266-288 | `get_ir` returns results sorted by key. They are a permutation of the selected records and contain exactly the kept ones, and within each key they keep the selected order. |
| IrListing.ListAllKeepsEverything | main.py:270-272 | Category "전체", "" or none lists every stored record, each as often as stored. |
| Assets.Trunc | main.py:588 | `int()` on a float truncates toward zero: floor for non-negative values, ceiling for negative ones. |
| Assets.PercentOrZero | main.py:560 | `float(s.percent or 0)`: a NULL percent counts as 0, and otherwise the stored percent. |
| Assets.ShareMapOf | main.py:554-560 | The share map only ever holds active titles. |
| Assets.ShareMapLastWins | main.py:554-560 | For an owner and an active title, the last matching row's percent (0 if NULL) is the one kept. |
| Assets.ShareMapNoRow | main.py:554-560 | Without a matching row, the owner has no entry for the title. |
| Assets.InactiveRowsIgnored | main.py:555-557 | Rows with inactive titles do not affect the share map. |
| Assets.OwnerShares | main.py:567-571 | Each owner's map has exactly the active titles as keys. |
| Assets.SumOver | main.py:573 | Definition, no ensures: `sum(proj_shares.values())` over the active titles. `SumOverBounds` states its properties. |
| Assets.SumOverBounds | main.py:573 | The sum is non-negative when every share is, and 0 when every share is 0. |
| Assets.Amount | main.py:575 | Definition, no ensures: `base * (total_percent / 100.0)`, before truncation. `AmountBounds` states its properties. |
| Assets.AmountBounds | main.py:575 | The amount is 0 at 0 %, the whole base value at 100 %, and non-negative for a non-negative base and percent. |
| Assets.RowFor | main.py:566-590 | One owner's row. It holds the owner and a map over exactly the active titles. The total percent is non-negative when the shares are. With no share entry for the owner, the total percent and the amount are 0. |
| Assets.RowAmountTruncated | main.py:575-588 | A row's `total_amount` is its untruncated amount truncated toward zero: within 1 below it when it is non-negative, within 1 above it when negative. |
| Assets.Rows | main.py:566-590 | One row per owner. |
| Assets.RowsAt | main.py:566-590 | Row k is computed from owner k alone, in owner order. |
| Assets.BaseSum | main.py:577 | Definition, no ensures: the running base-value total (`salary_total`). |
| Assets.BaseSumNonNegative | main.py:577 | The base total is non-negative when every base value is. |
| Assets.AmountSum | main.py:578 | Definition, no ensures: the running untruncated grand total. |
| Assets.AmountSumWithoutShares | main.py:578 | With no share entry for any owner, the grand total is 0. |
| Assets.RowKeysAreActiveTitles | main.py:567 | The keys of a row's share map are exactly the active titles. |
| Assets.RowShareIsLastRow | main.py:566-571 | An active title's percent in a row is that of the owner's last row for the title. |
| Assets.RowShareDefaultsToZero | main.py:567 | An active title with no row for the owner shows 0. |
| Assets.TotalPercentNotCapped | main.py:573-575 | Shares of 80 % and 70 % total 150 %; 150 % of a base of 1000 is 1500. There is no cap at 100. |
| Assets.NegativeAmountTruncatesTowardZero | main.py:574-588 | A base of -3 at 50 % gives -1, not -2. |
| Assets.GrandTotalTruncatesOnce | main.py:577-578 | Two owners with base 1 at 50 % each have row amounts of 0 but a grand total of 1. The grand total truncates the exact sum, not the sum of truncated rows. |
| Assets.AssetReport | main.py:542-638 | The report fails exactly when an active project has no title. Otherwise it lists the active titles and one row per person and per machine. |
| Assets.ReportRowsFollowOwners | main.py:566-627 | Row k of each half belongs to owner k of that table, and its map's keys are the report's titles. |
| Assets.SalaryScenario | main.py:542-638 | A salary of 60,000,000 with 40 % on the only active project gives 40 %, 24,000,000 and the matching totals. The second project, which is only planned, is not listed. |
| Assets.BuildShareMap | main.py:554-560 | The loop over the share rows builds `ShareMapOf`. |
| Assets.AllocateRows | main.py:562-590 | The loop over the owners builds `Rows`, the base total `BaseSum` and the grand total `AmountSum` (before truncation). |
| Assets.GetAssets | main.py:542-638 | The handler returns `AssetReport` for its snapshot. |

## Left out

- HTTP, FastAPI routing, response messages and status codes: a 404 is a `false` or `None` result.
- SQLAlchemy sessions, commits and transactions: each table is a sequence snapshot, and the auto-increment ids of inserted share rows are not modelled.
- Reading the tables in `get_assets`: the tables arrive as parameters, so a failure while reading them is not modelled.
- File contents, directories and sizes: only the names computed for uploaded files are modelled, not the disk writes of the upload handlers. In `upload_project_file` the name is appended only after the write (main.py:824-828) succeeds. A failing write, for example an empty name or a name with a missing subdirectory, is a 500 that leaves the project list unchanged. `Projects.ProjectStore.UploadProjectFile` assumes the write succeeds and appends whenever the id exists.
- The clock: today's date and the `%Y%m%d_%H%M%S` stamp are parameters.
- Floating point: percents and amounts are exact reals, so rounding in `sum` and in the multiplications is not modelled. IEEE special values (NaN, infinity) are not modelled either.
- Unicode-aware `str.lower()`: this is the parameter `lower` of the IR listing. Its results are compared by code point.
- JSON bodies of `add_project` and `update_project`: the modelled keys are the ones the project list uses, and other keys are not modelled. A key present with value null cannot be told apart from an absent key. In general, a null in an update body overwrites the key in the source (main.py:799), while `Projects.Merge` keeps the old value. Its visible effects include:
  - `"title": null` on an active project: main.py:534-538 lists `None` among the titles. The model keeps the old title after an update, and `Projects.ActiveTitles` fails for a project stored without one.
  - `"status": null`: the source deactivates the project, while the model keeps the old status.
  - `"id": null`: the source stores `None`, so later lookups by the old id give a 404, and the `max` at main.py:783 raises, so every later `add_project` gives a 400. The model keeps the id.
  - `"files": null`: the source raises at main.py:828 after writing the file (a 500), and `list_project_files` returns null. The model keeps the files.
- The 400 path of `add_project`: building the project from a modelled body cannot fail. The stdout log line (main.py:789) is not modelled. It runs after the append, so if it raised (for example when stdout cannot encode its text), the client would get a 400 while the project stays appended.
- `update_equipment_shares` and `delete_equipment`: these are the same code as the personnel handlers (main.py:481-527). They are models of the same `Shares.ShareLedger` methods, on an equipment instance.
- Shares.NewRows: the request model `Dict[str, float]` already coerces the payload's values to floats. It refuses a null or non-numeric value with a 422 before the handler runs, so at the endpoint such a payload changes nothing. The model instead skips that entry and still replaces the rows. The handler's null and `float()` checks are modelled on a raw value anyway, so the model is no stricter than the handler. A payload is a sequence rather than a dictionary, so duplicate titles are not ruled out.
- `upload_project_file` joins the unsanitised client file name into a path. The model records the name that is appended to the project, not the path.
- Login, research, IP, IR upload and delete, investments, and the list and add endpoints for personnel and equipment: these are outside the modelled core.
- Order lifecycle and revenue figures: the code has no such operations.
