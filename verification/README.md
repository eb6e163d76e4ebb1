# Menu item service — verified Dafny model

This project models the core of a small menu-item CRUD service (one Flask
resource, `Item`, over one SQLAlchemy table, all in `main.py`). Two pieces
of logic sit under the HTTP plumbing, and both are modelled here:

* **The item table as a keyed collection.** The table is a `map<nat, Item>`.
  An `Item` has a title, a section list and a modifier list. The modifier
  list is `Option<seq<string>>`: `None` is the text `null` that `put` stores
  when the request sent no modifiers. Create (`Put`), field-wise update
  (`Patch`) and delete (`Delete`) each return either an `Error` (HTTP status
  plus message) or the new table. The request parser that both `put` and
  `patch` run first is modelled as `ParseArgs`.
* **The grouped menu** (`parseItemsResult` / `createItemObject`). This is a
  pure function from one listing of the table's rows to a list of blocks:
  - one block per entry of `sections_enum` (Lunch, then Dinner);
  - block ids 1..n, titled "`<Section>` Specials";
  - in each block, the rows whose section matches the tag, in listing order,
    renumbered 1..k;
  - each item's modifiers renumbered 1..m.

  A selected row whose modifiers are `null` makes the whole read fail with
  a 500. A row is selected when `Matches(tag, section)` holds, that is,
  when the tag is a substring of some element of its section list. This
  stands in for the `contains` test on the stored JSON text.

Modules: `Outcomes` holds the error and result types. `RequestArgs` is the
argument parser. `ItemStore` holds the table and its writes. `SectionMatch`
is the section query's filter. `MenuProjection` builds the grouped menu.
`Service` holds the handlers and the argument-less read. `Scenarios` works
the manual driver in `test.py` through the model.

### Behaviour of the code worth knowing

* PATCH runs the same argument parser as PUT (main.py:84, main.py:37-39), so
  `title` and `section` are required on PATCH too. A PATCH that sends only a
  title is refused with 400, and a successful PATCH always stores the section
  it sent (`Service.TitleOnlyPatchRefused`,
  `Service.PatchRouteOverwritesSection`). The handler itself skips empty
  values (main.py:89-94, `ItemStore.Patch`).
* PUT stores the text `null` when no modifiers are sent (main.py:74), and
  building an item object iterates that value (main.py:140), which raises.
  Once such a row exists under a listed section, the next menu read fails
  with a 500, and every read after it fails until that row is patched with
  modifiers, moved by a PATCH to a section neither query selects, or deleted
  (`Service.PutWithoutModifiersBreaksMenu`,
  `Service.PatchWithModifiersRepairsRow`, `Service.PatchOutOfMenuRepairsRead`).
* DELETE looks the id up again after removing it and answers 404
  "Was not able to delete" if the row is still there (main.py:110-113). With
  map semantics that second lookup never finds the row (`ItemStore.Delete`).

## Model

| member | source | states |
|---|---|---|
| RequestArgs.ParseArgs | main.py:37-40 | title and section are required, checked in declaration order, and each has its own 400 help text; on success the section is non-empty, absent modifiers become `None`, and the request is recovered from the arguments |
| RequestArgs.ParseUnparse | main.py:37-40 | every argument value the parser can produce is parsed back from the request that carries it |
| ItemStore.Put | main.py:68-79 | a taken id fails with 409 "id taken"; a fresh id adds exactly that key, holding the sent title, section and modifiers (`None` when none were sent); every other entry is kept |
| ItemStore.Patch | main.py:83-98 | an absent id fails with 404 "Could not update <id>"; otherwise the keys are unchanged, every other entry is unchanged, and each of title, section and modifiers is overwritten exactly when the supplied value is non-empty, keeping its prior value otherwise |
| ItemStore.Delete | main.py:101-115 | succeeds exactly when the id is present, else 404 "id not existing"; removes exactly that key, leaves every other entry as it was, and a later lookup finds nothing, so the "Was not able to delete" re-check never fires |
| ItemStore.DecimalString | main.py:87 | the id in the "Could not update" message is written in decimal digits with no leading zero, and reads back as the id |
| ItemStore.PutTwiceConflicts | main.py:70-72 | a second create on the same id is a 409 conflict |
| ItemStore.PutThenDeleteRestores | main.py:68-115 | deleting a freshly created id restores the table exactly |
| ItemStore.DeleteTwiceNotFound | main.py:102-113 | a second delete of the same id is "id not existing", not the re-check failure |
| ItemStore.PatchIdempotent | main.py:89-94 | applying the same patch twice equals applying it once |
| ItemStore.PatchNothingIsIdentity | main.py:89-94 | a patch supplying only empty values leaves the table unchanged |
| ItemStore.PatchKeepsModifiersPresent | main.py:93-94 | patch never turns present modifiers back into `null` |
| SectionMatch.IsSubstring | main.py:123 | the `contains` test: a prefix is contained, and a contained tag is no longer than the text |
| SectionMatch.Matches | main.py:123 | the section query's filter: a selected list has an element containing the tag, and a list holding the tag itself is selected |
| SectionMatch.IsSubstringIffOccurs | main.py:123 | the substring scan holds exactly when the tag occurs at some position |
| SectionMatch.ShorterNeverContains | main.py:123 | a string shorter than the tag never contains it |
| SectionMatch.MatchesIffSomeElement | main.py:123 | a section list is selected exactly when some element contains the tag |
| SectionMatch.ExactTagMatches | main.py:123 | a row whose section list holds the tag itself is always selected |
| SectionMatch.ContainmentIsNotMembership | main.py:123 | a label that only contains the tag ("Late Dinner") is selected too |
| MenuProjection.NumberModifiers | main.py:139-142 | modifier ids are 1..m in order, and the titles are the stored modifiers in stored order |
| MenuProjection.CreateItemObject | main.py:136-144 | fails with a 500 exactly when the modifiers are `null`; otherwise the object carries the given display id, the title and the numbered modifiers, and no storage id or section |
| MenuProjection.Selected | main.py:123 | the selection holds only listed rows that match, and every listed row that matches |
| MenuProjection.NumberItems | main.py:125-130 | succeeds exactly when every row has modifiers; item i is the object for row i with display id i+1 |
| MenuProjection.SectionBlock | main.py:121-130 | block p has id p+1 and title "<tag> Specials", lists the numbered selection for its tag, and fails exactly when a selected row has `null` modifiers |
| MenuProjection.Blocks | main.py:121-130 | the first k blocks are the section blocks for keys 0..k-1 in key order, and they fail exactly when one of those sections has a selected `null` row |
| MenuProjection.Project | main.py:118-133 | the menu has one block per enumeration entry, numbered by position and titled "<Section> Specials", and fails with a 500 exactly when some selected row has `null` modifiers |
| MenuProjection.MenuSectionOrder | main.py:20-23 | the enumeration is visited in key order: a rendered menu has exactly two blocks, 1 "Lunch Specials" then 2 "Dinner Specials" |
| MenuProjection.SelectedAppend | main.py:123-127 | selection distributes over concatenation of listings |
| MenuProjection.SelectedKeepsOrder | main.py:127-130 | two selected rows keep their listing order within the block |
| MenuProjection.BlockContents | main.py:123-144 | block p lists the selected rows in order, with display ids 1..k, their titles, and their modifiers in stored order numbered 1..m |
| MenuProjection.RowInEveryMatchingBlock | main.py:121-130 | a row appears, with its title and modifiers, in the block of every tag it matches |
| MenuProjection.SelectedDistinctIds | main.py:123-127 | a query over rows with distinct ids returns each row at most once |
| MenuProjection.RowOnceInEachMatchingBlock | main.py:121-130 | on a listing with distinct ids (every listing of the table), when the menu renders, a row matching a block's tag sits at exactly one position of that block, and the item there carries its title and modifiers |
| MenuProjection.BlockItemFromMatchingRow | main.py:123-130 | every block item comes from a listed row that the block's query selects |
| MenuProjection.NullModifiersBreakMenu | main.py:140 | one selected row with `null` modifiers makes the menu fail with a 500 |
| MenuProjection.BlocksFollowSelection | main.py:121-130 | the menu depends on the listing only through what each section query selects |
| MenuProjection.UnselectedRowIgnored | main.py:121-130 | a row no section query selects does not change the menu, even with `null` modifiers |
| Service.GetAll | main.py:57-64 | an empty table fails with 409 "no items in database"; a non-empty table returns the projection of its listing (`Project`: block p+1 titled "<tag> Specials" holding the numbered selection), which succeeds exactly when every row some section query selects has modifiers, and is otherwise a 500; success does not depend on the order the rows are listed in |
| Service.TableRenderable | main.py:121-140 | the condition for a menu read to succeed: every stored row that some section query selects has modifiers |
| Service.ListingRenderable | main.py:121-140 | a listing renders exactly when every row of the table it lists that some section query selects has modifiers |
| Service.HandlePut | main.py:68-79 | parse errors come first; otherwise the result is `Put`; it succeeds exactly when title and section were sent and the id is fresh |
| Service.HandlePatch | main.py:83-98 | parse errors come first; otherwise the result is `Patch`; it succeeds exactly when title and section were sent and the id exists |
| Service.EmptyTableHasNoListingRows | main.py:58-60 | the table is empty exactly when its listing is |
| Service.ValidationBeforeConflict | main.py:69-72 | a missing title is a 400 even when the id is taken |
| Service.TitleOnlyPatchRefused | main.py:84-92 | a PATCH without a section is refused with 400, although the handler alone would keep the old section |
| Service.PatchRouteOverwritesSection | main.py:84-92 | a successful PATCH always stores the section sent, and a non-empty title sent |
| Service.PutWithoutModifiersBreaksMenu | main.py:74-140 | creating an item without modifiers under a listed section makes the next menu read fail with a 500, in whatever order the rows come back |
| Service.PatchWithModifiersRepairsRow | main.py:93-94 | a successful PATCH that sends modifiers stores them, so the row no longer breaks the menu |
| Service.PatchOutOfMenuRepairsRead | main.py:89-94 | a PATCH always rewrites the section, so moving a row to a section neither query selects makes the read succeed again when the other rows render, even though a PATCH without modifiers keeps its `null` modifiers |
| Service.CreatedItemInEveryMatchingBlock | main.py:74-130 | a created item appears, with its title and modifiers, in the block of every section it matches |
| Service.DeletedRowNotListed | main.py:107-123 | after a delete, no listing of the table holds the deleted id |
| Scenarios.DriverWrites | test.py:11-19 | the driver's three creates, its patch of item 1 and its delete of item 1 all succeed and leave only Pizza and Soup |
| Scenarios.LunchSelection | main.py:123 | on the driver's final table the Lunch query selects Soup alone |
| Scenarios.DinnerSelection | main.py:123 | on the driver's final table the Dinner query selects Pizza, then Soup |
| Scenarios.DriverMenu | test.py:22-23 | the driver's final menu read gives Lunch [Soup] and Dinner [Pizza, Soup], each numbered from 1 |

## Left out

- HTTP wiring: flask_restful routing, `marshal_with`, `abort` and `app.run`. Aborts are modelled as `Err(Error(status, message))`. The success status codes (200/201) and the response bodies are not modelled; a write yields only the new table.
- Database I/O: SQLAlchemy sessions and commits, and the drop/create reset at start-up (main.py:33-34). The map stands in for the table.
- JSON text encoding: lists are kept decoded. Only the `null` modifiers case is kept, as `None`. The final `json.dumps` of the menu is not modelled; the menu is a datatype.
- SQLite `LIKE` details are abstracted by `Matches`: ASCII case-insensitivity, JSON escaping of non-ASCII text, and a tag spanning two elements of the encoded list (impossible for "Lunch" and "Dinner").
- Query order: no query has an ORDER BY. The model takes one listing order and uses it for both section queries, although the database could in principle return each query in a different order.
- The per-id `get` (main.py:45-54) is dead code, because the second `get` definition replaces it. Only a plain `Lookup` helper is kept.
- Request parser details beyond presence: type conversion, a title sent twice, and bundled errors.
- The 100-character column widths, which SQLite does not enforce.
- Concurrent requests on the same id, which depend on the database.
- `test.py` is an interactive driver without assertions. Its data only feeds the `Scenarios` lemmas.
- ItemStore.Put: ids are unbounded naturals. The route converter accepts any digit string, but the table key is a 64-bit SQLite integer, so for an id of 2^63 or more the lookup fails while binding the value and the request ends in a 500. The model lets such a create succeed. The same applies to Patch and Delete.
- ItemStore.Patch: the model does not bound the id below 2^63; see the line for Put.
- ItemStore.Delete: the model does not bound the id below 2^63; see the line for Put.
- RequestArgs.ParseArgs: JSON `null` argument values are not modelled. The parser lets a `null` title through the required check as `None`. PUT then fails at commit on the NOT NULL title column (main.py:28, main.py:76-77) with a 500, and PATCH keeps the old title (main.py:89). A `null` section element is stored as `[null]`. `Option<string>` and `seq<string>` cannot express a null value.
- RequestArgs.ParseArgs: the 400 message is the argument's help text alone. The service actually sends it as an object keyed by the argument name, `{"title": "Title of item is needed"}`.
- MenuProjection.CreateItemObject: the failure is modelled as a bare 500 "Internal Server Error". The Python `TypeError` text is not modelled.
