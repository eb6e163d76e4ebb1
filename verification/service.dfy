/** The request handlers of the `Item` resource (main.py:43-115) as seen from
    outside: parse the arguments, then perform one store operation; and the
    argument-less read that returns the grouped menu (main.py:57-64). */
module Service {
  import opened Outcomes
  import opened RequestArgs
  import opened ItemStore
  import opened SectionMatch
  import opened MenuProjection

  /** Every stored row that some section query selects has modifiers. */
  ghost predicate TableRenderable(s: Store) {
    forall id, p :: id in s && 0 <= p < |SectionsEnum| && Matches(SectionsEnum[p], s[id].section)
                    ==> s[id].modifiers.Some?
  }

  /** The no-argument `get` (main.py:57-64), given one listing `rows` of the
      table in the order the database returns it. Whether it succeeds depends
      on the table alone, not on the listing order. */
  function GetAll(s: Store, rows: seq<Row>): (r: Result<Menu>)
    requires IsListing(rows, s)
    ensures s == map[] <==> r == Err(Error(Conflict, "no items in database"))
    ensures r.Ok? <==> s != map[] && TableRenderable(s)
    ensures s != map[] && !TableRenderable(s) ==> r == Err(Crash)
    ensures r.Ok? ==> |r.value| == |SectionsEnum|
    ensures s != map[] ==> r == Project(rows)
  {
    if s == map[] then Err(Error(Conflict, "no items in database"))
    else
      ListingRenderable(s, rows);
      Project(rows)
  }

  /** The menu of a listing renders exactly when the table it lists does. */
  lemma ListingRenderable(s: Store, rows: seq<Row>)
    requires IsListing(rows, s)
    ensures (forall p :: 0 <= p < |SectionsEnum| ==> Renderable(rows, SectionsEnum[p])) <==> TableRenderable(s)
  {
    if forall p :: 0 <= p < |SectionsEnum| ==> Renderable(rows, SectionsEnum[p]) {
      forall id, p | id in s && 0 <= p < |SectionsEnum| && Matches(SectionsEnum[p], s[id].section)
        ensures s[id].modifiers.Some?
      {
        var i := ListedRow(s, rows, id);
        assert Renderable(rows, SectionsEnum[p]);
      }
    }
    if TableRenderable(s) {
      forall p | 0 <= p < |SectionsEnum| ensures Renderable(rows, SectionsEnum[p]) {
        forall i | 0 <= i < |rows| && Matches(SectionsEnum[p], rows[i].item.section)
          ensures rows[i].item.modifiers.Some?
        {
          assert rows[i].id in s;
        }
      }
    }
  }

  /** PUT /item/<id> (main.py:68-79): argument errors come before the id
      check. */
  function HandlePut(s: Store, id: nat, req: Request): (r: Result<Store>)
    ensures ParseArgs(req).Err? ==> r == Err(ParseArgs(req).error)
    ensures ParseArgs(req).Ok? ==> r == Put(s, id, ParseArgs(req).value)
    ensures r.Ok? <==> req.title.Some? && req.section != [] && id !in s
  {
    match ParseArgs(req)
    case Err(e) => Err(e)
    case Ok(args) => Put(s, id, args)
  }

  /** PATCH /item/<id> (main.py:83-98), through the same parser as PUT. */
  function HandlePatch(s: Store, id: nat, req: Request): (r: Result<Store>)
    ensures ParseArgs(req).Err? ==> r == Err(ParseArgs(req).error)
    ensures ParseArgs(req).Ok? ==> r == Patch(s, id, ParseArgs(req).value)
    ensures r.Ok? <==> req.title.Some? && req.section != [] && id in s
  {
    match ParseArgs(req)
    case Err(e) => Err(e)
    case Ok(args) => Patch(s, id, args)
  }

  /** The table is empty exactly when its listing is. */
  lemma EmptyTableHasNoListingRows(s: Store, rows: seq<Row>)
    requires IsListing(rows, s)
    ensures s == map[] <==> rows == []
  {
    if s != map[] {
      var id :| id in s;
      assert exists i :: 0 <= i < |rows| && rows[i].id == id;
    }
    if rows != [] {
      assert rows[0].id in s;
    }
  }

  /** The row stored under `id` is somewhere in any listing. */
  lemma ListedRow(s: Store, rows: seq<Row>, id: nat) returns (i: nat)
    requires IsListing(rows, s) && id in s
    ensures i < |rows| && rows[i] == Row(id, s[id])
  {
    i :| 0 <= i < |rows| && rows[i].id == id;
  }

  /** A missing required argument is reported even when the id is taken:
      validation precedes the conflict check. */
  lemma ValidationBeforeConflict(s: Store, id: nat, req: Request)
    requires id in s && req.title.None?
    ensures HandlePut(s, id, req) == Err(Error(BadRequest, "Title of item is needed"))
  {
  }

  /** A PATCH that sends only a new title is refused: the route parser
      requires the section as well, even though the handler itself would
      keep an unsent section. */
  lemma TitleOnlyPatchRefused(s: Store, id: nat, title: string, mods: seq<string>)
    requires id in s
    ensures HandlePatch(s, id, Request(Some(title), [], mods)) == Err(Error(BadRequest, "Section not specified"))
    ensures Patch(s, id, Args(title, [], None)).value[id].section == s[id].section
  {
  }

  /** Through the route, PATCH cannot leave the title or the section out: the
      parser requires both, so a successful patch always overwrites the
      section with the one sent. */
  lemma PatchRouteOverwritesSection(s: Store, id: nat, req: Request)
    requires HandlePatch(s, id, req).Ok?
    ensures HandlePatch(s, id, req).value[id].section == req.section
    ensures req.title.value != "" ==> HandlePatch(s, id, req).value[id].title == req.title.value
  {
  }

  /** Creating an item without modifiers under a section the menu lists makes
      the next menu read crash, whatever order the rows come back in; reads
      keep crashing until that row is patched with modifiers
      (`PatchWithModifiersRepairsRow`), moved by a PATCH to a section neither
      query selects (`PatchOutOfMenuRepairsRead`), or deleted. */
  lemma PutWithoutModifiersBreaksMenu(s: Store, id: nat, req: Request, rows: seq<Row>, p: nat)
    requires HandlePut(s, id, req).Ok?
    requires req.modifiers == []
    requires p < |SectionsEnum| && Matches(SectionsEnum[p], req.section)
    requires IsListing(rows, HandlePut(s, id, req).value)
    ensures GetAll(HandlePut(s, id, req).value, rows) == Err(Crash)
  {
    var t := HandlePut(s, id, req).value;
    var i := ListedRow(t, rows, id);
    NullModifiersBreakMenu(rows, i, p);
  }

  /** A successful PATCH that sends modifiers leaves the row with modifiers,
      so a row stored with "null" modifiers no longer breaks the menu. */
  lemma PatchWithModifiersRepairsRow(s: Store, id: nat, req: Request)
    requires HandlePatch(s, id, req).Ok? && req.modifiers != []
    ensures HandlePatch(s, id, req).value[id].modifiers == Some(req.modifiers)
  {
  }

  /** A PATCH that moves a row to a section neither query selects makes the
      read succeed again when the other rows render, even if it sends no
      modifiers and the row keeps its "null" modifiers. */
  lemma PatchOutOfMenuRepairsRead(s: Store, id: nat, req: Request, u: Store, rows: seq<Row>)
    requires HandlePatch(s, id, req) == Ok(u)
    requires forall p :: 0 <= p < |SectionsEnum| ==> !Matches(SectionsEnum[p], req.section)
    requires TableRenderable(s - {id})
    requires IsListing(rows, u)
    ensures req.modifiers == [] ==> u[id].modifiers == s[id].modifiers
    ensures GetAll(u, rows).Ok?
  {
    assert u[id].section == req.section;
    forall k, p | k in u && 0 <= p < |SectionsEnum| && Matches(SectionsEnum[p], u[k].section)
      ensures u[k].modifiers.Some?
    {
      if k != id {
        assert k in s - {id} && u[k] == s[k];
      }
    }
  }

  /** A created item shows up, with its title and modifiers, in the block of
      every section it matches, whenever the new table renders. */
  lemma CreatedItemInEveryMatchingBlock(s: Store, id: nat, req: Request, t: Store, rows: seq<Row>, p: nat)
    requires HandlePut(s, id, req) == Ok(t)
    requires p < |SectionsEnum| && Matches(SectionsEnum[p], req.section)
    requires IsListing(rows, t) && TableRenderable(t)
    ensures req.modifiers != []
    ensures GetAll(t, rows).Ok?
    ensures var block := GetAll(t, rows).value[p];
            exists j :: 0 <= j < |block.items|
              && block.items[j].title == req.title.value
              && ModifierTitles(block.items[j].modifiers) == req.modifiers
  {
    var i := ListedRow(t, rows, id);
    assert t[id].modifiers.Some?;
    RowInEveryMatchingBlock(rows, i, p);
  }

  /** After a delete, no later menu read lists the deleted row. */
  lemma DeletedRowNotListed(s: Store, id: nat, rows: seq<Row>)
    requires Delete(s, id).Ok?
    requires IsListing(rows, Delete(s, id).value)
    ensures forall i :: 0 <= i < |rows| ==> rows[i].id != id
  {
  }
}
