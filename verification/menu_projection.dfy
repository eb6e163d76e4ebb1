/** The grouped menu built by `parseItemsResult` and `createItemObject`
    (main.py:118-144): one block per entry of the section enumeration, each
    listing the rows its section query selects, renumbered from 1, with each
    row's modifiers renumbered from 1. */
module MenuProjection {
  import opened Outcomes
  import opened ItemStore
  import opened SectionMatch

  /** `sections_enum` (main.py:20-23): key `p` names `SectionsEnum[p]`, and
      the keys are visited in order. */
  const SectionsEnum: seq<string> := ["Lunch", "Dinner"]

  datatype Modifier = Modifier(id: nat, title: string)

  /** An item of a block: a display id, the title and the numbered modifiers.
      It carries neither the storage id nor the section list. */
  datatype MenuItem = MenuItem(id: nat, title: string, modifiers: seq<Modifier>)

  datatype Block = Block(id: nat, title: string, items: seq<MenuItem>)

  type Menu = seq<Block>

  function BlockTitle(tag: string): string {
    tag + " Specials"
  }

  function ModifierTitles(ms: seq<Modifier>): (r: seq<string>)
    ensures |r| == |ms|
  {
    seq(|ms|, j requires 0 <= j < |ms| => ms[j].title)
  }

  /** The ids of `ms` are 1, 2, ..., |ms| in order. */
  ghost predicate DenseModifierIds(ms: seq<Modifier>) {
    forall j :: 0 <= j < |ms| ==> ms[j].id == j + 1
  }

  /** The modifier list of an item object (main.py:139-142). */
  function NumberModifiers(mods: seq<string>): (r: seq<Modifier>)
    ensures DenseModifierIds(r)
    ensures ModifierTitles(r) == mods
  {
    if mods == [] then []
    else NumberModifiers(mods[..|mods| - 1]) + [Modifier(|mods|, mods[|mods| - 1])]
  }

  /** One item object (main.py:136-144). Iterating a "null" modifiers column
      raises, which the service answers with a 500. */
  function CreateItemObject(item: Item, displayId: nat): (r: Result<MenuItem>)
    ensures r.Ok? <==> item.modifiers.Some?
    ensures r.Err? ==> r.error == Crash
    ensures r.Ok? ==> r.value.id == displayId && r.value.title == item.title
    ensures r.Ok? ==> ModifierTitles(r.value.modifiers) == item.modifiers.value
    ensures r.Ok? ==> DenseModifierIds(r.value.modifiers)
  {
    match item.modifiers
    case None => Err(Crash)
    case Some(mods) => Ok(MenuItem(displayId, item.title, NumberModifiers(mods)))
  }

  /** Rows the section query for `tag` selects, in the order given. */
  function Selected(rows: seq<Row>, tag: string): (r: seq<Row>)
    ensures |r| <= |rows|
    ensures forall x :: x in r ==> x in rows && Matches(tag, x.item.section)
    ensures forall i :: 0 <= i < |rows| && Matches(tag, rows[i].item.section) ==> rows[i] in r
  {
    if rows == [] then []
    else
      var last := rows[|rows| - 1];
      var front := Selected(rows[..|rows| - 1], tag);
      assert rows == rows[..|rows| - 1] + [last];
      if Matches(tag, last.item.section) then front + [last] else front
  }

  /** The items of one block: objects numbered 1.. in the order of `rows`
      (main.py:125-130). The first row without modifiers aborts. */
  function NumberItems(rows: seq<Row>): (r: Result<seq<MenuItem>>)
    ensures r.Ok? <==> forall i :: 0 <= i < |rows| ==> rows[i].item.modifiers.Some?
    ensures r.Err? ==> r.error == Crash
    ensures r.Ok? ==> |r.value| == |rows|
    ensures r.Ok? ==> forall i :: 0 <= i < |rows| ==> CreateItemObject(rows[i].item, i + 1) == Ok(r.value[i])
  {
    if rows == [] then Ok([])
    else
      match NumberItems(rows[..|rows| - 1])
      case Err(e) => Err(e)
      case Ok(front) =>
        match CreateItemObject(rows[|rows| - 1].item, |rows|)
        case Err(e) => Err(e)
        case Ok(obj) => Ok(front + [obj])
  }

  /** Every row the query for `tag` selects can be rendered. */
  ghost predicate Renderable(rows: seq<Row>, tag: string) {
    forall i :: 0 <= i < |rows| && Matches(tag, rows[i].item.section) ==> rows[i].item.modifiers.Some?
  }

  /** The block for enumeration key `p` (main.py:122-130). */
  function SectionBlock(rows: seq<Row>, p: nat): (r: Result<Block>)
    requires p < |SectionsEnum|
    ensures r.Ok? <==> Renderable(rows, SectionsEnum[p])
    ensures r.Err? ==> r.error == Crash
    ensures r.Ok? ==> r.value.id == p + 1 && r.value.title == BlockTitle(SectionsEnum[p])
    ensures r.Ok? ==> NumberItems(Selected(rows, SectionsEnum[p])) == Ok(r.value.items)
  {
    var tag := SectionsEnum[p];
    match NumberItems(Selected(rows, tag))
    case Err(e) => Err(e)
    case Ok(items) => Ok(Block(p + 1, BlockTitle(tag), items))
  }

  /** The blocks for the first `k` enumeration keys, in key order. */
  function Blocks(rows: seq<Row>, k: nat): (r: Result<seq<Block>>)
    requires k <= |SectionsEnum|
    ensures r.Ok? <==> forall p :: 0 <= p < k ==> Renderable(rows, SectionsEnum[p])
    ensures r.Err? ==> r.error == Crash
    ensures r.Ok? ==> |r.value| == k
    ensures r.Ok? ==> forall p :: 0 <= p < k ==> SectionBlock(rows, p) == Ok(r.value[p])
  {
    if k == 0 then Ok([])
    else
      match Blocks(rows, k - 1)
      case Err(e) => Err(e)
      case Ok(front) =>
        match SectionBlock(rows, k - 1)
        case Err(e) => Err(e)
        case Ok(b) => Ok(front + [b])
  }

  /** `parseItemsResult` (main.py:118-133) over one listing of the table. */
  function Project(rows: seq<Row>): (r: Result<Menu>)
    ensures r.Ok? <==> forall p :: 0 <= p < |SectionsEnum| ==> Renderable(rows, SectionsEnum[p])
    ensures r.Err? ==> r.error == Crash
    ensures r.Ok? ==> |r.value| == |SectionsEnum|
    ensures r.Ok? ==> forall p :: 0 <= p < |r.value| ==>
                        r.value[p].id == p + 1 && r.value[p].title == BlockTitle(SectionsEnum[p])
  {
    Blocks(rows, |SectionsEnum|)
  }

  // ----- Properties of the projection -----

  /** A block is determined by the items its selection numbers to. */
  lemma SectionBlockFromItems(rows: seq<Row>, p: nat, items: seq<MenuItem>)
    requires p < |SectionsEnum|
    requires NumberItems(Selected(rows, SectionsEnum[p])) == Ok(items)
    ensures SectionBlock(rows, p) == Ok(Block(p + 1, BlockTitle(SectionsEnum[p]), items))
  {
  }

  /** The menu is determined by its two blocks. */
  lemma ProjectFromBlocks(rows: seq<Row>, lunch: Block, dinner: Block)
    requires SectionBlock(rows, 0) == Ok(lunch) && SectionBlock(rows, 1) == Ok(dinner)
    ensures Project(rows) == Ok([lunch, dinner])
  {
    assert Blocks(rows, 0) == Ok([]);
    assert [] + [lunch] == [lunch];
    assert Blocks(rows, 1) == Ok([lunch]);
    assert [lunch] + [dinner] == [lunch, dinner];
    assert Blocks(rows, 2) == Ok([lunch, dinner]);
  }

  /** The blocks come in the key order of the section enumeration: Lunch,
      then Dinner, numbered 1 and 2. */
  lemma MenuSectionOrder(rows: seq<Row>)
    requires Project(rows).Ok?
    ensures |Project(rows).value| == 2
    ensures Project(rows).value[0].id == 1 && Project(rows).value[0].title == "Lunch Specials"
    ensures Project(rows).value[1].id == 2 && Project(rows).value[1].title == "Dinner Specials"
  {
    var m := Project(rows).value;
    assert m[0].title == BlockTitle(SectionsEnum[0]) == "Lunch Specials";
    assert m[1].title == BlockTitle(SectionsEnum[1]) == "Dinner Specials";
  }

  /** Selection distributes over concatenation, so it keeps rows in the order
      they are listed. */
  lemma {:induction false} SelectedAppend(a: seq<Row>, b: seq<Row>, tag: string)
    ensures Selected(a + b, tag) == Selected(a, tag) + Selected(b, tag)
    decreases |b|
  {
    if b == [] {
      assert a + b == a;
    } else {
      var b' := b[..|b| - 1];
      var last := b[|b| - 1];
      assert (a + b)[..|a + b| - 1] == a + b';
      assert (a + b)[|a + b| - 1] == last;
      SelectedAppend(a, b', tag);
    }
  }

  /** A single row is selected exactly when it matches. */
  lemma SelectedSingle(x: Row, tag: string)
    ensures Selected([x], tag) == if Matches(tag, x.item.section) then [x] else []
  {
    assert [x][..0] == [];
  }

  /** Two selected rows appear in the block's selection in their listing
      order. */
  lemma SelectedKeepsOrder(rows: seq<Row>, i: nat, j: nat, tag: string)
    requires i < j < |rows|
    requires Matches(tag, rows[i].item.section) && Matches(tag, rows[j].item.section)
    ensures exists pi, pj :: 0 <= pi < pj < |Selected(rows, tag)|
              && Selected(rows, tag)[pi] == rows[i] && Selected(rows, tag)[pj] == rows[j]
  {
    var front, x, rest := rows[..j], rows[j], rows[j + 1..];
    assert rows == front + [x] + rest;
    SelectedAppend(front + [x], rest, tag);
    SelectedAppend(front, [x], tag);
    SelectedSingle(x, tag);
    var sf := Selected(front, tag);
    assert Selected(rows, tag) == sf + [x] + Selected(rest, tag);
    assert front[i] == rows[i];
    var pi :| 0 <= pi < |sf| && sf[pi] == rows[i];
    assert Selected(rows, tag)[pi] == rows[i];
    assert Selected(rows, tag)[|sf|] == x;
  }

  /** What the block for key `p` lists: the selected rows, in order, each
      with display id = its position + 1, its title, and its modifiers in
      stored order numbered from 1. */
  lemma BlockContents(rows: seq<Row>, p: nat)
    requires p < |SectionsEnum|
    requires Project(rows).Ok?
    ensures var items := Project(rows).value[p].items;
            var sel := Selected(rows, SectionsEnum[p]);
            && |items| == |sel|
            && forall j :: 0 <= j < |items| ==>
                 && items[j].id == j + 1
                 && items[j].title == sel[j].item.title
                 && sel[j].item.modifiers.Some?
                 && ModifierTitles(items[j].modifiers) == sel[j].item.modifiers.value
                 && DenseModifierIds(items[j].modifiers)
  {
    var b := Project(rows).value[p];
    assert SectionBlock(rows, p) == Ok(b);
    var sel := Selected(rows, SectionsEnum[p]);
    assert NumberItems(sel) == Ok(b.items);
    forall j | 0 <= j < |b.items|
      ensures CreateItemObject(sel[j].item, j + 1) == Ok(b.items[j])
    {
    }
  }

  /** Multi-membership: a row appears in the block of every tag it matches,
      with its title and its modifiers. */
  lemma RowInEveryMatchingBlock(rows: seq<Row>, i: nat, p: nat)
    requires i < |rows| && p < |SectionsEnum|
    requires Project(rows).Ok?
    requires Matches(SectionsEnum[p], rows[i].item.section)
    ensures rows[i].item.modifiers.Some?
    ensures exists j :: 0 <= j < |Project(rows).value[p].items|
              && Project(rows).value[p].items[j].title == rows[i].item.title
              && ModifierTitles(Project(rows).value[p].items[j].modifiers) == rows[i].item.modifiers.value
  {
    BlockContents(rows, p);
    var sel := Selected(rows, SectionsEnum[p]);
    assert rows[i] in sel;
    var j :| 0 <= j < |sel| && sel[j] == rows[i];
    assert Project(rows).value[p].items[j].title == rows[i].item.title;
  }

  /** No two rows of the listing share an id. */
  ghost predicate DistinctIds(rows: seq<Row>) {
    forall a, b :: 0 <= a < b < |rows| ==> rows[a].id != rows[b].id
  }

  /** Every listing of the table has distinct ids. */
  lemma ListingDistinctIds(rows: seq<Row>, s: Store)
    requires IsListing(rows, s)
    ensures DistinctIds(rows)
  {
  }

  /** Every selected row is a listed row, at some listing position. */
  lemma SelectedRowListed(rows: seq<Row>, tag: string, a: nat) returns (k: nat)
    requires a < |Selected(rows, tag)|
    ensures k < |rows| && rows[k] == Selected(rows, tag)[a]
  {
    var x := Selected(rows, tag)[a];
    assert x in Selected(rows, tag);
    k :| 0 <= k < |rows| && rows[k] == x;
  }

  /** Selecting from a listing with distinct ids keeps the ids distinct. */
  lemma {:induction false} SelectedDistinctIds(rows: seq<Row>, tag: string)
    requires DistinctIds(rows)
    ensures DistinctIds(Selected(rows, tag))
    decreases |rows|
  {
    if rows != [] {
      var front, last := rows[..|rows| - 1], rows[|rows| - 1];
      assert DistinctIds(front);
      SelectedDistinctIds(front, tag);
      var sf := Selected(front, tag);
      if Matches(tag, last.item.section) {
        var sel := Selected(rows, tag);
        assert sel == sf + [last];
        forall a, b | 0 <= a < b < |sel| ensures sel[a].id != sel[b].id {
          if b == |sf| {
            var k := SelectedRowListed(front, tag, a);
            assert sel[a] == rows[k] && sel[b] == rows[|rows| - 1];
          }
        }
      }
    }
  }

  /** Multi-membership, exactly: on a listing with distinct ids (as every
      listing of the table is), a row that matches the tag of block p sits at
      exactly one position of that block's selection, and the block item at
      that position is its object. */
  lemma RowOnceInEachMatchingBlock(rows: seq<Row>, i: nat, p: nat)
    requires DistinctIds(rows)
    requires i < |rows| && p < |SectionsEnum|
    requires forall q :: 0 <= q < |SectionsEnum| ==> Renderable(rows, SectionsEnum[q])
    requires Matches(SectionsEnum[p], rows[i].item.section)
    ensures var sel := Selected(rows, SectionsEnum[p]);
            var items := Project(rows).value[p].items;
            exists j :: 0 <= j < |sel| && j < |items| && sel[j] == rows[i]
              && items[j].title == rows[i].item.title
              && ModifierTitles(items[j].modifiers) == rows[i].item.modifiers.value
              && forall j' :: 0 <= j' < |sel| && sel[j'].id == rows[i].id ==> j' == j
  {
    var sel := Selected(rows, SectionsEnum[p]);
    assert Project(rows).Ok?;
    var items := Project(rows).value[p].items;
    BlockContents(rows, p);
    SelectedDistinctIds(rows, SectionsEnum[p]);
    assert rows[i] in sel;
    var j :| 0 <= j < |sel| && sel[j] == rows[i];
    assert items[j].title == rows[i].item.title;
    forall j' | 0 <= j' < |sel| && sel[j'].id == rows[i].id ensures j' == j {
      assert DistinctIds(sel);
    }
  }

  /** Conversely, every item of a block comes from a listed row that the
      block's section query selects. */
  lemma BlockItemFromMatchingRow(rows: seq<Row>, p: nat, j: nat)
    requires p < |SectionsEnum|
    requires Project(rows).Ok?
    requires j < |Project(rows).value[p].items|
    ensures exists i :: 0 <= i < |rows|
              && Matches(SectionsEnum[p], rows[i].item.section)
              && Project(rows).value[p].items[j].title == rows[i].item.title
              && ModifierTitles(Project(rows).value[p].items[j].modifiers) == rows[i].item.modifiers.value
  {
    BlockContents(rows, p);
    var sel := Selected(rows, SectionsEnum[p]);
    assert sel[j] in sel;
    var i :| 0 <= i < |rows| && rows[i] == sel[j];
  }

  /** A listed row with a "null" modifiers column that some section query
      selects makes the whole menu fail. */
  lemma NullModifiersBreakMenu(rows: seq<Row>, i: nat, p: nat)
    requires i < |rows| && p < |SectionsEnum|
    requires rows[i].item.modifiers.None?
    requires Matches(SectionsEnum[p], rows[i].item.section)
    ensures Project(rows) == Err(Crash)
  {
  }

  /** The menu depends on the listing only through what each section query
      selects. */
  lemma {:induction false} BlocksFollowSelection(rows: seq<Row>, rows': seq<Row>, k: nat)
    requires k <= |SectionsEnum|
    requires forall p :: 0 <= p < |SectionsEnum| ==> Selected(rows, SectionsEnum[p]) == Selected(rows', SectionsEnum[p])
    ensures Blocks(rows, k) == Blocks(rows', k)
  {
    if k > 0 {
      BlocksFollowSelection(rows, rows', k - 1);
      assert SectionBlock(rows, k - 1) == SectionBlock(rows', k - 1);
    }
  }

  /** A row that no section query selects does not affect the menu, even
      when its modifiers are "null". */
  lemma UnselectedRowIgnored(rows: seq<Row>, i: nat)
    requires i < |rows|
    requires forall p :: 0 <= p < |SectionsEnum| ==> !Matches(SectionsEnum[p], rows[i].item.section)
    ensures Project(rows[..i] + rows[i + 1..]) == Project(rows)
  {
    var rest := rows[..i] + rows[i + 1..];
    assert rows == rows[..i] + [rows[i]] + rows[i + 1..];
    forall p | 0 <= p < |SectionsEnum|
      ensures Selected(rows, SectionsEnum[p]) == Selected(rest, SectionsEnum[p])
    {
      var tag := SectionsEnum[p];
      SelectedAppend(rows[..i] + [rows[i]], rows[i + 1..], tag);
      SelectedAppend(rows[..i], [rows[i]], tag);
      SelectedAppend(rows[..i], rows[i + 1..], tag);
      SelectedSingle(rows[i], tag);
    }
    BlocksFollowSelection(rest, rows, |SectionsEnum|);
  }
}
