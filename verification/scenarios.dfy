/** The request sequence of the manual driver (test.py:5-22), worked through
    the model: three creates, a patch of item 1, a delete of item 1, then the
    menu read. */
module Scenarios {
  import opened Outcomes
  import opened RequestArgs
  import opened ItemStore
  import opened SectionMatch
  import opened MenuProjection
  import opened Service

  const Sandwich: Request := Request(Some("Sandwich"), ["Lunch"], ["no pickles", "no mayo"])
  const Pizza: Request := Request(Some("Pizza"), ["Dinner"], ["extra cheese", "gluten free"])
  const Soup: Request := Request(Some("Soup"), ["Lunch", "Dinner"], ["saltines", "no spoon"])
  const Patched: Request := Request(Some("patched_name"), ["Dinner"], ["none"])

  const PizzaItem: Item := Item("Pizza", ["Dinner"], Some(["extra cheese", "gluten free"]))
  const SoupItem: Item := Item("Soup", ["Lunch", "Dinner"], Some(["saltines", "no spoon"]))

  /** The menu the driver's final read returns: Soup alone under Lunch, and
      Pizza then Soup under Dinner, each numbered from 1. */
  const ExpectedMenu: Menu := [
    Block(1, "Lunch Specials", [
      MenuItem(1, "Soup", [Modifier(1, "saltines"), Modifier(2, "no spoon")])]),
    Block(2, "Dinner Specials", [
      MenuItem(1, "Pizza", [Modifier(1, "extra cheese"), Modifier(2, "gluten free")]),
      MenuItem(2, "Soup", [Modifier(1, "saltines"), Modifier(2, "no spoon")])])
  ]

  const FinalTable: Store := map[2 := PizzaItem, 3 := SoupItem]

  /** The table listed in key order.

      The lemmas below take the rows (and the table) as a parameter equal to
      these constants rather than naming the constants directly: applied to
      literal arguments, the recursive selection and matching functions are
      unfolded eagerly by the verifier, which exhausts its resources. */
  const FinalRows: seq<Row> := [Row(2, PizzaItem), Row(3, SoupItem)]

  /** The writes of the driver run: every one succeeds, and afterwards only
      Pizza and Soup are left. */
  lemma DriverWrites()
    ensures HandlePut(map[], 1, Sandwich).Ok?
    ensures var s1 := HandlePut(map[], 1, Sandwich).value;
            HandlePut(s1, 2, Pizza).Ok?
    ensures var s1 := HandlePut(map[], 1, Sandwich).value;
            var s2 := HandlePut(s1, 2, Pizza).value;
            HandlePut(s2, 3, Soup).Ok?
    ensures var s1 := HandlePut(map[], 1, Sandwich).value;
            var s2 := HandlePut(s1, 2, Pizza).value;
            var s3 := HandlePut(s2, 3, Soup).value;
            && HandlePatch(s3, 1, Patched).Ok?
            && Delete(HandlePatch(s3, 1, Patched).value, 1) == Ok(FinalTable)
  {
    var s1 := HandlePut(map[], 1, Sandwich).value;
    var s2 := HandlePut(s1, 2, Pizza).value;
    var s3 := HandlePut(s2, 3, Soup).value;
    var s4 := HandlePatch(s3, 1, Patched).value;
    assert s4 - {1} == FinalTable;
  }

  /** Which stored section lists the two queries select. */
  lemma DriverMatches()
    ensures Matches("Lunch", ["Lunch", "Dinner"]) && Matches("Dinner", ["Lunch", "Dinner"])
    ensures Matches("Dinner", ["Dinner"]) && !Matches("Lunch", ["Dinner"])
  {
    assert IsSubstring("Lunch", "Lunch");
    assert IsSubstring("Dinner", "Dinner");
    LunchNotInDinner();
  }

  /** The Lunch query of the final read selects Soup alone. */
  lemma LunchSelection(rows: seq<Row>)
    requires rows == FinalRows
    ensures Selected(rows, "Lunch") == [Row(3, SoupItem)]
  {
    DriverMatches();
    assert rows[..1] == [Row(2, PizzaItem)];
    assert rows[..1][..0] == [];
  }

  /** The Dinner query of the final read selects both rows, in order. */
  lemma DinnerSelection(rows: seq<Row>)
    requires rows == FinalRows
    ensures Selected(rows, "Dinner") == rows
  {
    DriverMatches();
    assert rows[..1] == [Row(2, PizzaItem)];
    assert rows[..1][..0] == [];
  }

  const SoupObject: MenuItem := MenuItem(1, "Soup", [Modifier(1, "saltines"), Modifier(2, "no spoon")])

  lemma SoupModifiers()
    ensures NumberModifiers(SoupItem.modifiers.value) == SoupObject.modifiers
  {
    var r := NumberModifiers(SoupItem.modifiers.value);
    assert ModifierTitles(r)[0] == r[0].title;
    assert ModifierTitles(r)[1] == r[1].title;
  }

  lemma PizzaModifiers()
    ensures NumberModifiers(PizzaItem.modifiers.value) == PizzaObject.modifiers
  {
    var r := NumberModifiers(PizzaItem.modifiers.value);
    assert ModifierTitles(r)[0] == r[0].title;
    assert ModifierTitles(r)[1] == r[1].title;
  }

  const PizzaObject: MenuItem := MenuItem(1, "Pizza", [Modifier(1, "extra cheese"), Modifier(2, "gluten free")])

  /** The items of the Lunch block: Soup, numbered 1. */
  lemma LunchItems(lunch: seq<Row>)
    requires lunch == [Row(3, SoupItem)]
    ensures NumberItems(lunch) == Ok([SoupObject])
  {
    SoupModifiers();
    var r := NumberItems(lunch);
    assert CreateItemObject(lunch[0].item, 1) == Ok(r.value[0]);
    assert r.value == [SoupObject];
  }

  /** The items of the Dinner block: Pizza numbered 1, then Soup numbered 2. */
  lemma DinnerItems(dinner: seq<Row>)
    requires dinner == FinalRows
    ensures NumberItems(dinner) == Ok([PizzaObject, SoupObject.(id := 2)])
  {
    SoupModifiers();
    PizzaModifiers();
    var r := NumberItems(dinner);
    assert CreateItemObject(dinner[0].item, 1) == Ok(r.value[0]);
    assert CreateItemObject(dinner[1].item, 2) == Ok(r.value[1]);
    assert r.value == [PizzaObject, SoupObject.(id := 2)];
  }

  /** The two block titles. */
  lemma SpecialsTitles()
    ensures BlockTitle("Lunch") == "Lunch Specials" && BlockTitle("Dinner") == "Dinner Specials"
  {
  }

  /** The block for key 0 of any listing whose Lunch query selects Soup alone. */
  lemma LunchBlockItems(rows: seq<Row>, lunch: seq<Row>)
    requires lunch == [Row(3, SoupItem)] && Selected(rows, "Lunch") == lunch
    ensures SectionBlock(rows, 0) == Ok(Block(1, BlockTitle("Lunch"), [SoupObject]))
  {
    LunchItems(lunch);
    SectionBlockFromItems(rows, 0, [SoupObject]);
  }

  /** The Lunch block of the final read. */
  lemma LunchBlock(rows: seq<Row>, lunch: seq<Row>)
    requires lunch == [Row(3, SoupItem)] && Selected(rows, "Lunch") == lunch
    ensures SectionBlock(rows, 0) == Ok(ExpectedMenu[0])
  {
    LunchBlockItems(rows, lunch);
    SpecialsTitles();
  }

  /** The block for key 1 of any listing whose Dinner query selects Pizza,
      then Soup. */
  lemma DinnerBlockItems(rows: seq<Row>, dinner: seq<Row>)
    requires dinner == FinalRows && Selected(rows, "Dinner") == dinner
    ensures SectionBlock(rows, 1) == Ok(Block(2, BlockTitle("Dinner"), [PizzaObject, SoupObject.(id := 2)]))
  {
    DinnerItems(dinner);
    SectionBlockFromItems(rows, 1, [PizzaObject, SoupObject.(id := 2)]);
  }

  /** The Dinner block of the final read. */
  lemma DinnerBlock(rows: seq<Row>, dinner: seq<Row>)
    requires dinner == FinalRows && Selected(rows, "Dinner") == dinner
    ensures SectionBlock(rows, 1) == Ok(ExpectedMenu[1])
  {
    DinnerBlockItems(rows, dinner);
    SpecialsTitles();
  }

  /** The rows in key order are a listing of the final table. */
  lemma FinalRowsList(rows: seq<Row>, t: Store)
    requires rows == FinalRows && t == FinalTable
    ensures IsListing(rows, t)
  {
    assert rows[0].id == 2 && rows[1].id == 3;
  }

  /** The final menu read of the driver run. */
  lemma DriverMenu(rows: seq<Row>, t: Store)
    requires rows == FinalRows && t == FinalTable
    ensures IsListing(rows, t)
    ensures GetAll(t, rows) == Ok(ExpectedMenu)
  {
    FinalRowsList(rows, t);
    LunchSelection(rows);
    DinnerSelection(rows);
    LunchBlock(rows, Selected(rows, "Lunch"));
    DinnerBlock(rows, rows);
    ProjectFromBlocks(rows, ExpectedMenu[0], ExpectedMenu[1]);
    assert [ExpectedMenu[0], ExpectedMenu[1]] == ExpectedMenu;
    assert t != map[];
  }

  /** "Lunch" does not occur in "Dinner". */
  lemma LunchNotInDinner()
    ensures !IsSubstring("Lunch", "Dinner")
  {
    var s := "Dinner";
    assert !("Lunch" <= s) by { assert s[0] != 'L'; }
    assert s[1..] == "inner";
    assert !("Lunch" <= s[1..]) by { assert s[1..][0] != 'L'; }
    ShorterNeverContains("Lunch", s[1..][1..]);
  }
}
