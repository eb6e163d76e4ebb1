/** The menu-item table (main.py:26-30) as a keyed collection, and the three
    writes the service performs on it (main.py:66-115). Each write either
    aborts with an error or yields the new table. */
module ItemStore {
  import opened Outcomes
  import opened RequestArgs

  /** One stored row. `section` and `modifiers` are kept decoded; a
      `modifiers` of `None` is the text "null" written for a request that
      sent no modifiers. */
  datatype Item = Item(title: string, section: seq<string>, modifiers: Option<seq<string>>)

  /** The table, keyed by the primary key `id`. */
  type Store = map<nat, Item>

  /** A row as a query returns it: its key and its columns. */
  datatype Row = Row(id: nat, item: Item)

  function Lookup(s: Store, id: nat): Option<Item> {
    if id in s then Some(s[id]) else None
  }

  /** `rows` is one complete enumeration of the table, in some order: each
      key exactly once, with its stored columns. */
  ghost predicate IsListing(rows: seq<Row>, s: Store) {
    && (forall i :: 0 <= i < |rows| ==> rows[i].id in s && s[rows[i].id] == rows[i].item)
    && (forall i, j :: 0 <= i < j < |rows| ==> rows[i].id != rows[j].id)
    && (forall id :: id in s ==> exists i :: 0 <= i < |rows| && rows[i].id == id)
  }

  /** The row `put` inserts: modifiers are stored as sent, `None` included. */
  function NewItem(args: Args): Item {
    Item(args.title, args.section, args.modifiers)
  }

  /** Create (main.py:68-79): a taken id is a conflict, otherwise exactly one
      key is added. */
  function Put(s: Store, id: nat, args: Args): (r: Result<Store>)
    ensures id in s ==> r == Err(Error(Conflict, "id taken"))
    ensures id !in s ==> r.Ok?
    ensures r.Ok? ==> r.value.Keys == s.Keys + {id}
    ensures r.Ok? ==> Lookup(r.value, id) == Some(Item(args.title, args.section, args.modifiers))
    ensures r.Ok? ==> forall k :: k in s ==> k in r.value && r.value[k] == s[k]
  {
    if id in s then Err(Error(Conflict, "id taken"))
    else Ok(s[id := NewItem(args)])
  }

  /** A supplied value counts only when it is non-empty (Python truthiness
      of the parsed argument). */
  predicate SuppliedTitle(args: Args) { args.title != "" }
  predicate SuppliedSection(args: Args) { args.section != [] }
  predicate SuppliedModifiers(args: Args) { args.modifiers.Some? && args.modifiers.value != [] }

  /** The stored row after `patch` has applied the supplied fields. */
  function PatchItem(prior: Item, args: Args): Item {
    Item(if SuppliedTitle(args) then args.title else prior.title,
         if SuppliedSection(args) then args.section else prior.section,
         if SuppliedModifiers(args) then args.modifiers else prior.modifiers)
  }

  /** Update (main.py:83-98): an absent id is not found; otherwise each of the
      three fields is overwritten exactly when a non-empty value was supplied,
      and no other row changes. */
  function Patch(s: Store, id: nat, args: Args): (r: Result<Store>)
    ensures id !in s ==> r == Err(Error(NotFound, "Could not update " + DecimalString(id)))
    ensures id in s ==> r.Ok? && r.value.Keys == s.Keys
    ensures r.Ok? ==> forall k :: k in s && k != id ==> r.value[k] == s[k]
    ensures r.Ok? && args.title != "" ==> r.value[id].title == args.title
    ensures r.Ok? && args.title == "" ==> r.value[id].title == s[id].title
    ensures r.Ok? && args.section != [] ==> r.value[id].section == args.section
    ensures r.Ok? && args.section == [] ==> r.value[id].section == s[id].section
    ensures r.Ok? && args.modifiers.Some? && args.modifiers.value != [] ==> r.value[id].modifiers == args.modifiers
    ensures r.Ok? && (args.modifiers.None? || args.modifiers == Some([])) ==> r.value[id].modifiers == s[id].modifiers
  {
    if id !in s then Err(Error(NotFound, "Could not update " + DecimalString(id)))
    else Ok(s[id := PatchItem(s[id], args)])
  }

  /** Delete (main.py:101-115): an absent id is not found; otherwise the key is
      removed and the removal is re-checked by a second lookup, which aborts
      with "Was not able to delete" if the row is still there. */
  function Delete(s: Store, id: nat): (r: Result<Store>)
    ensures r.Ok? <==> id in s
    ensures r.Err? ==> r.error == Error(NotFound, "id not existing")
    ensures r.Ok? ==> r.value.Keys == s.Keys - {id} && Lookup(r.value, id) == None
    ensures r.Ok? ==> forall k :: k in r.value ==> r.value[k] == s[k]
  {
    if id !in s then Err(Error(NotFound, "id not existing"))
    else
      var after := s - {id};
      if Lookup(after, id).Some? then Err(Error(NotFound, "Was not able to delete"))
      else Ok(after)
  }

  /** Decimal text of a non-negative id, as the f-string in the 404 message
      renders it (main.py:87): digits only, no leading zero, and it reads
      back as the id. */
  function DecimalString(n: nat): (r: string)
    ensures r != [] && (r[0] == '0' ==> n == 0 && |r| == 1)
    ensures forall i :: 0 <= i < |r| ==> '0' <= r[i] <= '9'
    ensures DecimalValue(r) == n
    decreases n
  {
    var digit := [(48 + n % 10) as char];
    if n < 10 then digit
    else
      var front := DecimalString(n / 10);
      assert (front + digit)[..|front|] == front;
      front + digit
  }

  /** The number a string of decimal digits denotes. */
  function DecimalValue(s: string): int {
    if s == [] then 0
    else 10 * DecimalValue(s[..|s| - 1]) + (s[|s| - 1] as int - 48)
  }

  // ----- Properties relating several operations -----

  /** Ids are unique: a second create on the same id is a conflict. */
  lemma PutTwiceConflicts(s: Store, id: nat, a: Args, b: Args)
    requires Put(s, id, a).Ok?
    ensures Put(Put(s, id, a).value, id, b) == Err(Error(Conflict, "id taken"))
  {
  }

  /** Deleting a freshly created id gives back the table as it was. */
  lemma PutThenDeleteRestores(s: Store, id: nat, args: Args)
    requires id !in s
    ensures Put(s, id, args).Ok?
    ensures Delete(Put(s, id, args).value, id) == Ok(s)
  {
    var t := Put(s, id, args).value;
    assert t - {id} == s;
  }

  /** A second delete of the same id is "not existing", never the
      "Was not able to delete" failure. */
  lemma DeleteTwiceNotFound(s: Store, id: nat)
    requires id in s
    ensures Delete(Delete(s, id).value, id) == Err(Error(NotFound, "id not existing"))
  {
  }

  /** Applying the same patch twice has the effect of applying it once. */
  lemma PatchIdempotent(s: Store, id: nat, args: Args)
    requires id in s
    ensures Patch(Patch(s, id, args).value, id, args) == Patch(s, id, args)
  {
    var t := Patch(s, id, args).value;
    assert PatchItem(t[id], args) == t[id];
    assert t[id := t[id]] == t;
  }

  /** A patch that supplies nothing non-empty leaves the table as it was. */
  lemma PatchNothingIsIdentity(s: Store, id: nat)
    requires id in s
    ensures Patch(s, id, Args("", [], None)) == Ok(s)
    ensures Patch(s, id, Args("", [], Some([]))) == Ok(s)
  {
    assert s[id := s[id]] == s;
  }

  /** Patch can never clear a row's modifiers back to "null": a row that
      could be rendered keeps its modifiers present. */
  lemma PatchKeepsModifiersPresent(s: Store, id: nat, args: Args, k: nat)
    requires id in s && k in s && s[k].modifiers.Some?
    ensures Patch(s, id, args).value[k].modifiers.Some?
  {
  }
}
