/**
 * The item catalog's local list: the hook's validated add, update and delete
 * (`useItems`), and the items page's own update and delete handlers
 * (`Items.jsx`), each patching the cached array after the server call.
 */
module ItemList {
  import opened Wrappers
  import opened Http
  import opened Text
  import Lists

  /** A catalog item as the server stores it; `price` in minor units. */
  datatype Item = Item(id: string, name: string, description: string, quantity: int, price: int)

  /** A number box's text: empty, or a number the user typed. */
  datatype NumberField = Empty | Entered(value: int) {
    function ValueOr(default: int): int {
      if Entered? then value else default
    }
  }

  /** What the user typed into the add or edit form. */
  datatype ItemForm = ItemForm(name: string, description: string, quantity: NumberField, price: NumberField)

  datatype Validation = Valid | MissingFields | Negative

  /** The sign check both hook handlers share: neither number may be negative. */
  function CheckSigns(f: ItemForm): (v: Validation)
    ensures v == Negative <==> f.price.ValueOr(0) < 0 || f.quantity.ValueOr(0) < 0
    ensures v != MissingFields
  {
    if f.price.ValueOr(0) < 0 || f.quantity.ValueOr(0) < 0 then Negative else Valid
  }

  /** `addItem`'s checks: trimmed name and description, non-empty numbers, then signs. */
  function ValidateAdd(f: ItemForm): (v: Validation)
    ensures v == MissingFields <==> IsBlank(f.name) || IsBlank(f.description) || f.quantity.Empty? || f.price.Empty?
    ensures v == Valid <==> (!IsBlank(f.name) && !IsBlank(f.description) &&
      f.quantity.Entered? && f.price.Entered? && f.quantity.value >= 0 && f.price.value >= 0)
  {
    if IsBlank(f.name) || IsBlank(f.description) || f.quantity.Empty? || f.price.Empty? then MissingFields
    else CheckSigns(f)
  }

  /** `updateItem`'s checks: the same, except the text fields are not trimmed. */
  function ValidateUpdate(f: ItemForm): (v: Validation)
    ensures v == MissingFields <==> f.name == "" || f.description == "" || f.quantity.Empty? || f.price.Empty?
    ensures v == Valid <==> (f.name != "" && f.description != "" &&
      f.quantity.Entered? && f.price.Entered? && f.quantity.value >= 0 && f.price.value >= 0)
  {
    if f.name == "" || f.description == "" || f.quantity.Empty? || f.price.Empty? then MissingFields
    else CheckSigns(f)
  }

  /** Whatever add accepts, update accepts: a non-blank field is non-empty. */
  lemma AddValidImpliesUpdateValid(f: ItemForm)
    ensures ValidateAdd(f) == Valid ==> ValidateUpdate(f) == Valid
  {
    if ValidateAdd(f) == Valid {
      assert !IsBlank(f.name) && !IsBlank(f.description);
      assert f.name != "" && f.description != "";
    }
  }

  /** A whitespace-only name passes update's check and fails add's. */
  lemma WhitespaceNameSplitsChecks()
    ensures var g := ItemForm("   ", "Blue ink", Entered(5), Entered(1000));
      ValidateAdd(g) == MissingFields && ValidateUpdate(g) == Valid
  {
    var g := ItemForm("   ", "Blue ink", Entered(5), Entered(1000));
    assert IsBlank(g.name) by {
      assert forall i :: 0 <= i < |g.name| ==> g.name[i] == ' ';
    }
    assert !IsBlank(g.description) by {
      assert !IsJsWhitespace(g.description[0]);
    }
  }

  /** Update's check is weaker than add's: whatever add accepts, update accepts, but a
      whitespace-only name passes update and fails add. */
  lemma UpdateCheckIsWeaker(f: ItemForm)
    ensures ValidateAdd(f) == Valid ==> ValidateUpdate(f) == Valid
    ensures var g := ItemForm("   ", "Blue ink", Entered(5), Entered(1000));
      ValidateAdd(g) == MissingFields && ValidateUpdate(g) == Valid
  {
    AddValidImpliesUpdateValid(f);
    WhitespaceNameSplitsChecks();
  }

  /** `{...item, ...fields}`: the form's four fields replace the item's; the id stays. */
  function MergeForm(item: Item, f: ItemForm): (r: Item)
    ensures r.id == item.id
  {
    item.(name := f.name, description := f.description,
          quantity := f.quantity.ValueOr(item.quantity), price := f.price.ValueOr(item.price))
  }

  /** The test `item._id === id` both patches use. */
  function Matches(id: string): Item -> bool {
    (it: Item) => it.id == id
  }

  /** `items.map(item => item._id === id ? merge(item) : item)`. */
  function UpdateWhereId(list: seq<Item>, id: string, merge: Item -> Item): (r: seq<Item>)
    ensures |r| == |list|
    ensures forall i :: 0 <= i < |list| ==> r[i] == (if list[i].id == id then merge(list[i]) else list[i])
  {
    Lists.MapWhere(list, Matches(id), merge)
  }

  /** `items.filter(item => item._id !== id)`. */
  function RemoveId(list: seq<Item>, id: string): (r: seq<Item>)
    ensures forall i :: 0 <= i < |r| ==> r[i].id != id && r[i] in list
    ensures forall i :: 0 <= i < |list| && list[i].id != id ==> list[i] in r
  {
    Lists.RemoveWhere(list, Matches(id))
  }

  /** Deletion keeps the survivors' order: deleting from a concatenation deletes
      from each part, and deleting an id nobody has changes nothing. */
  lemma RemoveIdKeepsOrder(a: seq<Item>, b: seq<Item>, id: string)
    ensures RemoveId(a + b, id) == RemoveId(a, id) + RemoveId(b, id)
    ensures (forall i :: 0 <= i < |a| ==> a[i].id != id) ==> RemoveId(a, id) == a
  {
    Lists.RemoveWhereAppend(a, b, Matches(id));
    if forall i :: 0 <= i < |a| ==> a[i].id != id {
      Lists.RemoveWhereNone(a, Matches(id));
    }
  }

  /** Deleting an id after updating it is the same as deleting it straight away:
      an update touches nothing but the elements with that id. */
  lemma DeleteAfterUpdate(list: seq<Item>, id: string, merge: Item -> Item)
    requires forall it: Item :: merge(it).id == it.id
    ensures RemoveId(UpdateWhereId(list, id, merge), id) == RemoveId(list, id)
  {
    forall i | 0 <= i < |list| && Matches(id)(list[i]) ensures Matches(id)(merge(list[i])) {
      assert merge(list[i]).id == list[i].id;
    }
    Lists.RemoveWhereAfterMapWhere(list, Matches(id), merge);
  }

  /** What a hook handler returns and leaves behind; `requested` records whether
      the server was called. */
  datatype HookResult = HookResult(items: seq<Item>, ok: bool, requested: bool)

  /** `useItems.addItem(form)` given the outcome of the create call (its `newItem`). */
  function AddItem(list: seq<Item>, f: ItemForm, outcome: HttpOutcome<Item>): (r: HookResult)
    ensures ValidateAdd(f) != Valid ==> r == HookResult(list, false, false)
    ensures ValidateAdd(f) == Valid ==> r.requested && (r.ok <==> outcome.Resolved())
    ensures r.ok ==> r.items == list + [outcome.body]
    ensures !r.ok ==> r.items == list
  {
    if ValidateAdd(f) != Valid then HookResult(list, false, false)
    else if outcome.Reply? then HookResult(list + [outcome.body], true, true)
    else HookResult(list, false, true)
  }

  /** A successful add is undone by deleting the new item's id, when no item had it;
      deleting any other id treats the new item as a survivor, kept at the end. */
  lemma AddThenDelete(list: seq<Item>, f: ItemForm, outcome: HttpOutcome<Item>, id: string)
    requires AddItem(list, f, outcome).ok
    ensures outcome.body.id != id ==>
      RemoveId(AddItem(list, f, outcome).items, id) == RemoveId(list, id) + [outcome.body]
    ensures (forall i :: 0 <= i < |list| ==> list[i].id != outcome.body.id) ==>
      RemoveId(AddItem(list, f, outcome).items, outcome.body.id) == list
  {
    var x := outcome.body;
    RemoveIdKeepsOrder(list, [x], id);
    RemoveIdKeepsOrder([x], [], id);
    assert [x] + [] == [x];
    RemoveIdKeepsOrder(list, [x], x.id);
    Lists.RemoveWhereAppend([x], [], Matches(x.id));
    assert Lists.RemoveWhere([x], Matches(x.id)) == [];
  }

  /** `useItems.updateItem(id, form)` given the outcome of the update call. */
  function UpdateItem(list: seq<Item>, id: string, f: ItemForm, outcome: HttpOutcome<()>): (r: HookResult)
    ensures ValidateUpdate(f) != Valid ==> r == HookResult(list, false, false)
    ensures ValidateUpdate(f) == Valid ==> r.requested && (r.ok <==> outcome.Resolved())
    ensures !r.ok ==> r.items == list
    // A successful update merges the form into every element with that id, and only those.
    ensures r.ok ==> (|r.items| == |list| &&
      forall i :: 0 <= i < |list| ==>
        r.items[i].id == list[i].id &&
        (list[i].id == id ==> r.items[i] == Item(id, f.name, f.description, f.quantity.value, f.price.value)) &&
        (list[i].id != id ==> r.items[i] == list[i]))
  {
    if ValidateUpdate(f) != Valid then HookResult(list, false, false)
    else if outcome.Reply? then HookResult(UpdateWhereId(list, id, it => MergeForm(it, f)), true, true)
    else HookResult(list, false, true)
  }

  /** `useItems.deleteItem(id)` given the outcome of the delete call. */
  function DeleteItem(list: seq<Item>, id: string, outcome: HttpOutcome<()>): (r: HookResult)
    ensures r.requested && (r.ok <==> outcome.Resolved())
    ensures r.ok ==> r.items == RemoveId(list, id)
    ensures !r.ok ==> r.items == list
  {
    if outcome.Reply? then HookResult(RemoveId(list, id), true, true) else HookResult(list, false, true)
  }

  /** The state of the items page that editing and deleting touch. */
  datatype ItemsPage = ItemsPage(items: seq<Item>, itemToEdit: Option<Item>, editOpen: bool,
                                 itemToDelete: Option<string>, confirmOpen: bool)

  /** `{...item, ...itemToEdit}`: the edited copy holds every field, so it wins on all. */
  function MergeEdit(item: Item, edit: Item): (r: Item)
    ensures r == edit
  {
    item.(id := edit.id, name := edit.name, description := edit.description,
          quantity := edit.quantity, price := edit.price)
  }

  /** `Items.handleUpdate()` given the outcome of the update call. With no item
      being edited the handler throws inside its `try` and nothing changes. */
  function HandleUpdate(page: ItemsPage, outcome: HttpOutcome<()>): (r: ItemsPage)
    ensures !(page.itemToEdit.Some? && outcome.ResolvedWith(200)) ==> r == page
    ensures page.itemToEdit.Some? && outcome.ResolvedWith(200) ==>
      var edit := page.itemToEdit.value;
      && r.itemToEdit.None? && !r.editOpen
      && r.itemToDelete == page.itemToDelete && r.confirmOpen == page.confirmOpen
      && |r.items| == |page.items|
      && forall i :: 0 <= i < |page.items| ==>
           r.items[i] == (if page.items[i].id == edit.id then edit else page.items[i])
  {
    match page.itemToEdit
    case None => page
    case Some(edit) =>
      if outcome.ResolvedWith(200) then
        page.(items := UpdateWhereId(page.items, edit.id, it => MergeEdit(it, edit)),
              editOpen := false, itemToEdit := None)
      else page
  }

  /** `Items.handleDelete()` given the outcome of the delete call. The confirmation
      state is reset whatever the outcome. */
  function HandleDelete(page: ItemsPage, outcome: HttpOutcome<()>): (r: ItemsPage)
    ensures !r.confirmOpen && r.itemToDelete.None?
    ensures r.itemToEdit == page.itemToEdit && r.editOpen == page.editOpen
    ensures outcome.ResolvedWith(200) && page.itemToDelete.Some? ==>
      r.items == RemoveId(page.items, page.itemToDelete.value)
    ensures !(outcome.ResolvedWith(200) && page.itemToDelete.Some?) ==> r.items == page.items
  {
    // With nothing selected the request targets `null`, which no item id equals.
    var items :=
      if outcome.ResolvedWith(200) && page.itemToDelete.Some?
      then RemoveId(page.items, page.itemToDelete.value)
      else page.items;
    page.(items := items, confirmOpen := false, itemToDelete := None)
  }

  /** The edit form `handleUpdate` submits: the edited copy's fields. */
  function EditForm(edit: Item): ItemForm {
    ItemForm(edit.name, edit.description, Entered(edit.quantity), Entered(edit.price))
  }

  /** The page's patch agrees with the hook's: on success, `handleUpdate` leaves the
      list `updateItem` would build from the edited copy's fields. Deleting the edited
      id afterwards is the same as deleting it straight away. */
  lemma HandleUpdateAgreesWithHook(page: ItemsPage, outcome: HttpOutcome<()>)
    requires page.itemToEdit.Some?
    ensures var edit := page.itemToEdit.value;
      outcome.ResolvedWith(200) && ValidateUpdate(EditForm(edit)) == Valid ==>
        HandleUpdate(page, outcome).items == UpdateItem(page.items, edit.id, EditForm(edit), outcome).items
    ensures var edit := page.itemToEdit.value;
      RemoveId(HandleUpdate(page, outcome).items, edit.id) == RemoveId(page.items, edit.id)
  {
    var edit := page.itemToEdit.value;
    var merge := (it: Item) => MergeEdit(it, edit);
    forall i | 0 <= i < |page.items| && Matches(edit.id)(page.items[i])
      ensures Matches(edit.id)(merge(page.items[i]))
    {
    }
    Lists.RemoveWhereAfterMapWhere(page.items, Matches(edit.id), merge);
    if outcome.ResolvedWith(200) && ValidateUpdate(EditForm(edit)) == Valid {
      var a := HandleUpdate(page, outcome).items;
      var b := UpdateItem(page.items, edit.id, EditForm(edit), outcome).items;
      assert |a| == |b|;
      forall i | 0 <= i < |a| ensures a[i] == b[i] {
      }
    }
  }
}
