/**
 * The add-card dialog (`src/components/cards/_utils/add-card.tsx`): the
 * form schema and default values built from the selected card type's
 * inputs, validation of the submitted form, the three ways of turning a
 * submission into a `createCard` request, the selection state of the
 * dialog, and the order the inputs are shown in.
 *
 * Rendering, focus handling, the query hooks and the mutation itself are
 * left out; the mutation is represented by the request it would send.
 */
module AddCard {
  import opened Wrappers

  // =====================================================================
  // Card types
  // =====================================================================

  /** One input of a card type, as `getCardTypes` returns it. */
  datatype CardInput = CardInput(id: string, title: string, xOrder: int)

  datatype CardType = CardType(id: string, title: string)

  /** An entry of `getCardTypes`: the card type and its inputs, if it has any. */
  datatype CardTypeEntry = CardTypeEntry(cardType: CardType, inputs: Option<seq<CardInput>>)

  /** The ids of `inputs`, as a set. */
  function InputIds(inputs: seq<CardInput>): (r: set<string>)
    ensures forall id :: id in r <==> exists i :: 0 <= i < |inputs| && inputs[i].id == id
  {
    set i | 0 <= i < |inputs| :: inputs[i].id
  }

  // =====================================================================
  // Schema and default values
  // =====================================================================

  /** `z.string().min(1, message)`: a required, non-empty string field. */
  datatype FieldRule = FieldRule(minLength: nat, message: string)

  function RuleFor(input: CardInput): FieldRule
  {
    FieldRule(1, input.title + " is required")
  }

  /** The last input with id `id`: the one whose `forEach` assignment survives. */
  predicate IsLastWithId(inputs: seq<CardInput>, i: int, id: string) {
    0 <= i < |inputs| && inputs[i].id == id && forall j :: i < j < |inputs| ==> inputs[j].id != id
  }

  /**
   * `schemaObject`: one rule per input id, assigned in input order, so a
   * later input with a repeated id replaces the earlier rule.
   */
  function Schema(inputs: Option<seq<CardInput>>): (r: map<string, FieldRule>)
    ensures inputs.None? ==> r == map[]
  {
    match inputs
    case None => map[]
    case Some(s) => SchemaOf(s)
  }

  function SchemaOf(inputs: seq<CardInput>): map<string, FieldRule>
  {
    if |inputs| == 0 then map[]
    else SchemaOf(inputs[..|inputs| - 1])[inputs[|inputs| - 1].id := RuleFor(inputs[|inputs| - 1])]
  }

  lemma InputIdsSnoc(inputs: seq<CardInput>)
    requires |inputs| >= 1
    ensures InputIds(inputs) == InputIds(inputs[..|inputs| - 1]) + {inputs[|inputs| - 1].id}
  {
    var n := |inputs| - 1;
    var init := inputs[..n];
    forall id | id in InputIds(inputs)
      ensures id in InputIds(init) + {inputs[n].id}
    {
      var i :| 0 <= i < |inputs| && inputs[i].id == id;
      if i < n {
        assert init[i] == inputs[i];
      }
    }
    forall id | id in InputIds(init)
      ensures id in InputIds(inputs)
    {
      var i :| 0 <= i < |init| && init[i].id == id;
      assert inputs[i] == init[i];
    }
  }

  /** The schema has exactly one field per input id, each requiring at least one character. */
  lemma {:induction false} SchemaKeys(inputs: seq<CardInput>)
    ensures SchemaOf(inputs).Keys == InputIds(inputs)
    ensures forall id :: id in SchemaOf(inputs) ==> SchemaOf(inputs)[id].minLength == 1
  {
    if |inputs| > 0 {
      SchemaKeys(inputs[..|inputs| - 1]);
      InputIdsSnoc(inputs);
    }
  }

  /** Each field's rule, with its message, is that of the last input carrying the id. */
  lemma {:induction false} SchemaRules(inputs: seq<CardInput>, i: int)
    requires 0 <= i < |inputs| && IsLastWithId(inputs, i, inputs[i].id)
    ensures inputs[i].id in SchemaOf(inputs) && SchemaOf(inputs)[inputs[i].id] == RuleFor(inputs[i])
  {
    var n := |inputs| - 1;
    if i < n {
      var init := inputs[..n];
      assert init[i] == inputs[i];
      assert IsLastWithId(init, i, init[i].id);
      SchemaRules(init, i);
    }
  }

  /** `defaultValues`: the empty string for every input id. */
  function Defaults(inputs: Option<seq<CardInput>>): (r: map<string, string>)
    ensures inputs.None? ==> r == map[]
    ensures inputs.Some? ==> r.Keys == InputIds(inputs.value)
    ensures forall id :: id in r ==> r[id] == ""
  {
    match inputs
    case None => map[]
    case Some(s) => map id | id in InputIds(s) :: ""
  }

  // =====================================================================
  // Validation
  // =====================================================================

  /** The schema's fields in declaration order: each input id at its first occurrence. */
  function FieldOrder(inputs: seq<CardInput>): (r: seq<string>)
  {
    if |inputs| == 0 then []
    else
      var rest := FieldOrder(inputs[..|inputs| - 1]);
      var id := inputs[|inputs| - 1].id;
      if id in rest then rest else rest + [id]
  }

  lemma {:induction false} FieldOrderIds(inputs: seq<CardInput>)
    ensures forall id :: id in FieldOrder(inputs) <==> id in InputIds(inputs)
    ensures forall a, b :: 0 <= a < b < |FieldOrder(inputs)| ==> FieldOrder(inputs)[a] != FieldOrder(inputs)[b]
  {
    if |inputs| > 0 {
      var n := |inputs| - 1;
      var init := inputs[..n];
      FieldOrderIds(init);
      forall id | id in InputIds(init)
        ensures id in InputIds(inputs)
      {
        var i :| 0 <= i < |init| && init[i].id == id;
        assert inputs[i] == init[i];
      }
      forall id | id in InputIds(inputs)
        ensures id in InputIds(init) || id == inputs[n].id
      {
        var i :| 0 <= i < |inputs| && inputs[i].id == id;
        if i < n {
          assert init[i] == inputs[i];
        }
      }
    }
  }

  /** A field passes when it is present and at least one character long. */
  predicate Passes(values: map<string, string>, id: string) {
    id in values && |values[id]| >= 1
  }

  /** The messages of the failing fields, in field order. */
  function Failures(fields: seq<string>, schema: map<string, FieldRule>, values: map<string, string>): (r: seq<string>)
    requires forall k :: 0 <= k < |fields| ==> fields[k] in schema
    ensures |r| == 0 <==> forall k :: 0 <= k < |fields| ==> Passes(values, fields[k])
  {
    if |fields| == 0 then []
    else (if Passes(values, fields[0]) then [] else [schema[fields[0]].message]) + Failures(fields[1..], schema, values)
  }

  /**
   * What the resolver hands `onSubmit`: the form's entries in field order
   * (unknown keys stripped) when every field passes, else the messages.
   */
  function ParseForm(inputs: seq<CardInput>, values: map<string, string>): (r: Result<seq<(string, string)>, seq<string>>)
    ensures r.Ok? <==> forall id :: id in InputIds(inputs) ==> Passes(values, id)
    ensures r.Ok? ==> && |r.value| == |FieldOrder(inputs)|
                      && forall k :: 0 <= k < |r.value| ==>
                           && r.value[k].0 == FieldOrder(inputs)[k]
                           && Passes(values, r.value[k].0)
                           && r.value[k].1 == values[r.value[k].0]
  {
    var fields := FieldOrder(inputs);
    var schema := SchemaOf(inputs);
    FieldOrderIds(inputs);
    SchemaKeys(inputs);
    var failures := Failures(fields, schema, values);
    if |failures| > 0 then Err(failures)
    else Ok(seq(|fields|, (k: int) requires 0 <= k < |fields| && Passes(values, fields[k]) => (fields[k], values[fields[k]])))
  }

  /** The default values never pass: a fresh form with any input cannot be submitted. */
  lemma DefaultsFail(inputs: seq<CardInput>)
    requires |inputs| >= 1
    ensures ParseForm(inputs, Defaults(Some(inputs))).Err?
  {
    assert inputs[0].id in InputIds(inputs);
  }

  // =====================================================================
  // Submissions
  // =====================================================================

  /** A card value as the dialog sends it. */
  datatype CardValueInput = CardValueInput(cardTypeInputId: string, value: string, xOrder: int)

  /** The `createCard` mutation's input. */
  datatype CreateCardRequest = CreateCardRequest(cardTypeId: string, values: seq<CardValueInput>, dashboardSlug: string)

  /** `inputs.find((i) => i.id === id)`: the first input with that id. */
  function FindInput(inputs: seq<CardInput>, id: string): (r: Option<CardInput>)
    ensures r.None? <==> id !in InputIds(inputs)
    ensures r.Some? ==> exists i :: 0 <= i < |inputs| && inputs[i] == r.value && r.value.id == id
                                     && forall j :: 0 <= j < i ==> inputs[j].id != id
  {
    if |inputs| == 0 then None
    else if inputs[0].id == id then Some(inputs[0])
    else
      var r := FindInput(inputs[1..], id);
      if r.Some? then
        var i :| 0 <= i < |inputs[1..]| && inputs[1..][i] == r.value && r.value.id == id
                 && forall j :: 0 <= j < i ==> inputs[1..][j].id != id;
        assert inputs[i + 1] == r.value;
        r
      else r
  }

  /** `inputs?.find(...)?.xOrder ?? 0`. */
  function XOrderOf(inputs: Option<seq<CardInput>>, id: string): int
  {
    match inputs
    case None => 0
    case Some(s) =>
      match FindInput(s, id)
      case None => 0
      case Some(input) => input.xOrder
  }

  /**
   * `onSubmit`: nothing without a selected card type; otherwise one value
   * per form entry, positioned by the matching input's `xOrder`.
   */
  function OnSubmit(selected: Option<CardTypeEntry>, entries: seq<(string, string)>, dashboardSlug: string): (r: Option<CreateCardRequest>)
    ensures r.None? <==> selected.None?
    ensures r.Some? ==> && r.value.cardTypeId == selected.value.cardType.id
                        && r.value.dashboardSlug == dashboardSlug
                        && |r.value.values| == |entries|
                        && forall k :: 0 <= k < |entries| ==>
                             && r.value.values[k].cardTypeInputId == entries[k].0
                             && r.value.values[k].value == entries[k].1
                             && r.value.values[k].xOrder == XOrderOf(selected.value.inputs, entries[k].0)
  {
    match selected
    case None => None
    case Some(entry) =>
      Some(CreateCardRequest(
        entry.cardType.id,
        seq(|entries|, (k: int) requires 0 <= k < |entries| =>
          CardValueInput(entries[k].0, entries[k].1, XOrderOf(entry.inputs, entries[k].0))),
        dashboardSlug))
  }

  /**
   * A validated form submits one value per input id, each positioned by
   * an input carrying that id; the `?? 0` fallback never applies.
   */
  lemma ValidatedSubmission(entry: CardTypeEntry, values: map<string, string>, dashboardSlug: string)
    requires entry.inputs.Some? && ParseForm(entry.inputs.value, values).Ok?
    ensures var inputs := entry.inputs.value;
            var r := OnSubmit(Some(entry), ParseForm(inputs, values).value, dashboardSlug);
            && r.Some?
            && (forall id :: id in InputIds(inputs) <==> exists k :: 0 <= k < |r.value.values| && r.value.values[k].cardTypeInputId == id)
            && forall k :: 0 <= k < |r.value.values| ==>
                 exists i :: 0 <= i < |inputs| && inputs[i].id == r.value.values[k].cardTypeInputId
                                               && inputs[i].xOrder == r.value.values[k].xOrder
  {
    SubmittedIds(entry, values, dashboardSlug);
    SubmittedXOrders(entry, values, dashboardSlug);
  }

  /** The ids a validated form submits are exactly the input ids. */
  lemma SubmittedIds(entry: CardTypeEntry, values: map<string, string>, dashboardSlug: string)
    requires entry.inputs.Some? && ParseForm(entry.inputs.value, values).Ok?
    ensures var inputs := entry.inputs.value;
            var r := OnSubmit(Some(entry), ParseForm(inputs, values).value, dashboardSlug);
            && r.Some?
            && forall id :: id in InputIds(inputs) <==> exists k :: 0 <= k < |r.value.values| && r.value.values[k].cardTypeInputId == id
  {
    var inputs := entry.inputs.value;
    var entries := ParseForm(inputs, values).value;
    var r := OnSubmit(Some(entry), entries, dashboardSlug);
    FieldOrderIds(inputs);
    forall id | id in InputIds(inputs)
      ensures exists k :: 0 <= k < |r.value.values| && r.value.values[k].cardTypeInputId == id
    {
      var k :| 0 <= k < |FieldOrder(inputs)| && FieldOrder(inputs)[k] == id;
      assert r.value.values[k].cardTypeInputId == id;
    }
  }

  /** Every value a validated form submits is positioned by an input carrying its id. */
  lemma SubmittedXOrders(entry: CardTypeEntry, values: map<string, string>, dashboardSlug: string)
    requires entry.inputs.Some? && ParseForm(entry.inputs.value, values).Ok?
    ensures var inputs := entry.inputs.value;
            var r := OnSubmit(Some(entry), ParseForm(inputs, values).value, dashboardSlug);
            && r.Some?
            && forall k :: 0 <= k < |r.value.values| ==>
                 exists i :: 0 <= i < |inputs| && inputs[i].id == r.value.values[k].cardTypeInputId
                                               && inputs[i].xOrder == r.value.values[k].xOrder
  {
    var inputs := entry.inputs.value;
    var entries := ParseForm(inputs, values).value;
    var r := OnSubmit(Some(entry), entries, dashboardSlug);
    FieldOrderIds(inputs);
    forall k | 0 <= k < |r.value.values|
      ensures exists i :: 0 <= i < |inputs| && inputs[i].id == r.value.values[k].cardTypeInputId
                                            && inputs[i].xOrder == r.value.values[k].xOrder
    {
      var id := entries[k].0;
      assert id in FieldOrder(inputs);
      var found := FindInput(inputs, id);
      assert found.Some?;
      var i :| 0 <= i < |inputs| && inputs[i] == found.value && found.value.id == id
               && forall j :: 0 <= j < i ==> inputs[j].id != id;
      assert inputs[i].xOrder == r.value.values[k].xOrder;
    }
  }

  /**
   * `onSubmitNew`: the values of the chart and order-book forms, each with
   * `xOrder` reset to 0, always sent, with `""` as the card type id when
   * none is selected.
   */
  function OnSubmitNew(selected: Option<CardTypeEntry>, values: seq<CardValueInput>, dashboardSlug: string): (r: CreateCardRequest)
    ensures r.cardTypeId == (if selected.Some? then selected.value.cardType.id else "")
    ensures r.dashboardSlug == dashboardSlug
    ensures |r.values| == |values|
    ensures forall k :: 0 <= k < |values| ==> r.values[k].xOrder == 0 && r.values[k].(xOrder := values[k].xOrder) == values[k]
  {
    CreateCardRequest(
      if selected.Some? then selected.value.cardType.id else "",
      seq(|values|, (k: int) requires 0 <= k < |values| => values[k].(xOrder := 0)),
      dashboardSlug)
  }

  /** Submitting the already-reset values again sends the same request. */
  lemma OnSubmitNewIdempotent(selected: Option<CardTypeEntry>, values: seq<CardValueInput>, dashboardSlug: string)
    ensures var r := OnSubmitNew(selected, values, dashboardSlug);
            OnSubmitNew(selected, r.values, dashboardSlug) == r
  {
  }

  /** `onSubmitWithNoValues`: a card type without inputs is created with no values. */
  function OnSubmitWithNoValues(selected: Option<CardTypeEntry>, dashboardSlug: string): (r: Option<CreateCardRequest>)
    ensures r.None? <==> selected.None?
    ensures r.Some? ==> r.value == CreateCardRequest(selected.value.cardType.id, [], dashboardSlug)
  {
    match selected
    case None => None
    case Some(entry) => Some(CreateCardRequest(entry.cardType.id, [], dashboardSlug))
  }

  /** With no entries, `onSubmit` sends what `onSubmitWithNoValues` sends. */
  lemma EmptySubmissionsAgree(selected: Option<CardTypeEntry>, dashboardSlug: string)
    ensures OnSubmit(selected, [], dashboardSlug) == OnSubmitWithNoValues(selected, dashboardSlug)
  {
  }

  // =====================================================================
  // Dialog state
  // =====================================================================

  /** Whether the dialog is open and which card type is selected. */
  datatype DialogState = DialogState(open: bool, selected: Option<CardTypeEntry>)

  datatype DialogEvent =
    | OpenChange(open: bool)                                  // the trigger or the overlay
    | SelectItem(id: string, data: Option<seq<CardTypeEntry>>) // a command item is chosen
    | Back                                                     // the Back button
    | Escape                                                   // the Escape key
    | CreateSucceeded                                          // the mutation's `onSuccess`

  /** `data.find((c) => c.cardType.id === id)`: the first entry with the id. */
  function FindCardType(data: seq<CardTypeEntry>, id: string): (r: Option<CardTypeEntry>)
    ensures r.None? <==> forall i :: 0 <= i < |data| ==> data[i].cardType.id != id
    ensures r.Some? ==> exists i :: 0 <= i < |data| && data[i] == r.value && r.value.cardType.id == id
                                     && forall j :: 0 <= j < i ==> data[j].cardType.id != id
  {
    if |data| == 0 then None
    else if data[0].cardType.id == id then Some(data[0])
    else
      var r := FindCardType(data[1..], id);
      if r.Some? then
        var i :| 0 <= i < |data[1..]| && data[1..][i] == r.value && r.value.cardType.id == id
                 && forall j :: 0 <= j < i ==> data[1..][j].cardType.id != id;
        assert data[i + 1] == r.value;
        r
      else r
  }

  /**
   * One event. The Back button, the command items and the Escape hotkey sit
   * inside the dialog's content, which is not mounted while the dialog is
   * closed, so they change nothing then; likewise the command items are
   * only mounted while no card type is selected. While it is open, Escape is handled
   * twice: the hotkey clears a selection, and the dialog's own handler keeps
   * the dialog open while a card type is selected; without a selection
   * Escape closes the dialog. The trigger and the overlay only open and
   * close it, keeping the selection.
   */
  function Step(s: DialogState, e: DialogEvent): (r: DialogState)
    ensures e.OpenChange? ==> r == s.(open := e.open)
    ensures !s.open && (e.SelectItem? || e.Back? || e.Escape?) ==> r == s
    ensures s.open && e.Escape? ==>
              (s.selected.Some? ==> r == s.(selected := None)) && (s.selected.None? ==> r == DialogState(false, None))
    ensures e.CreateSucceeded? ==> r == DialogState(false, None)
    ensures s.open && e.Back? ==> r == s.(selected := None)
    ensures s.selected.Some? && e.SelectItem? ==> r == s
    ensures s.open && s.selected.None? && e.SelectItem? ==>
              r == if e.data.Some? && FindCardType(e.data.value, e.id).Some? then s.(selected := FindCardType(e.data.value, e.id))
                   else s
  {
    if e.OpenChange? then s.(open := e.open)
    else if e.CreateSucceeded? then DialogState(false, None)
    else if !s.open then s
    else if e.Back? then s.(selected := None)
    else if e.Escape? then (if s.selected.Some? then s.(selected := None) else s.(open := false))
    else if s.selected.Some? || e.data.None? then s
    else
      match FindCardType(e.data.value, e.id)
      case None => s
      case Some(entry) => s.(selected := Some(entry))
  }

  /** Going back right after choosing a card type returns to the list as it was. */
  lemma BackUndoesSelect(s: DialogState, id: string, data: Option<seq<CardTypeEntry>>)
    requires s.selected.None?
    ensures Step(Step(s, SelectItem(id, data)), Back) == s
  {
  }

  /** From an open dialog, two Escape presses close it and clear the selection. */
  lemma EscapeTwiceCloses(s: DialogState)
    requires s.open
    ensures Step(Step(s, Escape), Escape) == DialogState(false, None)
  {
  }

  /**
   * Closing the dialog through the overlay keeps the chosen card type:
   * reopening it shows the same form, and Escape in between changes nothing.
   */
  lemma ReopenKeepsSelection(s: DialogState)
    ensures Step(Step(Step(s, OpenChange(false)), Escape), OpenChange(true)) == s.(open := true)
  {
  }

  /** A selection, when there is one, is always an entry of the loaded card types. */
  predicate SelectionFrom(s: DialogState, data: seq<CardTypeEntry>) {
    s.selected.Some? ==> s.selected.value in data
  }

  /** Every event keeps the selection among the loaded card types. */
  lemma StepKeepsSelectionFrom(s: DialogState, e: DialogEvent, data: seq<CardTypeEntry>)
    requires SelectionFrom(s, data)
    requires e.SelectItem? ==> e.data.None? || e.data == Some(data)
    ensures SelectionFrom(Step(s, e), data)
  {
  }

  // =====================================================================
  // The order the inputs are shown in
  // =====================================================================

  predicate SortedByXOrder(s: seq<CardInput>) {
    forall i, j :: 0 <= i < j < |s| ==> s[i].xOrder <= s[j].xOrder
  }

  /** The inputs with a given `xOrder`, in their order. */
  function WithXOrder(s: seq<CardInput>, k: int): (r: seq<CardInput>)
    ensures forall i :: 0 <= i < |r| ==> r[i].xOrder == k
  {
    if |s| == 0 then [] else (if s[0].xOrder == k then [s[0]] else []) + WithXOrder(s[1..], k)
  }

  /** Insert `x` before the first element whose `xOrder` is not smaller. */
  function Insert(x: CardInput, s: seq<CardInput>): (r: seq<CardInput>)
    ensures |r| == |s| + 1
    ensures multiset(r) == multiset{x} + multiset(s)
  {
    if |s| == 0 || x.xOrder <= s[0].xOrder then [x] + s
    else
      assert s == [s[0]] + s[1..];
      [s[0]] + Insert(x, s[1..])
  }

  /** `inputs.sort((a, b) => a.xOrder - b.xOrder)`: a stable sort, by insertion. */
  function SortByXOrder(s: seq<CardInput>): (r: seq<CardInput>)
    ensures |r| == |s|
    ensures multiset(r) == multiset(s)
  {
    if |s| == 0 then []
    else
      assert s == [s[0]] + s[1..];
      Insert(s[0], SortByXOrder(s[1..]))
  }

  predicate AllAtLeast(s: seq<CardInput>, lo: int) {
    forall i :: 0 <= i < |s| ==> lo <= s[i].xOrder
  }

  /** Inserting an element no smaller than a bound keeps every element at or above it. */
  lemma {:induction false} InsertAtLeast(x: CardInput, s: seq<CardInput>, lo: int)
    requires AllAtLeast(s, lo) && lo <= x.xOrder
    ensures AllAtLeast(Insert(x, s), lo)
  {
    if |s| > 0 && x.xOrder > s[0].xOrder {
      InsertAtLeast(x, s[1..], lo);
    }
  }

  lemma {:induction false} InsertSorted(x: CardInput, s: seq<CardInput>)
    requires SortedByXOrder(s)
    ensures SortedByXOrder(Insert(x, s))
  {
    if |s| > 0 && x.xOrder > s[0].xOrder {
      InsertSorted(x, s[1..]);
      InsertAtLeast(x, s[1..], s[0].xOrder);
    }
  }

  lemma {:induction false} InsertWithXOrder(x: CardInput, s: seq<CardInput>, k: int)
    requires SortedByXOrder(s)
    ensures WithXOrder(Insert(x, s), k) == if x.xOrder == k then [x] + WithXOrder(s, k) else WithXOrder(s, k)
  {
    if |s| == 0 || x.xOrder <= s[0].xOrder {
      assert ([x] + s)[1..] == s;
    } else {
      InsertWithXOrder(x, s[1..], k);
      var r := [s[0]] + Insert(x, s[1..]);
      assert r[1..] == Insert(x, s[1..]);
      if x.xOrder == k {
        assert s[0].xOrder < k;
        assert WithXOrder(s, k) == WithXOrder(s[1..], k);
      }
    }
  }

  /**
   * The shown order is sorted by `xOrder`, and inputs with equal `xOrder`
   * keep their relative order: the sort is stable, as the language
   * guarantees for `Array.prototype.sort`.
   */
  lemma {:induction false} SortByXOrderCorrect(s: seq<CardInput>)
    ensures SortedByXOrder(SortByXOrder(s))
    ensures forall k :: WithXOrder(SortByXOrder(s), k) == WithXOrder(s, k)
  {
    if |s| > 0 {
      SortByXOrderCorrect(s[1..]);
      InsertSorted(s[0], SortByXOrder(s[1..]));
      forall k
        ensures WithXOrder(SortByXOrder(s), k) == WithXOrder(s, k)
      {
        InsertWithXOrder(s[0], SortByXOrder(s[1..]), k);
      }
    }
  }

  /** A shown field: the input and whether it carries `data-first`. */
  datatype ShownField = ShownField(input: CardInput, first: bool)

  /** The fields in display order; only the first is marked. */
  function ShownFields(inputs: seq<CardInput>): (r: seq<ShownField>)
    ensures |r| == |inputs|
    ensures forall i :: 0 <= i < |r| ==> (r[i].first <==> i == 0)
    ensures forall i :: 0 <= i < |r| ==> r[i].input == SortByXOrder(inputs)[i]
  {
    var sorted := SortByXOrder(inputs);
    seq(|sorted|, (i: int) requires 0 <= i < |sorted| => ShownField(sorted[i], i == 0))
  }

  /** The marked field is one with the smallest `xOrder`. */
  lemma FirstShownIsSmallest(inputs: seq<CardInput>)
    requires |inputs| >= 1
    ensures forall i :: 0 <= i < |inputs| ==> ShownFields(inputs)[0].input.xOrder <= inputs[i].xOrder
  {
    var sorted := SortByXOrder(inputs);
    SortByXOrderCorrect(inputs);
    forall i | 0 <= i < |inputs|
      ensures sorted[0].xOrder <= inputs[i].xOrder
    {
      assert inputs[i] in multiset(sorted);
      var j :| 0 <= j < |sorted| && sorted[j] == inputs[i];
    }
  }
}
