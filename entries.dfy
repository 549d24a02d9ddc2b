/** The entries page (js/entries.js): the table of a trainee's entries and
    its edit dialog, whose meal rows re-resolve their ingredient to reload
    the unit list, whose workout list keeps the entry's workout, and whose
    submit sends the edited entry back without a date. */
module Entries {
  import opened Dom
  import opened MealRows

  // ---------------------------------------------------------------------
  // Dates in the table
  // ---------------------------------------------------------------------

  /** A destructured array element: missing ones render as "undefined". */
  function Part(parts: seq<string>, i: nat): string {
    if i < |parts| then parts[i] else "undefined"
  }

  /** `formatDateDMY`: the pieces of "Y-M-D" in the order D/M/Y. */
  function FormatDateDMY(dateStr: string): string {
    var p := Split(dateStr, '-');
    Part(p, 2) + "/" + Part(p, 1) + "/" + Part(p, 0)
  }

  /** An ISO date "Y-M-D" is shown as "D/M/Y". */
  lemma FormatDateDMYReorders(y: string, m: string, d: string)
    requires '-' !in y && '-' !in m && '-' !in d
    ensures FormatDateDMY(y + "-" + m + "-" + d) == d + "/" + m + "/" + y
  {
    assert [y, m, d][1..] == [m, d] && [m, d][1..] == [d];
    assert Join([m, d], "-") == m + "-" + d;
    assert Join([y, m, d], "-") == y + "-" + (m + "-" + d);
    assert Join([y, m, d], "-") == y + "-" + m + "-" + d;
    SplitJoin([y, m, d], '-');
    assert Split(y + "-" + m + "-" + d, '-') == [y, m, d];
  }

  // ---------------------------------------------------------------------
  // Meal rows of the edit dialog
  // ---------------------------------------------------------------------

  /** The unit list of a new row: one enabled "Select unit" option with
      value "", hence selected. */
  function InitialUnitSelect(): (s: Select)
    ensures s.options == [OptionEl("", "Select unit", false)] && s.Value() == ""
  {
    Parsed(OptionEl("", "Select unit", false), false)
  }

  /** `createMealInput(name, amount, unit)`: a row showing the given name and
      amount is appended; `unit` is kept to be reselected when the row's
      units load. */
  method CreateMealInput(group: MealGroup, name: string, amount: Amount, unit: string) returns (row: MealRow)
    requires group.Valid()
    modifies group
    ensures fresh(row) && group.Valid() && group.rows == old(group.rows) + [row]
    ensures row.name == name && row.amount == amount && row.storedUnit == unit
    ensures row.unitSelect == InitialUnitSelect() && row.suggestions == []
  {
    row := new MealRow(name, amount, InitialUnitSelect(), unit);
    group.Add(row);
  }

  /** `data.possibleUnits || []`. */
  function UnitsOf(reply: UnitsReply): seq<string>
    requires reply.UnitsBody?
  {
    if reply.possibleUnits.Some? then reply.possibleUnits.value else []
  }

  /** `loadUnits`: when the lookup fails the list is left alone; otherwise
      it becomes the "Select unit" option followed by the units in order,
      and the stored unit is selected if it is one of them (the `value`
      setter finds no option otherwise, and the list reads ""). */
  method LoadUnits(sel: Select, reply: UnitsReply, selectedUnit: string) returns (r: Select)
    ensures reply.UnitsFailed? ==> r == sel
    ensures reply.UnitsBody? ==>
      r.options == [OptionEl("", "Select unit", false)] + Labelled(UnitsOf(reply), u => u)
    ensures reply.UnitsBody? ==>
      r.Value() == (if selectedUnit in UnitsOf(reply) then selectedUnit else "")
  {
    if reply.UnitsFailed? {
      return sel;
    }
    var units := UnitsOf(reply);
    var start := Parsed(OptionEl("", "Select unit", false), false);
    r := AppendOptions(start, Labelled(units, u => u));
    AppendAllShape(start, Labelled(units, u => u));
    assert r.Value() == "";
    if selectedUnit != "" {
      if selectedUnit in units {
        var k :| 0 <= k < |units| && units[k] == selectedUnit;
        assert r.options[k + 1].value == selectedUnit;
      }
      r := SetValue(r, selectedUnit);
    }
  }

  /** A click on a suggestion: name taken, list emptied, units reloaded
      with the row's stored unit reselected. */
  method SelectSuggestion(row: MealRow, item: Suggestion, reply: UnitsReply)
    modifies row
    ensures row.name == item.name && row.suggestions == []
    ensures reply.UnitsFailed? ==> row.unitSelect == old(row.unitSelect)
    ensures reply.UnitsBody? ==>
      row.unitSelect.options == [OptionEl("", "Select unit", false)] + Labelled(UnitsOf(reply), u => u)
    ensures reply.UnitsBody? ==>
      row.unitSelect.Value() == (if row.storedUnit in UnitsOf(reply) then row.storedUnit else "")
    ensures row.amount == old(row.amount) && row.storedUnit == old(row.storedUnit)
  {
    row.name := item.name;
    row.suggestions := [];
    row.unitSelect := LoadUnits(row.unitSelect, reply, row.storedUnit);
  }

  /** `results.find(m => m.name.toLowerCase() === name.toLowerCase())`:
      the index of the first result named like `name` up to letter case, or
      -1. */
  function FindByName(results: seq<Suggestion>, name: string): (k: int)
    ensures -1 <= k < |results|
    ensures k >= 0 ==> Lower(results[k].name) == Lower(name)
    ensures forall i :: 0 <= i < |results| && (k < 0 || i < k) ==> Lower(results[i].name) != Lower(name)
  {
    if results == [] then -1
    else if Lower(results[0].name) == Lower(name) then 0
    else
      var k := FindByName(results[1..], name);
      if k < 0 then -1 else k + 1
  }

  /** The prefill started when a row is created with a name: the catalogue
      is searched for that name, and the units are loaded only for the
      first result whose name matches it case-insensitively. `results` is
      the search's `results`, absent when the search failed. */
  method PrefillUnits(row: MealRow, results: Option<seq<Suggestion>>, reply: UnitsReply)
    returns (query: Option<string>, matched: Option<Suggestion>)
    modifies row
    ensures query == (if row.name == "" then None else Some(row.name))
    ensures matched.Some? <==>
      row.name != "" && results.Some? && FindByName(results.value, row.name) >= 0
    ensures matched.Some? ==> matched.value == results.value[FindByName(results.value, row.name)]
    ensures matched.None? || reply.UnitsFailed? ==> row.unitSelect == old(row.unitSelect)
    ensures matched.Some? && reply.UnitsBody? ==>
      row.unitSelect.options == [OptionEl("", "Select unit", false)] + Labelled(UnitsOf(reply), u => u) &&
      row.unitSelect.Value() == (if row.storedUnit in UnitsOf(reply) then row.storedUnit else "")
    ensures row.name == old(row.name) && row.amount == old(row.amount)
    ensures row.suggestions == old(row.suggestions) && row.storedUnit == old(row.storedUnit)
  {
    matched := None;
    if row.name == "" {
      return None, None;
    }
    query := Some(row.name);
    if results.Some? {
      var k := FindByName(results.value, row.name);
      if k >= 0 {
        matched := Some(results.value[k]);
        row.unitSelect := LoadUnits(row.unitSelect, reply, row.storedUnit);
      }
    }
  }

  // ---------------------------------------------------------------------
  // The workout list of the edit dialog
  // ---------------------------------------------------------------------

  /** One item of `GET /api/entries/workouts`: its `label`. */
  datatype Workout = Workout(labelText: string)

  /** What `fetchWorkoutOptions` resolves to: the parsed list (an empty one
      when the request or its JSON failed), or a parsed body that is not an
      array, such as an error object. */
  datatype WorkoutsReply = WorkoutList(items: seq<Workout>) | NotAList

  const WorkoutPlaceholder := OptionEl("", "Select workout", true)

  function LabelsOf(workouts: seq<Workout>): (r: seq<string>)
    ensures |r| == |workouts| && forall i :: 0 <= i < |workouts| ==> r[i] == workouts[i].labelText
  {
    seq(|workouts|, i requires 0 <= i < |workouts| => workouts[i].labelText)
  }

  /** The options before the current workout is considered: the disabled
      placeholder, then one option per workout, valued and labelled by
      its label. */
  function WorkoutOptions(workouts: seq<Workout>): seq<OptionEl> {
    [WorkoutPlaceholder] + Labelled(LabelsOf(workouts), l => l)
  }

  /** `value.toLowerCase().trim()`. */
  function Norm(s: string): string {
    Trim(Lower(s))
  }

  /** The index of the first option whose normalised value equals the
      normalised `current`, or -1. */
  function FirstNormMatch(opts: seq<OptionEl>, current: string): (k: int)
    ensures -1 <= k < |opts|
    ensures k >= 0 ==> Norm(opts[k].value) == Norm(current)
    ensures forall i :: 0 <= i < |opts| && (k < 0 || i < k) ==> Norm(opts[i].value) != Norm(current)
  {
    if opts == [] then -1
    else if Norm(opts[0].value) == Norm(current) then 0
    else
      var k := FirstNormMatch(opts[1..], current);
      if k < 0 then -1 else k + 1
  }

  /** The workout list `populateWorkoutSelect(current)` leaves behind (the
      specification of `PopulateWorkoutSelect`). With no current workout the
      browser selects the first workout, the placeholder being disabled; a
      current workout selects the first option, placeholder included, that
      matches it up to case and surrounding blanks; otherwise it is appended
      as an option of its own and selected. */
  function WorkoutSelect(workouts: seq<Workout>, current: string): (s: Select)
    ensures current == "" ==> s.options == WorkoutOptions(workouts)
    ensures current == "" ==> s.Value() == (if workouts == [] then "" else workouts[0].labelText)
    ensures current != "" && FirstNormMatch(WorkoutOptions(workouts), current) >= 0 ==>
      s.options == WorkoutOptions(workouts) &&
      s.Value() == WorkoutOptions(workouts)[FirstNormMatch(WorkoutOptions(workouts), current)].value
    ensures current != "" && FirstNormMatch(WorkoutOptions(workouts), current) < 0 ==>
      s.options == WorkoutOptions(workouts) + [OptionEl(current, current, false)] && s.Value() == current
  {
    var base := AppendAll(Append(Select([], -1), WorkoutPlaceholder), Labelled(LabelsOf(workouts), l => l));
    AppendAllShape(Append(Select([], -1), WorkoutPlaceholder), Labelled(LabelsOf(workouts), l => l));
    assert base.options == WorkoutOptions(workouts);
    assert workouts != [] ==> base.options[1].value == workouts[0].labelText;
    if current == "" then base
    else
      var k := FirstNormMatch(base.options, current);
      if k >= 0 then SetValue(base, base.options[k].value)
      else
        var withCustom := Append(base, OptionEl(current, current, false));
        assert withCustom.options[|base.options|].value == current;
        SetValue(withCustom, current)
  }

  /** `populateWorkoutSelect(current)`: the list is emptied and gets the
      placeholder; a reply that is not an array then throws at
      `workouts.forEach`, leaving the placeholder alone (`completed` false);
      a list builds the workout list. */
  method PopulateWorkoutSelect(reply: WorkoutsReply, current: string) returns (sel: Select, completed: bool)
    ensures completed <==> reply.WorkoutList?
    ensures reply.NotAList? ==> sel.options == [WorkoutPlaceholder] && sel.Value() == ""
    ensures reply.WorkoutList? ==> sel == WorkoutSelect(reply.items, current)
  {
    sel := Append(Select([], -1), WorkoutPlaceholder);
    if reply.NotAList? {
      return sel, false;
    }
    completed := true;
    var workouts := reply.items;
    sel := AppendOptions(sel, Labelled(LabelsOf(workouts), l => l));
    if current != "" {
      var k := FirstNormMatch(sel.options, current);
      if k >= 0 {
        sel := SetValue(sel, sel.options[k].value);
      } else {
        sel := Append(sel, OptionEl(current, current, false));
        sel := SetValue(sel, current);
      }
    }
  }

  // ---------------------------------------------------------------------
  // The dialog state
  // ---------------------------------------------------------------------

  /** A meal as stored in an entry. */
  datatype StoredMeal = StoredMeal(name: string, amount: Amount, unit: string)

  /** An entry as `GET /api/entries` lists it (the fields the dialog uses). */
  datatype StoredEntry = StoredEntry(id: string, time: Option<string>, workout: Option<string>, meals: Option<seq<StoredMeal>>)

  function MealsOrEmpty(entry: StoredEntry): seq<StoredMeal> {
    if entry.meals.Some? then entry.meals.value else []
  }

  /** The meal an edit row contributes: name and unit trimmed. */
  function EditMealOf(row: MealRow): Meal
    reads row
  {
    Meal(Trim(row.name), row.amount, Trim(row.unitSelect.Value()))
  }

  function EditMealsOf(rows: seq<MealRow>): (ms: seq<Meal>)
    reads rows
    ensures |ms| == |rows|
    ensures forall i :: 0 <= i < |rows| ==> ms[i] == EditMealOf(rows[i])
  {
    if rows == [] then [] else [EditMealOf(rows[0])] + EditMealsOf(rows[1..])
  }

  /** The body of `PUT /api/entries/{id}`: no date field. */
  datatype UpdateRequest = UpdateRequest(id: string, meals: seq<Meal>, workout: string, time: string)

  /** The entries page: the ids the edit and delete dialogs act on, and the
      edit dialog's controls. */
  class EntriesPage {
    var currentEditId: Option<string>
    var currentDeleteId: Option<string>
    var editTime: string
    var editWorkout: Select
    const editMealGroup: MealGroup

    constructor ()
      ensures currentEditId.None? && currentDeleteId.None? && fresh(editMealGroup)
      ensures editMealGroup.Valid() && editMealGroup.rows == []
    {
      currentEditId := None;
      currentDeleteId := None;
      editTime := "";
      editWorkout := Select([], -1);
      editMealGroup := new MealGroup();
    }

    /** The edit button of an entry: its id becomes current, its time is
        shown, the meal list is emptied and gets one row per stored meal in
        order, and the workout list is rebuilt around the entry's workout.
        The dialog opens (`shown`) only when the workouts reply was a list;
        otherwise the rebuild throws and the list keeps only its
        placeholder. */
    method OpenEdit(entry: StoredEntry, workouts: WorkoutsReply) returns (shown: bool)
      requires editMealGroup.Valid()
      modifies this, editMealGroup
      ensures currentEditId == Some(entry.id) && currentDeleteId == old(currentDeleteId)
      ensures editTime == OrElse(entry.time, "")
      ensures shown <==> workouts.WorkoutList?
      ensures workouts.WorkoutList? ==> editWorkout == WorkoutSelect(workouts.items, OrElse(entry.workout, ""))
      ensures workouts.NotAList? ==> editWorkout.options == [WorkoutPlaceholder] && editWorkout.Value() == ""
      ensures editMealGroup.Valid() && |editMealGroup.rows| == |MealsOrEmpty(entry)|
      ensures forall i :: 0 <= i < |editMealGroup.rows| ==>
        fresh(editMealGroup.rows[i]) &&
        editMealGroup.rows[i].name == MealsOrEmpty(entry)[i].name &&
        editMealGroup.rows[i].amount == MealsOrEmpty(entry)[i].amount &&
        editMealGroup.rows[i].storedUnit == MealsOrEmpty(entry)[i].unit &&
        editMealGroup.rows[i].unitSelect == InitialUnitSelect()
    {
      currentEditId := Some(entry.id);
      editTime := OrElse(entry.time, "");
      editMealGroup.Clear();
      var meals := MealsOrEmpty(entry);
      var i := 0;
      while i < |meals|
        invariant 0 <= i <= |meals|
        invariant currentEditId == Some(entry.id) && currentDeleteId == old(currentDeleteId)
        invariant editTime == OrElse(entry.time, "")
        invariant editMealGroup.Valid() && |editMealGroup.rows| == i
        invariant forall j :: 0 <= j < i ==>
          fresh(editMealGroup.rows[j]) &&
          editMealGroup.rows[j].name == meals[j].name &&
          editMealGroup.rows[j].amount == meals[j].amount &&
          editMealGroup.rows[j].storedUnit == meals[j].unit &&
          editMealGroup.rows[j].unitSelect == InitialUnitSelect()
      {
        var row := CreateMealInput(editMealGroup, meals[i].name, meals[i].amount, meals[i].unit);
        i := i + 1;
      }
      editWorkout, shown := PopulateWorkoutSelect(workouts, OrElse(entry.workout, ""));
    }

    /** The delete button of an entry. */
    method OpenDelete(id: string)
      modifies this
      ensures currentDeleteId == Some(id) && currentEditId == old(currentEditId)
      ensures editTime == old(editTime) && editWorkout == old(editWorkout)
    {
      currentDeleteId := Some(id);
    }

    /** The delete dialog's submit: the entry to delete, if an id is current. */
    method DeleteSubmit() returns (target: Option<string>)
      ensures target.Some? <==> currentDeleteId.Some? && currentDeleteId.value != ""
      ensures target.Some? ==> target == currentDeleteId
    {
      if currentDeleteId.None? || currentDeleteId.value == "" {
        return None;
      }
      target := currentDeleteId;
    }

    /** The edit dialog's submit: nothing without a current id; otherwise
        the rows' meals (name and unit trimmed), the trimmed workout and the
        time, with no check on any of them. */
    method EditSubmit() returns (request: Option<UpdateRequest>)
      ensures request.Some? <==> currentEditId.Some? && currentEditId.value != ""
      ensures request.Some? ==> (request.value ==
        UpdateRequest(currentEditId.value, EditMealsOf(editMealGroup.rows), Trim(editWorkout.Value()), editTime))
    {
      if currentEditId.None? || currentEditId.value == "" {
        return None;
      }
      var meals := EditMealsOf(editMealGroup.rows);
      request := Some(UpdateRequest(currentEditId.value, meals, Trim(editWorkout.Value()), editTime));
    }
  }
}
