/** The add-entry page (js/addentry.js): a list of meal rows with
    autocomplete and unit lookup, a workout, a date and a time, checked all
    at once on submit and posted as one entry. */
module AddEntry {
  import opened Dom
  import opened MealRows

  const MealFieldsError := "❌ Please complete all meal fields (name, amount, unit)."
  const WorkoutRequired := "❌ Please select a workout."
  const DateRequired := "❌ Date is required."
  const DateNotToday := "❌ Date must be today."
  const TimeRequired := "❌ Time is required."

  /** The unit list of a new row: one disabled, selected "Select unit"
      option whose value is "". */
  function InitialUnitSelect(): (s: Select)
    ensures s.options == [OptionEl("", "Select unit", true)] && s.Value() == ""
  {
    Parsed(OptionEl("", "Select unit", true), true)
  }

  /** The "add meal" button and the initial row: a new empty row is appended
      after the existing ones. */
  method CreateMealInput(group: MealGroup) returns (row: MealRow)
    requires group.Valid()
    modifies group
    ensures fresh(row) && group.Valid() && group.rows == old(group.rows) + [row]
    ensures row.name == "" && row.amount == NaN && row.unitSelect == InitialUnitSelect()
    ensures row.suggestions == [] && row.storedUnit == ""
  {
    row := new MealRow("", NaN, InitialUnitSelect(), "");
    group.Add(row);
  }

  // ---------------------------------------------------------------------
  // Unit lookup after a suggestion is chosen
  // ---------------------------------------------------------------------

  /** The placeholder the unit list is rebuilt with once units are loaded,
      with the value "" the row's first placeholder has (see
      `UnitPlaceholderAsWritten` for the one the code writes). */
  const UnitPlaceholder := OptionEl("", "Select unit", true)

  /** The placeholder exactly as the code writes it: with no `value`
      attribute an option's value is its text. */
  const UnitPlaceholderAsWritten := OptionEl("Select unit", "Select unit", true)

  /** The single option shown when the units cannot be loaded. */
  const NoUnits := OptionEl("", "No units", true)

  predicate UnitsLoaded(reply: UnitsReply) {
    reply.UnitsBody? && reply.ok && reply.possibleUnits.Some?
  }

  /** The unit list after a lookup: the placeholder, selected, followed by
      the server's units in order; or only a disabled "No units" option when
      the lookup failed, was not ok, or had no `possibleUnits`. Either way
      no unit is chosen yet. */
  function UnitSelectAfter(reply: UnitsReply): (s: Select)
    ensures UnitsLoaded(reply) ==>
      s.options == [UnitPlaceholder] + Labelled(reply.possibleUnits.value, u => u) && s.selected == 0
    ensures !UnitsLoaded(reply) ==> s == Parsed(NoUnits, true) && s.options == [NoUnits]
    ensures s.Value() == ""
  {
    if UnitsLoaded(reply) then
      var opts := Labelled(reply.possibleUnits.value, u => u);
      AppendAllShape(Parsed(UnitPlaceholder, true), opts);
      AppendAll(Parsed(UnitPlaceholder, true), opts)
    else Parsed(NoUnits, true)
  }

  /** The unit list a successful lookup gives as the code writes it: the
      selected placeholder reads as "Select unit". */
  function UnitSelectAsWritten(units: seq<string>): (s: Select)
    ensures s.options == [UnitPlaceholderAsWritten] + Labelled(units, u => u)
    ensures s.Value() == "Select unit"
  {
    var opts := Labelled(units, u => u);
    AppendAllShape(Parsed(UnitPlaceholderAsWritten, true), opts);
    AppendAll(Parsed(UnitPlaceholderAsWritten, true), opts)
  }

  /** A click on a suggestion: the name input takes the suggestion's name,
      the suggestion list is emptied, and the unit list is rebuilt from the
      lookup for that ingredient. */
  method SelectSuggestion(row: MealRow, item: Suggestion, reply: UnitsReply)
    modifies row
    ensures row.name == item.name && row.suggestions == []
    ensures row.unitSelect == UnitSelectAfter(reply)
    ensures row.amount == old(row.amount) && row.storedUnit == old(row.storedUnit)
  {
    row.name := item.name;
    row.suggestions := [];
    if UnitsLoaded(reply) {
      var sel := AppendOptions(Parsed(UnitPlaceholder, true), Labelled(reply.possibleUnits.value, u => u));
      row.unitSelect := sel;
    } else {
      row.unitSelect := Parsed(NoUnits, true);
    }
  }

  // ---------------------------------------------------------------------
  // Submission
  // ---------------------------------------------------------------------

  /** The meal a row contributes: trimmed name, parsed amount, unit value. */
  function MealOf(row: MealRow): Meal
    reads row
  {
    Meal(Trim(row.name), row.amount, row.unitSelect.Value())
  }

  function MealsOf(rows: seq<MealRow>): (ms: seq<Meal>)
    reads rows
    ensures |ms| == |rows|
    ensures forall i :: 0 <= i < |rows| ==> ms[i] == MealOf(rows[i])
  {
    if rows == [] then [] else [MealOf(rows[0])] + MealsOf(rows[1..])
  }

  /** `!m.name || !m.amount || !m.unit` is false: a name, a truthy amount
      (so not 0 and not NaN, but possibly negative) and a unit. */
  predicate MealComplete(m: Meal) {
    m.name != "" && AmountTruthy(m.amount) && m.unit != ""
  }

  /** The meal-section check: at least one meal, and every meal complete. */
  predicate MealsComplete(meals: seq<Meal>) {
    |meals| > 0 && forall i :: 0 <= i < |meals| ==> MealComplete(meals[i])
  }

  /** The texts of the four field-error elements. */
  datatype EntryErrors = EntryErrors(meal: string, workout: string, date: string, time: string)

  const NoErrors := EntryErrors("", "", "", "")

  /** The body of `POST /api/entries`. */
  datatype EntryRequest = EntryRequest(meals: seq<Meal>, workout: string, date: string, time: string)

  /** The submit handler: the error texts are cleared, every check runs and
      writes its own message, and the entry is posted only when no check
      failed. `today` is the current UTC date as `YYYY-MM-DD`. */
  method Submit(group: MealGroup, workoutValue: string, date: string, time: string, today: string)
    returns (errors: EntryErrors, request: Option<EntryRequest>)
    ensures errors.meal == (if MealsComplete(MealsOf(group.rows)) then "" else MealFieldsError)
    ensures errors.workout == (if Trim(workoutValue) == "" then WorkoutRequired else "")
    ensures errors.date == (if date == "" then DateRequired else if date != today then DateNotToday else "")
    ensures errors.time == (if time == "" then TimeRequired else "")
    ensures request.Some? <==> errors == NoErrors
    ensures request.Some? ==> request.value == EntryRequest(MealsOf(group.rows), Trim(workoutValue), date, time)
  {
    errors := NoErrors;
    var workout := Trim(workoutValue);
    var hasError := false;
    var meals := MealsOf(group.rows);
    if |meals| == 0 || exists i | 0 <= i < |meals| :: !MealComplete(meals[i]) {
      errors := errors.(meal := MealFieldsError);
      hasError := true;
    }
    if workout == "" {
      errors := errors.(workout := WorkoutRequired);
      hasError := true;
    }
    if date == "" {
      errors := errors.(date := DateRequired);
      hasError := true;
    } else if date != today {
      errors := errors.(date := DateNotToday);
      hasError := true;
    }
    if time == "" {
      errors := errors.(time := TimeRequired);
      hasError := true;
    }
    if hasError {
      return errors, None;
    }
    request := Some(EntryRequest(meals, workout, date, time));
  }

  /** After a successful save the meal list is emptied and one fresh empty
      row is added. */
  method ResetAfterSave(group: MealGroup) returns (row: MealRow)
    modifies group
    ensures group.Valid() && group.rows == [row] && fresh(row)
    ensures row.name == "" && row.amount == NaN && row.unitSelect == InitialUnitSelect()
  {
    group.Clear();
    row := CreateMealInput(group);
  }

  // ---------------------------------------------------------------------
  // What the code as written accepts
  // ---------------------------------------------------------------------

  /** With the placeholder as written, a row whose units were loaded but
      whose unit was never chosen passes the meal check: its unit reads
      "Select unit", which is truthy. */
  lemma PlaceholderUnitPassesAsWritten(name: string, amount: Amount, units: seq<string>)
    requires Trim(name) != "" && AmountTruthy(amount)
    ensures MealsComplete([Meal(Trim(name), amount, UnitSelectAsWritten(units).Value())])
  {
  }

  /** With the corrected placeholder the same row is rejected: after any
      lookup, a row whose unit was not chosen fails the meal check, whatever
      its name and amount. */
  lemma {:induction false} UnchosenUnitRejected(row: MealRow, others: seq<MealRow>, reply: UnitsReply)
    requires row.unitSelect == UnitSelectAfter(reply)
    ensures !MealsComplete(MealsOf(others + [row]))
  {
    var ms := MealsOf(others + [row]);
    assert ms[|others|] == MealOf(row);
    assert !MealComplete(ms[|others|]);
  }
}
