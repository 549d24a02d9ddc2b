/** The trainee profile page (js/traineeprofile.js): the gender list, the
    prefill from the stored profile, and the submit handler that marks each
    missing field and posts the profile only when none is missing. Each
    field sits in its own container, named by the field, which holds that
    field's error element. */
module TraineeProfile {
  import opened Dom

  const FieldRequired := "This field is required"
  const FillAllFields := "Please fill out all required fields."

  /** The four checked controls, each naming its own container. */
  datatype Field = Age | Gender | Height | Weight

  const GenderPlaceholder := OptionEl("", "Select", false)

  /** The genders request: on success the list is an enabled "Select"
      option with value "", selected, followed by one capitalised option
      per gender; on failure it is left alone. */
  method LoadGenders(sel: Select, genders: Option<seq<string>>) returns (r: Select)
    ensures genders.None? ==> r == sel
    ensures genders.Some? ==> r.options == [GenderPlaceholder] + Labelled(genders.value, Capitalize)
    ensures genders.Some? ==> r.Value() == ""
  {
    if genders.None? {
      return sel;
    }
    var start := Parsed(GenderPlaceholder, false);
    r := AppendOptions(start, Labelled(genders.value, Capitalize));
    AppendAllShape(start, Labelled(genders.value, Capitalize));
  }

  /** One entry of the profile's weight history. */
  datatype WeightEntry = WeightEntry(date: JsValue, weight: JsValue)

  /** The `trainee` member of the profile reply. */
  datatype StoredProfile = StoredProfile(age: JsValue, gender: JsValue, height: JsValue, weightHistory: Option<seq<WeightEntry>>)

  /** The body of `POST /api/trainee/profile`; `username` is what local
      storage holds, `null` when it holds nothing. */
  datatype ProfileRequest = ProfileRequest(username: Option<string>, age: string, gender: string, height: string, weight: string)

  /** The profile form: its controls, the fields marked invalid and the
      error elements the containers hold. */
  class ProfileForm {
    var age: string
    var gender: Select
    var height: string
    var weight: string
    /** The controls carrying the `is-invalid` class. */
    var invalid: set<Field>
    /** The `.invalid-feedback` elements in the form, in the order they
        were added (each sits in its own field's container). */
    var feedbacks: seq<InvalidFeedback<Field>>
    var status: Message

    constructor (gender: Select)
      ensures age == "" && this.gender == gender && height == "" && weight == ""
      ensures invalid == {} && feedbacks == [] && status == Hidden
    {
      age, this.gender, height, weight := "", gender, "", "";
      invalid, feedbacks, status := {}, [], Hidden;
    }

    /** `markInvalid`: the control is marked, and its container gets an
        error element only when it has none yet, so marking twice adds
        nothing. */
    method MarkInvalid(field: Field)
      modifies this
      ensures invalid == old(invalid) + {field}
      ensures feedbacks == old(feedbacks) +
        (if old(HasFeedback(feedbacks, field)) then [] else [InvalidFeedback(field, FieldRequired, true)])
      ensures age == old(age) && gender == old(gender) && height == old(height) && weight == old(weight)
      ensures status == old(status)
    {
      invalid := invalid + {field};
      if !HasFeedback(feedbacks, field) {
        feedbacks := feedbacks + [InvalidFeedback(field, FieldRequired, true)];
      }
    }

    /** `clearValidation`: no control stays marked and every error
        element is removed. */
    method ClearValidation()
      modifies this
      ensures invalid == {} && feedbacks == []
      ensures age == old(age) && gender == old(gender) && height == old(height) && weight == old(weight)
      ensures status == old(status)
    {
      invalid := {};
      feedbacks := [];
    }

    /** One check of the submit handler, on a form whose marks so far are
        `marked`: a failed check marks its field. */
    method Check(failed: bool, field: Field, ghost marked: seq<Field>)
      requires feedbacks == Marks(marked) && invalid == SetOf(marked) && field !in marked
      modifies this
      ensures feedbacks == Marks(AddIf(marked, failed, field))
      ensures invalid == SetOf(AddIf(marked, failed, field))
      ensures age == old(age) && gender == old(gender) && height == old(height) && weight == old(weight)
      ensures status == old(status)
    {
      if failed {
        MarkNew(marked, field);
        MarkInvalid(field);
      }
    }

    /** The four checks of the submit handler, in order, on a cleared
        form. */
    method MarkFailed(ageEmpty: bool, genderEmpty: bool, heightEmpty: bool, weightEmpty: bool)
      requires invalid == {} && feedbacks == []
      modifies this
      ensures feedbacks == Marks(Missing(ageEmpty, genderEmpty, heightEmpty, weightEmpty))
      ensures invalid == SetOf(Missing(ageEmpty, genderEmpty, heightEmpty, weightEmpty))
      ensures age == old(age) && gender == old(gender) && height == old(height) && weight == old(weight)
      ensures status == old(status)
    {
      ghost var a := AddIf([], ageEmpty, Age);
      ghost var g := AddIf(a, genderEmpty, Gender);
      ghost var h := AddIf(g, heightEmpty, Height);
      AddIfOther([], ageEmpty, Age, Gender);
      AddIfOther([], ageEmpty, Age, Height);
      AddIfOther(a, genderEmpty, Gender, Height);
      AddIfOther([], ageEmpty, Age, Weight);
      AddIfOther(a, genderEmpty, Gender, Weight);
      AddIfOther(g, heightEmpty, Height, Weight);
      Check(ageEmpty, Age, []);
      Check(genderEmpty, Gender, a);
      Check(heightEmpty, Height, g);
      Check(weightEmpty, Weight, h);
    }

    /** The submit handler: validation is cleared, each empty field (age,
        height and weight trimmed; the gender's value) is marked, and any
        missing field shows one aggregate message and sends nothing;
        otherwise the profile is sent with the trimmed values. */
    method Submit(savedUsername: Option<string>) returns (request: Option<ProfileRequest>)
      modifies this
      ensures feedbacks == Marks(Missing(Trim(age) == "", gender.Value() == "", Trim(height) == "", Trim(weight) == ""))
      ensures invalid == SetOf(Missing(Trim(age) == "", gender.Value() == "", Trim(height) == "", Trim(weight) == ""))
      ensures request.Some? <==> Trim(age) != "" && gender.Value() != "" && Trim(height) != "" && Trim(weight) != ""
      ensures request.None? ==> status == Shown(FillAllFields)
      ensures request.Some? ==> (status == old(status) &&
        request.value == ProfileRequest(savedUsername, Trim(age), gender.Value(), Trim(height), Trim(weight)))
      ensures age == old(age) && gender == old(gender) && height == old(height) && weight == old(weight)
    {
      var a, g, h, w := Trim(age), gender.Value(), Trim(height), Trim(weight);
      ClearValidation();
      MarkFailed(a == "", g == "", h == "", w == "");
      if a == "" || g == "" || h == "" || w == "" {
        status := Shown(FillAllFields);
        return None;
      }
      request := Some(ProfileRequest(savedUsername, a, g, h, w));
    }

    /** The prefill from the stored profile: nothing without a profile;
        otherwise each of age, gender and height is set only when the
        stored value is truthy, and weight takes the last history entry's
        weight when there is such an entry. */
    method Prefill(trainee: Option<StoredProfile>)
      modifies this
      ensures trainee.None? ==> age == old(age) && gender == old(gender) && height == old(height) && weight == old(weight)
      ensures trainee.Some? ==> age == (if Truthy(trainee.value.age) then Text(trainee.value.age) else old(age))
      ensures trainee.Some? ==> (gender ==
        if Truthy(trainee.value.gender) then SetValue(old(gender), Text(trainee.value.gender)) else old(gender))
      ensures trainee.Some? ==> height == (if Truthy(trainee.value.height) then Text(trainee.value.height) else old(height))
      ensures trainee.Some? ==> (weight ==
        if LastWeight(trainee.value).Some? then AssignedValue(LastWeight(trainee.value).value) else old(weight))
      ensures invalid == old(invalid) && feedbacks == old(feedbacks) && status == old(status)
    {
      if trainee.None? {
        return;
      }
      var t := trainee.value;
      if Truthy(t.age) {
        age := Text(t.age);
      }
      if Truthy(t.gender) {
        gender := SetValue(gender, Text(t.gender));
      }
      if Truthy(t.height) {
        height := Text(t.height);
      }
      var last := LastWeight(t);
      if last.Some? {
        weight := AssignedValue(last.value);
      }
    }
  }

  /** The fields a submit marks, in the order it checks them: those whose
      checked value is empty. */
  function Missing(ageEmpty: bool, genderEmpty: bool, heightEmpty: bool, weightEmpty: bool): seq<Field> {
    AddIf(AddIf(AddIf(AddIf([], ageEmpty, Age), genderEmpty, Gender), heightEmpty, Height), weightEmpty, Weight)
  }

  /** A field is marked exactly when its check failed, and at most
      once. */
  lemma MissingExactly(ageEmpty: bool, genderEmpty: bool, heightEmpty: bool, weightEmpty: bool)
    ensures var m := Missing(ageEmpty, genderEmpty, heightEmpty, weightEmpty);
      (Age in m <==> ageEmpty) && (Gender in m <==> genderEmpty) &&
      (Height in m <==> heightEmpty) && (Weight in m <==> weightEmpty) &&
      (forall i, j :: 0 <= i < j < |m| ==> m[i] != m[j])
  {
    var a := AddIf([], ageEmpty, Age);
    var g := AddIf(a, genderEmpty, Gender);
    var h := AddIf(g, heightEmpty, Height);
    AddIfDistinct(a, genderEmpty, Gender);
    AddIfDistinct(g, heightEmpty, Height);
    AddIfDistinct(h, weightEmpty, Weight);
  }

  /** Adding a field not yet listed keeps the list free of repeats. */
  lemma AddIfDistinct(s: seq<Field>, failed: bool, x: Field)
    requires forall i, j :: 0 <= i < j < |s| ==> s[i] != s[j]
    requires x !in s
    ensures forall i, j :: 0 <= i < j < |AddIf(s, failed, x)| ==> AddIf(s, failed, x)[i] != AddIf(s, failed, x)[j]
    ensures forall y :: y in AddIf(s, failed, x) <==> y in s || (failed && y == x)
  {
  }

  lemma AddIfOther(s: seq<Field>, failed: bool, x: Field, y: Field)
    requires y !in s && y != x
    ensures y !in AddIf(s, failed, x)
  {
  }

  /** Marking a field again adds nothing: a container that holds at most
      one error element holds exactly one after `markInvalid`. */
  lemma MarkKeepsOne(fs: seq<InvalidFeedback<Field>>, field: Field)
    requires FeedbackCount(fs, field) <= 1
    ensures FeedbackCount(fs + (if HasFeedback(fs, field) then [] else [InvalidFeedback(field, FieldRequired, true)]), field) == 1
  {
    if HasFeedback(fs, field) {
      assert fs + [] == fs;
    } else {
      FeedbackCountAppend(fs, InvalidFeedback(field, FieldRequired, true), field);
    }
  }

  /** One "This field is required" element per field, in order. */
  function Marks(fields: seq<Field>): (fs: seq<InvalidFeedback<Field>>)
    ensures |fs| == |fields|
  {
    if fields == [] then [] else Marks(fields[..|fields| - 1]) + [InvalidFeedback(fields[|fields| - 1], FieldRequired, true)]
  }

  /** After a submit every missing field's container holds exactly one
      error element and no other container holds any. */
  lemma {:induction false} MarksOnePerField(fields: seq<Field>, p: Field)
    requires forall i, j :: 0 <= i < j < |fields| ==> fields[i] != fields[j]
    ensures FeedbackCount(Marks(fields), p) == (if p in fields then 1 else 0)
  {
    if fields != [] {
      var init := fields[..|fields| - 1];
      MarksOnePerField(init, p);
      FeedbackCountAppend(Marks(init), InvalidFeedback(fields[|fields| - 1], FieldRequired, true), p);
      assert fields == init + [fields[|fields| - 1]];
      assert fields[|fields| - 1] !in init;
    }
  }

  lemma {:induction false} MarksAt(fields: seq<Field>)
    ensures forall i :: 0 <= i < |fields| ==> Marks(fields)[i] == InvalidFeedback(fields[i], FieldRequired, true)
  {
    if fields != [] {
      MarksAt(fields[..|fields| - 1]);
    }
  }

  lemma MarkNew(marked: seq<Field>, field: Field)
    requires field !in marked
    ensures !HasFeedback(Marks(marked), field)
    ensures Marks(marked + [field]) == Marks(marked) + [InvalidFeedback(field, FieldRequired, true)]
    ensures SetOf(marked + [field]) == SetOf(marked) + {field}
  {
    assert (marked + [field])[..|marked|] == marked;
    MarksAt(marked);
  }

  /** `trainee.weightHistory?.at(-1)?.weight`, when the history has a last
      entry. */
  function LastWeight(t: StoredProfile): (w: Option<JsValue>)
    ensures w.Some? <==> t.weightHistory.Some? && t.weightHistory.value != []
    ensures w.Some? ==> w.value == t.weightHistory.value[|t.weightHistory.value| - 1].weight
  {
    if t.weightHistory.Some? && t.weightHistory.value != [] then
      Some(t.weightHistory.value[|t.weightHistory.value| - 1].weight)
    else None
  }
}
