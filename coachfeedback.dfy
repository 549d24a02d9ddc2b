/** The coach's feedback page (js/coachfeedback.js): the trainee list and
    the id-to-name map built from it, the trainee's entries listed newest
    first, the profile card with its weight history in date order, and the
    feedback the form sends. */
module CoachFeedback {
  import opened Dom
  import opened Sorting

  const SelectTrainee := "Please select a trainee."
  const NoData := "No data found for this trainee."
  const LoadError := "Error loading data."
  const CompleteFields := "Please complete all required fields."

  // ---------------------------------------------------------------------
  // Trainees
  // ---------------------------------------------------------------------

  /** One item of `GET /api/users/trainees`. */
  datatype Trainee = Trainee(id: string, username: JsValue)

  /** The map from trainee id to user name after the given trainees are
      set in order (the specification of `BuildTraineeMap`). */
  function MapOf(m0: map<string, JsValue>, ts: seq<Trainee>): map<string, JsValue> {
    if ts == [] then m0 else MapOf(m0, ts[..|ts| - 1])[ts[|ts| - 1].id := ts[|ts| - 1].username]
  }

  /** After the load the map knows exactly the ids it knew and the loaded
      ones. */
  lemma {:induction false} MapOfKeys(m0: map<string, JsValue>, ts: seq<Trainee>, id: string)
    ensures id in MapOf(m0, ts) <==> id in m0 || exists i :: 0 <= i < |ts| && ts[i].id == id
  {
    if ts != [] {
      var init := ts[..|ts| - 1];
      MapOfKeys(m0, init, id);
      if id in MapOf(m0, init) && id !in m0 {
        var i :| 0 <= i < |init| && init[i].id == id;
        assert ts[i].id == id;
      }
      if exists i :: 0 <= i < |ts| && ts[i].id == id {
        var i :| 0 <= i < |ts| && ts[i].id == id;
        if i < |init| {
          assert init[i].id == id;
        }
      }
    }
  }

  /** A loaded id maps to the user name of the last trainee with that id. */
  lemma {:induction false} MapOfLast(m0: map<string, JsValue>, ts: seq<Trainee>, i: nat)
    requires i < |ts| && forall j :: i < j < |ts| ==> ts[j].id != ts[i].id
    ensures ts[i].id in MapOf(m0, ts) && MapOf(m0, ts)[ts[i].id] == ts[i].username
  {
    if i < |ts| - 1 {
      MapOfLast(m0, ts[..|ts| - 1], i);
    }
  }

  /** `loadTrainees`: each trainee in order is set in the map, id to user
      name, and gets an option; a failed request changes neither. */
  method BuildTraineeMap(m0: map<string, JsValue>, sel: Select, trainees: Option<seq<Trainee>>)
    returns (m: map<string, JsValue>, r: Select)
    ensures trainees.None? ==> m == m0 && r == sel
    ensures trainees.Some? ==> m == MapOf(m0, trainees.value)
    ensures trainees.Some? ==> r == AppendAll(sel, TraineeOptions(trainees.value))
  {
    if trainees.None? {
      return m0, sel;
    }
    var ts := trainees.value;
    m, r := m0, sel;
    var i := 0;
    while i < |ts|
      invariant 0 <= i <= |ts|
      invariant m == MapOf(m0, ts[..i])
      invariant AppendAll(r, TraineeOptions(ts[i..])) == AppendAll(sel, TraineeOptions(ts))
    {
      MapOfNext(m0, ts, i);
      AppendNext(r, ts, i);
      m := m[ts[i].id := ts[i].username];
      r := Append(r, OptionEl(ts[i].id, ContentText(ts[i].username), false));
      i := i + 1;
    }
    assert ts[..i] == ts;
  }

  /** One option per trainee: valued by its id, labelled by its user
      name. */
  function TraineeOptions(ts: seq<Trainee>): (r: seq<OptionEl>)
    ensures |r| == |ts|
    ensures forall i :: 0 <= i < |ts| ==> r[i] == OptionEl(ts[i].id, ContentText(ts[i].username), false)
  {
    if ts == [] then [] else [OptionEl(ts[0].id, ContentText(ts[0].username), false)] + TraineeOptions(ts[1..])
  }

  lemma TraineeOptionsFrom(ts: seq<Trainee>, i: nat)
    requires i < |ts|
    ensures TraineeOptions(ts[i..]) == [OptionEl(ts[i].id, ContentText(ts[i].username), false)] + TraineeOptions(ts[i + 1..])
  {
    assert ts[i..][1..] == ts[i + 1..];
  }

  lemma MapOfNext(m0: map<string, JsValue>, ts: seq<Trainee>, i: nat)
    requires i < |ts|
    ensures MapOf(m0, ts[..i + 1]) == MapOf(m0, ts[..i])[ts[i].id := ts[i].username]
  {
    assert ts[..i + 1][..i] == ts[..i];
  }

  lemma AppendNext(r: Select, ts: seq<Trainee>, i: nat)
    requires i < |ts|
    ensures AppendAll(r, TraineeOptions(ts[i..])) ==
      AppendAll(Append(r, OptionEl(ts[i].id, ContentText(ts[i].username), false)), TraineeOptions(ts[i + 1..]))
  {
    var o, rest := OptionEl(ts[i].id, ContentText(ts[i].username), false), TraineeOptions(ts[i + 1..]);
    TraineeOptionsFrom(ts, i);
    var all := [o] + rest;
    assert all[0] == o && all[1..] == rest;
  }

  /** `loadTraineeProfile`'s guard: the profile is requested only for an id
      the map knows with a truthy user name, and by that name. */
  function ProfileTarget(m: map<string, JsValue>, traineeId: string): (username: Option<string>)
    ensures username.Some? <==> traineeId in m && Truthy(m[traineeId])
    ensures username.Some? ==> username.value == Text(m[traineeId])
  {
    if traineeId in m && Truthy(m[traineeId]) then Some(Text(m[traineeId])) else None
  }

  /** A freshly loaded trainee whose user name is truthy is looked up by
      that name; an id that was never loaded is not looked up at all. */
  lemma ProfileTargetOfLoaded(ts: seq<Trainee>, i: nat, other: string)
    requires i < |ts| && Truthy(ts[i].username)
    requires forall j :: i < j < |ts| ==> ts[j].id != ts[i].id
    requires forall j :: 0 <= j < |ts| ==> ts[j].id != other
    ensures ProfileTarget(MapOf(map[], ts), ts[i].id) == Some(Text(ts[i].username))
    ensures ProfileTarget(MapOf(map[], ts), other).None?
  {
    MapOfLast(map[], ts, i);
    MapOfKeys(map[], ts, other);
  }

  // ---------------------------------------------------------------------
  // The trainee's entries
  // ---------------------------------------------------------------------

  /** One item of `GET /api/entries?traineeId=…`; `meals` holds each meal's
      `name`, and is absent when the entry has no meal array. */
  datatype DayEntry = DayEntry(date: string, time: JsValue, meals: Option<seq<JsValue>>, calories: JsValue, workout: JsValue)

  /** `date + "T" + (time || "00:00")`, the moment an entry is ordered by. */
  function SortKey(e: DayEntry): string {
    e.date + "T" + (if Truthy(e.time) then Text(e.time) else "00:00")
  }

  /** The entries newest first. */
  function NewestFirst(data: seq<DayEntry>): seq<DayEntry> {
    SortBy(data, SortKey, true)
  }

  /** The listed entries hold exactly the loaded ones, each no older than
      the next, an entry without a time counting as midnight. */
  lemma NewestFirstOrder(data: seq<DayEntry>)
    ensures multiset(NewestFirst(data)) == multiset(data)
    ensures forall i, j :: 0 <= i < j < |data| ==> LexLeq(SortKey(NewestFirst(data)[j]), SortKey(NewestFirst(data)[i]))
  {
    SortByCorrect(data, SortKey, true);
  }

  /** What an entry's box shows. */
  datatype EntryView = EntryView(date: string, time: string, meals: string, calories: string, exercise: string)

  /** `Array.prototype.join` shows `undefined` and `null` as "". */
  function JoinedText(x: JsValue): string {
    if x.Undefined? || x.Null? then "" else Text(x)
  }

  function MealNames(names: seq<JsValue>): (r: seq<string>)
    ensures |r| == |names| && forall i :: 0 <= i < |names| ==> r[i] == JoinedText(names[i])
  {
    if names == [] then [] else [JoinedText(names[0])] + MealNames(names[1..])
  }

  /** An entry's box: its time or "Unknown", its meal names joined by
      ", ", its calories or 0, its workout or "No data". */
  function ViewOf(e: DayEntry): EntryView
    requires e.meals.Some?
  {
    EntryView(e.date,
              if Truthy(e.time) then Text(e.time) else "Unknown",
              Join(MealNames(e.meals.value), ", "),
              if Truthy(e.calories) then Text(e.calories) else "0",
              if Truthy(e.workout) then Text(e.workout) else "No data")
  }

  /** Every entry has a meal array. */
  predicate AllHaveMeals(es: seq<DayEntry>) {
    forall i :: 0 <= i < |es| ==> es[i].meals.Some?
  }

  /** Sorting neither adds nor drops an entry without meals. */
  lemma AllHaveMealsSorted(data: seq<DayEntry>)
    ensures AllHaveMeals(NewestFirst(data)) <==> AllHaveMeals(data)
  {
    var sorted := NewestFirst(data);
    SortByCorrect(data, SortKey, true);
    if AllHaveMeals(data) {
      forall i | 0 <= i < |sorted| ensures sorted[i].meals.Some? {
        assert sorted[i] in multiset(data);
      }
    }
    if AllHaveMeals(sorted) {
      forall i | 0 <= i < |data| ensures data[i].meals.Some? {
        assert data[i] in multiset(sorted);
      }
    }
  }

  function ViewsOf(es: seq<DayEntry>): (vs: seq<EntryView>)
    requires AllHaveMeals(es)
    ensures |vs| == |es| && forall i :: 0 <= i < |es| ==> vs[i] == ViewOf(es[i])
  {
    if es == [] then [] else [ViewOf(es[0])] + ViewsOf(es[1..])
  }

  /** The data panel: a message, or the entries' boxes in order. */
  datatype Panel = PanelText(text: string) | Boxes(views: seq<EntryView>)

  /** `loadTraineeData`: no trainee selected shows a prompt and sends
      nothing; a failed request, or an entry without a meal array, shows
      the load error; an empty result says so; otherwise the entries are
      listed newest first. `reply` is the request's result when one is
      sent. */
  method LoadTraineeData(traineeId: string, reply: Option<seq<DayEntry>>) returns (requested: bool, panel: Panel)
    ensures requested <==> traineeId != ""
    ensures traineeId == "" ==> panel == PanelText(SelectTrainee)
    ensures requested && reply.None? ==> panel == PanelText(LoadError)
    ensures requested && reply.Some? && reply.value == [] ==> panel == PanelText(NoData)
    ensures requested && reply.Some? && reply.value != [] ==>
      (panel == if AllHaveMeals(NewestFirst(reply.value)) then Boxes(ViewsOf(NewestFirst(reply.value)))
                else PanelText(LoadError))
  {
    if traineeId == "" {
      return false, PanelText(SelectTrainee);
    }
    requested := true;
    if reply.None? {
      return true, PanelText(LoadError);
    }
    var data := reply.value;
    if |data| == 0 {
      return true, PanelText(NoData);
    }
    data := NewestFirst(data);
    if !AllHaveMeals(data) {
      return true, PanelText(LoadError);
    }
    panel := Boxes(ViewsOf(data));
  }

  // ---------------------------------------------------------------------
  // The profile card
  // ---------------------------------------------------------------------

  /** One entry of the weight history. */
  datatype WeightPoint = WeightPoint(date: string, weight: JsValue)

  /** The `trainee` member of the profile reply. */
  datatype Profile = Profile(age: JsValue, gender: JsValue, height: JsValue, weightHistory: Option<seq<WeightPoint>>)

  /** The profile card as the page shows it: whether it is displayed, the
      texts of its name, age, gender and height, and the points of the
      weight chart, oldest first. The card is only ever rewritten, never
      cleared, by a load. */
  datatype Card = Card(visible: bool, username: string, age: string, gender: string, height: string, weights: seq<WeightPoint>)

  /** The outcome of the profile request: it, its status or its JSON
      failed, or an ok body with its `trainee` member, if any. */
  datatype ProfileReply = ProfileFailed | ProfileBody(trainee: Option<Profile>)

  /** The copy the chart is drawn from: the history by date, oldest first. */
  function OldestFirst(history: seq<WeightPoint>): seq<WeightPoint> {
    SortBy(history, (w: WeightPoint) => w.date, false)
  }

  lemma OldestFirstOrder(history: seq<WeightPoint>)
    ensures multiset(OldestFirst(history)) == multiset(history)
    ensures forall i, j :: 0 <= i < j < |history| ==> LexLeq(OldestFirst(history)[i].date, OldestFirst(history)[j].date)
  {
    SortByCorrect(history, (w: WeightPoint) => w.date, false);
  }

  /** `loadTraineeProfile` on the card `card0` the page shows: nothing is
      requested for an unknown id, and a failed request changes nothing; an
      ok reply first writes the name, so one without a trainee changes the
      name and then throws; a full reply shows the card with the name from
      the map, the profile's fields and the weight history (none when
      missing) sorted oldest first. */
  method LoadTraineeProfile(m: map<string, JsValue>, traineeId: string, card0: Card, reply: ProfileReply)
    returns (request: Option<string>, card: Card)
    ensures request == ProfileTarget(m, traineeId)
    ensures request.None? || reply.ProfileFailed? ==> card == card0
    ensures request.Some? && reply == ProfileBody(None) ==> card == card0.(username := request.value)
    ensures request.Some? && reply.ProfileBody? && reply.trainee.Some? ==>
      var p := reply.trainee.value;
      card == Card(true, request.value, ContentText(p.age), ContentText(p.gender), ContentText(p.height),
        OldestFirst(if p.weightHistory.Some? then p.weightHistory.value else []))
    ensures card.visible <==> card0.visible || (request.Some? && reply.ProfileBody? && reply.trainee.Some?)
  {
    request := ProfileTarget(m, traineeId);
    if request.None? || reply.ProfileFailed? {
      return request, card0;
    }
    card := card0.(username := request.value);
    if reply.trainee.None? {
      return;
    }
    var p := reply.trainee.value;
    var history := if p.weightHistory.Some? then p.weightHistory.value else [];
    card := Card(true, request.value, ContentText(p.age), ContentText(p.gender), ContentText(p.height), OldestFirst(history));
  }

  // ---------------------------------------------------------------------
  // Sending feedback
  // ---------------------------------------------------------------------

  /** The body of `POST /api/coach/feedback`. */
  datatype FeedbackPayload = FeedbackPayload(traineeId: string, datetime: string, nutrition: string, exercise: string, general: string)

  datatype SubmitResult = Incomplete(message: string) | Send(payload: FeedbackPayload)

  /** The form's submit: a form the browser finds invalid shows the
      completion message and sends nothing; otherwise the payload carries
      the selected trainee, "date`T`time" and the three trimmed tips. */
  function SubmitFeedback(formValid: bool, traineeId: string, date: string, time: string,
                          nutrition: string, exercise: string, general: string): (r: SubmitResult)
    ensures r.Send? <==> formValid
    ensures !formValid ==> r == Incomplete(CompleteFields)
    ensures r.Send? ==> r.payload.traineeId == traineeId && r.payload.datetime == date + "T" + time
    ensures r.Send? ==> (r.payload.nutrition == Trim(nutrition) && r.payload.exercise == Trim(exercise) &&
      r.payload.general == Trim(general))
  {
    if !formValid then Incomplete(CompleteFields)
    else Send(FeedbackPayload(traineeId, date + "T" + time, Trim(nutrition), Trim(exercise), Trim(general)))
  }
}
