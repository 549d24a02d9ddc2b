/** The coach's feedback history page (js/coachhistory.js): the trainee
    filter, the table of feedbacks with its row texts, and the edit dialog
    whose submit checks date, time and the three tips before sending the
    trimmed tips back. */
module CoachHistory {
  import opened Dom

  const AllTrainees := OptionEl("", "All Trainees", false)
  const NoHistory := "No feedback history available."
  const PleaseLogin := "Please login to view feedback history."
  const NoFeedback := "No feedback"
  const Unknown := "Unknown"
  const ReadStatus := "✔ Read"
  const UnreadStatus := "✖ Unread"
  const DateTimeRequired := "Please fill in date and time"
  const FieldRequired := "This field is required"

  // ---------------------------------------------------------------------
  // The data
  // ---------------------------------------------------------------------

  /** A feedback's `trainee`: missing, an id the server did not expand, or
      an expanded trainee with its `_id` and `username`. */
  datatype TraineeRef = NoTrainee | RawTrainee(rawId: string) | PopulatedTrainee(id: Option<string>, username: JsValue)

  /** A feedback's `tips`. */
  datatype Tips = Tips(nutrition: JsValue, exercise: JsValue, general: JsValue)

  /** One item of `GET /api/coach/feedback`. */
  datatype Feedback = Feedback(id: string, trainee: TraineeRef, tips: Option<Tips>, readByTrainee: JsValue)

  /** One item of `GET /api/users/trainees`. */
  datatype Trainee = Trainee(id: string, username: string)

  // ---------------------------------------------------------------------
  // The trainee filter
  // ---------------------------------------------------------------------

  function TraineeOptions(ts: seq<Trainee>): (r: seq<OptionEl>)
    ensures |r| == |ts|
    ensures forall i :: 0 <= i < |ts| ==> r[i] == OptionEl(ts[i].id, ts[i].username, false)
  {
    if ts == [] then [] else [OptionEl(ts[0].id, ts[0].username, false)] + TraineeOptions(ts[1..])
  }

  /** The outcome of the trainees request: no request (no token), a
      request or JSON parse that failed, a parsed body that is not an array
      (the handler does not look at the status, so an error object lands
      here), or the list. */
  datatype TraineesReply = NoToken | TraineesFailed | TraineesNotAList | TraineeList(items: seq<Trainee>)

  /** The trainees request: once the body is parsed the filter becomes "All
      Trainees" (value "", selected), and a list then adds one option per
      trainee, valued by its id and labelled by its user name; a body that
      is not an array throws right after the reset, and without a token or
      a parsed body the filter is left alone. */
  method LoadTrainees(sel: Select, reply: TraineesReply) returns (r: Select)
    ensures reply.NoToken? || reply.TraineesFailed? ==> r == sel
    ensures reply.TraineesNotAList? ==> r.options == [AllTrainees] && r.Value() == ""
    ensures reply.TraineeList? ==> r.options == [AllTrainees] + TraineeOptions(reply.items) && r.Value() == ""
  {
    if reply.NoToken? || reply.TraineesFailed? {
      return sel;
    }
    var start := Parsed(AllTrainees, false);
    if reply.TraineesNotAList? {
      return start;
    }
    r := AppendOptions(start, TraineeOptions(reply.items));
    AppendAllShape(start, TraineeOptions(reply.items));
  }

  /** `f.trainee?._id === selected`: only an expanded trainee has an id to
      compare. */
  predicate Matches(f: Feedback, selected: string) {
    f.trainee.PopulatedTrainee? && f.trainee.id == Some(selected)
  }

  /** The feedbacks the table lists: all of them when no trainee is
      selected, otherwise those of the selected trainee, in their order. */
  function Filtered(all: seq<Feedback>, selected: string): (r: seq<Feedback>)
    ensures |r| <= |all|
    ensures selected == "" ==> r == all
    ensures selected != "" ==> forall i :: 0 <= i < |r| ==> Matches(r[i], selected) && r[i] in all
    ensures selected != "" ==> forall i :: 0 <= i < |all| && Matches(all[i], selected) ==> all[i] in r
  {
    if selected == "" || all == [] then all
    else
      var rest := Filtered(all[1..], selected);
      assert forall i :: 1 <= i < |all| ==> all[i] == all[1..][i - 1];
      if Matches(all[0], selected) then [all[0]] + rest else rest
  }

  /** The filter keeps the order of the list: a feedback loaded after the
      others is listed after them, when it is listed at all. */
  lemma {:induction false} FilteredAppend(all: seq<Feedback>, f: Feedback, selected: string)
    requires selected != ""
    ensures Filtered(all + [f], selected) == Filtered(all, selected) + (if Matches(f, selected) then [f] else [])
  {
    if all != [] {
      FilteredAppend(all[1..], f, selected);
      assert (all + [f])[1..] == all[1..] + [f];
    }
  }

  // ---------------------------------------------------------------------
  // Row texts
  // ---------------------------------------------------------------------

  /** `fb.trainee?.username || fb.trainee || "Unknown"`: the user name, or
      the raw id, or "Unknown"; an expanded trainee without a user name is
      an object, which shows as "[object Object]". */
  function TraineeName(t: TraineeRef): (name: string)
    ensures t.PopulatedTrainee? && Truthy(t.username) ==> name == Text(t.username)
    ensures t.PopulatedTrainee? && !Truthy(t.username) ==> name == "[object Object]"
    ensures t.RawTrainee? ==> name == (if t.rawId != "" then t.rawId else Unknown)
    ensures t.NoTrainee? ==> name == Unknown
  {
    match t
    case NoTrainee => Unknown
    case RawTrainee(id) => if id != "" then id else Unknown
    case PopulatedTrainee(_, username) => if Truthy(username) then Text(username) else "[object Object]"
  }

  /** `tips?.<part> || fallback`. */
  function TipOr(tip: Option<Tips>, part: TipField, fallback: string): (r: string)
    ensures tip.Some? && Truthy(TipOf(tip.value, part)) ==> r == Text(TipOf(tip.value, part))
    ensures tip.None? || !Truthy(TipOf(tip.value, part)) ==> r == fallback
  {
    if tip.Some? && Truthy(TipOf(tip.value, part)) then Text(TipOf(tip.value, part)) else fallback
  }

  function TipOf(t: Tips, part: TipField): JsValue {
    match part
    case Nutrition => t.nutrition
    case Exercise => t.exercise
    case General => t.general
  }

  /** The three lines of the tips cell. */
  function TipLines(tips: Option<Tips>): seq<string> {
    ["Nutrition: " + TipOr(tips, Nutrition, NoFeedback),
     "Exercise: " + TipOr(tips, Exercise, NoFeedback),
     "General: " + TipOr(tips, General, NoFeedback)]
  }

  function TipsText(tips: Option<Tips>): string {
    Join(TipLines(tips), "\n")
  }

  /** The tips cell reads back as its three lines, Nutrition, Exercise and
      General in that order, each showing the tip or "No feedback", as long
      as no tip holds a line break itself. */
  lemma TipsTextLines(tips: Option<Tips>)
    requires forall p: TipField :: '\n' !in TipOr(tips, p, NoFeedback)
    ensures Split(TipsText(tips), '\n') == TipLines(tips)
    ensures var lines := Split(TipsText(tips), '\n');
      lines[0] == "Nutrition: " + TipOr(tips, Nutrition, NoFeedback) &&
      lines[1] == "Exercise: " + TipOr(tips, Exercise, NoFeedback) &&
      lines[2] == "General: " + TipOr(tips, General, NoFeedback)
  {
    var lines := TipLines(tips);
    forall i | 0 <= i < 3 ensures '\n' !in lines[i] {
      var p := if i == 0 then Nutrition else if i == 1 then Exercise else General;
      var head := if i == 0 then "Nutrition: " else if i == 1 then "Exercise: " else "General: ";
      assert lines[i] == head + TipOr(tips, p, NoFeedback);
      assert '\n' !in head;
    }
    SplitJoin(lines, '\n');
  }

  /** A row of the history table: one feedback, or a single notice. */
  datatype Row = FeedbackRow(trainee: string, tips: string, status: string, id: string) | Notice(text: string)

  function RowOf(f: Feedback): (r: Row)
    ensures r.FeedbackRow? && r.id == f.id
    ensures r.status == (if Truthy(f.readByTrainee) then ReadStatus else UnreadStatus)
    ensures r.trainee == TraineeName(f.trainee) && r.tips == TipsText(f.tips)
  {
    FeedbackRow(TraineeName(f.trainee), TipsText(f.tips), if Truthy(f.readByTrainee) then ReadStatus else UnreadStatus, f.id)
  }

  /** One row per feedback, in order. */
  function RowsOf(fs: seq<Feedback>): seq<Row> {
    seq(|fs|, i requires 0 <= i < |fs| => RowOf(fs[i]))
  }

  lemma RowsOfNext(fs: seq<Feedback>, i: nat)
    requires i < |fs|
    ensures RowsOf(fs[..i + 1]) == RowsOf(fs[..i]) + [RowOf(fs[i])]
  {
    var a, b := RowsOf(fs[..i + 1]), RowsOf(fs[..i]) + [RowOf(fs[i])];
    forall k | 0 <= k <= i ensures a[k] == b[k] {
      assert fs[..i + 1][k] == fs[k];
      if k < i {
        assert fs[..i][k] == fs[k];
      }
    }
  }

  /** The table `renderFeedbacks` leaves (the specification of
      `HistoryPage.RenderFeedbacks`). */
  function Table(all: seq<Feedback>, selected: string): seq<Row> {
    var shown := Filtered(all, selected);
    if shown == [] then [Notice(NoHistory)] else RowsOf(shown)
  }

  /** An empty selection shows one row per feedback; a selection with no
      feedback shows the single "No feedback history available." row;
      otherwise each row is a feedback of the selected trainee. */
  lemma TableShape(all: seq<Feedback>, selected: string)
    ensures selected == "" && all != [] ==> Table(all, selected) == RowsOf(all)
    ensures Filtered(all, selected) == [] <==> Table(all, selected) == [Notice(NoHistory)]
    ensures selected != "" && Table(all, selected) != [Notice(NoHistory)] ==>
      forall i :: 0 <= i < |Table(all, selected)| ==>
        exists j :: 0 <= j < |all| && Matches(all[j], selected) && Table(all, selected)[i] == RowOf(all[j])
  {
    var shown := Filtered(all, selected);
    if shown != [] {
      assert RowsOf(shown)[0].FeedbackRow?;
      if selected != "" {
        forall i | 0 <= i < |shown| ensures exists j :: 0 <= j < |all| && Matches(all[j], selected) && RowsOf(shown)[i] == RowOf(all[j]) {
          var j :| 0 <= j < |all| && all[j] == shown[i];
        }
      }
    }
  }

  // ---------------------------------------------------------------------
  // Field errors of the edit dialog
  // ---------------------------------------------------------------------

  /** The three tip inputs, each in its own container. */
  datatype TipField = Nutrition | Exercise | General

  /** `addFieldError` on a list of error elements: the container's first
      error element is reused, shown with the new text; only a container
      without one gets a new one. */
  function WithFieldError(fs: seq<InvalidFeedback<TipField>>, field: TipField, text: string): (r: seq<InvalidFeedback<TipField>>)
    ensures HasFeedback(fs, field) ==>
      r == fs[FirstFeedback(fs, field) := InvalidFeedback(field, text, true)]
    ensures !HasFeedback(fs, field) ==> r == fs + [InvalidFeedback(field, text, true)]
  {
    var k := FirstFeedback(fs, field);
    if k >= 0 then fs[k := InvalidFeedback(field, text, true)] else fs + [InvalidFeedback(field, text, true)]
  }

  /** An error element is shown under the container. */
  predicate ShownError(fs: seq<InvalidFeedback<TipField>>, field: TipField) {
    exists i :: 0 <= i < |fs| && fs[i].parent == field && fs[i].shown
  }

  /** `addFieldError` never adds a second error element to a container, and
      after it the container shows an error; no other container changes. */
  lemma WithFieldErrorReuses(fs: seq<InvalidFeedback<TipField>>, field: TipField, text: string, p: TipField)
    ensures FeedbackCount(WithFieldError(fs, field, text), p) ==
      (if p == field && !HasFeedback(fs, field) then 1 else FeedbackCount(fs, p))
    ensures ShownError(WithFieldError(fs, field, text), p) <==> p == field || ShownError(fs, p)
  {
    var r := WithFieldError(fs, field, text);
    var k := FirstFeedback(fs, field);
    if k >= 0 {
      FeedbackCountUpdate(fs, k, InvalidFeedback(field, text, true), p);
      assert r[k].parent == field && r[k].shown;
      if ShownError(fs, p) && p != field {
        var i :| 0 <= i < |fs| && fs[i].parent == p && fs[i].shown;
        assert r[i] == fs[i];
      }
    } else {
      FeedbackCountAppend(fs, InvalidFeedback(field, text, true), p);
      assert r[|fs|].parent == field;
      if ShownError(fs, p) {
        var i :| 0 <= i < |fs| && fs[i].parent == p && fs[i].shown;
        assert r[i] == fs[i];
      }
    }
  }

  /** `clearFormFeedback` on the error elements: all kept, all hidden. */
  function HideAll(fs: seq<InvalidFeedback<TipField>>): (r: seq<InvalidFeedback<TipField>>)
    ensures |r| == |fs|
    ensures forall i :: 0 <= i < |fs| ==> r[i] == fs[i].(shown := false)
  {
    if fs == [] then [] else [fs[0].(shown := false)] + HideAll(fs[1..])
  }

  /** Hiding keeps every container's error elements and shows none. */
  lemma HideAllKeeps(fs: seq<InvalidFeedback<TipField>>, p: TipField)
    ensures FeedbackCount(HideAll(fs), p) == FeedbackCount(fs, p)
    ensures !ShownError(HideAll(fs), p)
  {
    if fs != [] {
      HideAllKeeps(fs[1..], p);
      assert HideAll(fs)[1..] == HideAll(fs[1..]);
    }
  }

  /** The tip fields a submit finds empty after trimming, in the order it
      checks them. */
  function EmptyTips(nutrition: string, exercise: string, general: string): seq<TipField> {
    AddIf(AddIf(AddIf([], Trim(nutrition) == "", Nutrition), Trim(exercise) == "", Exercise), Trim(general) == "", General)
  }

  /** `addFieldError` for each field in turn. */
  function WithFieldErrors(fs: seq<InvalidFeedback<TipField>>, fields: seq<TipField>): seq<InvalidFeedback<TipField>> {
    if fields == [] then fs
    else WithFieldError(WithFieldErrors(fs, fields[..|fields| - 1]), fields[|fields| - 1], FieldRequired)
  }

  /** After the checks on a cleared dialog, exactly the failed fields show
      an error, and a container gets a new error element only when it had
      none. */
  lemma WithFieldErrorsEffect(fs: seq<InvalidFeedback<TipField>>, fields: seq<TipField>, p: TipField)
    requires forall i :: 0 <= i < |fs| ==> !fs[i].shown
    ensures ShownError(WithFieldErrors(fs, fields), p) <==> p in fields
    ensures FeedbackCount(WithFieldErrors(fs, fields), p) ==
      (if p in fields && !HasFeedback(fs, p) then 1 else FeedbackCount(fs, p))
  {
    WithFieldErrorsShown(fs, fields, p);
    WithFieldErrorsCount(fs, fields, p);
  }

  lemma {:induction false} WithFieldErrorsShown(fs: seq<InvalidFeedback<TipField>>, fields: seq<TipField>, p: TipField)
    requires forall i :: 0 <= i < |fs| ==> !fs[i].shown
    ensures ShownError(WithFieldErrors(fs, fields), p) <==> p in fields
  {
    if fields != [] {
      var init, last := fields[..|fields| - 1], fields[|fields| - 1];
      WithFieldErrorsShown(fs, init, p);
      WithFieldErrorReuses(WithFieldErrors(fs, init), last, FieldRequired, p);
      InLast(fields, p);
    } else {
      assert !ShownError(fs, p);
    }
  }

  lemma InLast(fields: seq<TipField>, p: TipField)
    requires fields != []
    ensures p in fields <==> p in fields[..|fields| - 1] || p == fields[|fields| - 1]
  {
    assert fields == fields[..|fields| - 1] + [fields[|fields| - 1]];
  }

  lemma {:induction false} WithFieldErrorsCount(fs: seq<InvalidFeedback<TipField>>, fields: seq<TipField>, p: TipField)
    ensures FeedbackCount(WithFieldErrors(fs, fields), p) ==
      (if p in fields && !HasFeedback(fs, p) then 1 else FeedbackCount(fs, p))
  {
    if fields != [] {
      var init, last := fields[..|fields| - 1], fields[|fields| - 1];
      var before := WithFieldErrors(fs, init);
      WithFieldErrorsCount(fs, init, p);
      WithFieldErrorReuses(before, last, FieldRequired, p);
      InLast(fields, p);
      if p == last && p in init {
        assert FeedbackCount(before, p) > 0;
      }
    }
  }

  // ---------------------------------------------------------------------
  // The page
  // ---------------------------------------------------------------------

  /** The reply to `GET /api/coach/feedback`. */
  datatype FeedbackReply = FetchFailed(message: string) | NotOk(body: string) | Listed(items: seq<Feedback>)

  /** The body of `PUT /api/coach/feedback/{id}`; `datetime` is the
      "date`T`time" text the request's date is built from. */
  datatype FeedbackUpdate = FeedbackUpdate(id: Option<string>, datetime: string, nutrition: string, exercise: string, general: string)

  class HistoryPage {
    var allFeedbacks: seq<Feedback>
    var currentFeedbackId: Option<string>
    var filter: Select
    var rows: seq<Row>
    /** The edit dialog's inputs. */
    var date: string
    var time: string
    var nutrition: string
    var exercise: string
    var general: string
    /** The inputs carrying `is-invalid`. */
    var invalid: set<TipField>
    /** The `.invalid-feedback` elements of the dialog, in the order they
        were added (each sits next to its own input). */
    var feedbacks: seq<InvalidFeedback<TipField>>
    /** The dialog's form-wide message, if one is inserted. */
    var formFeedback: Message

    constructor ()
      ensures allFeedbacks == [] && currentFeedbackId.None? && rows == []
      ensures invalid == {} && feedbacks == [] && formFeedback == Hidden
    {
      allFeedbacks, currentFeedbackId, filter, rows := [], None, Select([], -1), [];
      date, time, nutrition, exercise, general := "", "", "", "", "";
      invalid, feedbacks, formFeedback := {}, [], Hidden;
    }

    /** `renderFeedbacks`: the table is rebuilt from all feedbacks and the
        filter's value, one row per shown feedback in order. */
    method RenderFeedbacks()
      modifies this
      ensures rows == Table(allFeedbacks, filter.Value())
      ensures allFeedbacks == old(allFeedbacks) && filter == old(filter) && currentFeedbackId == old(currentFeedbackId)
      ensures feedbacks == old(feedbacks) && invalid == old(invalid) && formFeedback == old(formFeedback)
      ensures date == old(date) && time == old(time)
      ensures nutrition == old(nutrition) && exercise == old(exercise) && general == old(general)
    {
      var shown := Filtered(allFeedbacks, filter.Value());
      rows := [];
      if shown == [] {
        rows := [Notice(NoHistory)];
        return;
      }
      var i := 0;
      while i < |shown|
        invariant 0 <= i <= |shown|
        invariant rows == RowsOf(shown[..i])
        invariant allFeedbacks == old(allFeedbacks) && filter == old(filter)
        invariant currentFeedbackId == old(currentFeedbackId)
        invariant feedbacks == old(feedbacks) && invalid == old(invalid) && formFeedback == old(formFeedback)
        invariant date == old(date) && time == old(time)
        invariant nutrition == old(nutrition) && exercise == old(exercise) && general == old(general)
      {
        RowsOfNext(shown, i);
        rows := rows + [RowOf(shown[i])];
        i := i + 1;
      }
      assert shown[..i] == shown;
    }

    /** `loadFeedbacks`: without a token, or when the request fails, the
        table shows one notice; otherwise the list is kept and rendered. */
    method LoadFeedbacks(hasToken: bool, reply: FeedbackReply)
      modifies this
      ensures !hasToken ==> rows == [Notice(PleaseLogin)] && allFeedbacks == old(allFeedbacks)
      ensures hasToken && reply.FetchFailed? ==>
        rows == [Notice("Error loading feedback: " + reply.message)] && allFeedbacks == old(allFeedbacks)
      ensures hasToken && reply.NotOk? ==>
        rows == [Notice("Error loading feedback: " + reply.body)] && allFeedbacks == old(allFeedbacks)
      ensures hasToken && reply.Listed? ==>
        allFeedbacks == reply.items && rows == Table(reply.items, filter.Value())
      ensures filter == old(filter) && currentFeedbackId == old(currentFeedbackId)
      ensures feedbacks == old(feedbacks) && invalid == old(invalid) && formFeedback == old(formFeedback)
      ensures date == old(date) && time == old(time)
      ensures nutrition == old(nutrition) && exercise == old(exercise) && general == old(general)
    {
      if !hasToken {
        rows := [Notice(PleaseLogin)];
        return;
      }
      match reply
      case FetchFailed(message) =>
        rows := [Notice("Error loading feedback: " + message)];
      case NotOk(body) =>
        rows := [Notice("Error loading feedback: " + body)];
      case Listed(items) =>
        allFeedbacks := items;
        RenderFeedbacks();
    }

    /** `clearFormFeedback`: the form-wide message is removed, the error
        elements are hidden but kept, and no input stays marked. */
    method ClearFormFeedback()
      modifies this
      ensures formFeedback == Hidden && feedbacks == HideAll(old(feedbacks)) && invalid == {}
      ensures allFeedbacks == old(allFeedbacks) && filter == old(filter) && rows == old(rows)
      ensures currentFeedbackId == old(currentFeedbackId) && date == old(date) && time == old(time)
      ensures nutrition == old(nutrition) && exercise == old(exercise) && general == old(general)
    {
      formFeedback := Hidden;
      feedbacks := HideAll(feedbacks);
      invalid := {};
    }

    /** The edit button of a feedback: it becomes current, the dialog shows
        the given date and time and its tips (or "" when missing), and the
        dialog's messages are cleared. */
    method EditClick(f: Feedback, isoDate: string, shortTime: string)
      modifies this
      ensures currentFeedbackId == Some(f.id) && date == isoDate && time == shortTime
      ensures nutrition == TipOr(f.tips, Nutrition, "") && exercise == TipOr(f.tips, Exercise, "")
      ensures general == TipOr(f.tips, General, "")
      ensures formFeedback == Hidden && feedbacks == HideAll(old(feedbacks)) && invalid == {}
      ensures allFeedbacks == old(allFeedbacks) && filter == old(filter) && rows == old(rows)
    {
      currentFeedbackId := Some(f.id);
      date := isoDate;
      time := shortTime;
      nutrition := TipOr(f.tips, Nutrition, "");
      exercise := TipOr(f.tips, Exercise, "");
      general := TipOr(f.tips, General, "");
      ClearFormFeedback();
    }

    /** The delete button of a feedback: it becomes current. */
    method DeleteClick(f: Feedback)
      modifies this
      ensures currentFeedbackId == Some(f.id)
      ensures allFeedbacks == old(allFeedbacks) && filter == old(filter) && rows == old(rows)
      ensures feedbacks == old(feedbacks) && invalid == old(invalid) && formFeedback == old(formFeedback)
      ensures date == old(date) && time == old(time)
      ensures nutrition == old(nutrition) && exercise == old(exercise) && general == old(general)
    {
      currentFeedbackId := Some(f.id);
    }

    /** `addFieldError`: the input is marked and its container's error
        element shows `text`, reusing the one it has. */
    method AddFieldError(field: TipField, text: string)
      modifies this
      ensures invalid == old(invalid) + {field}
      ensures feedbacks == WithFieldError(old(feedbacks), field, text)
      ensures formFeedback == old(formFeedback)
      ensures allFeedbacks == old(allFeedbacks) && filter == old(filter) && rows == old(rows)
      ensures currentFeedbackId == old(currentFeedbackId) && date == old(date) && time == old(time)
      ensures nutrition == old(nutrition) && exercise == old(exercise) && general == old(general)
    {
      invalid := invalid + {field};
      var k := FirstFeedback(feedbacks, field);
      if k >= 0 {
        feedbacks := feedbacks[k := InvalidFeedback(field, text, true)];
      } else {
        feedbacks := feedbacks + [InvalidFeedback(field, text, true)];
      }
    }

    /** One tip check of the edit submit. */
    method CheckTip(value: string, field: TipField, ghost base: seq<InvalidFeedback<TipField>>, ghost failed: seq<TipField>)
      requires feedbacks == WithFieldErrors(base, failed) && invalid == SetOf(failed)
      modifies this
      ensures feedbacks == WithFieldErrors(base, AddIf(failed, Trim(value) == "", field))
      ensures invalid == SetOf(AddIf(failed, Trim(value) == "", field))
      ensures formFeedback == old(formFeedback)
      ensures allFeedbacks == old(allFeedbacks) && filter == old(filter) && rows == old(rows)
      ensures currentFeedbackId == old(currentFeedbackId) && date == old(date) && time == old(time)
      ensures nutrition == old(nutrition) && exercise == old(exercise) && general == old(general)
    {
      if Trim(value) == "" {
        assert (failed + [field])[..|failed|] == failed;
        AddFieldError(field, FieldRequired);
      }
    }

    /** The edit dialog's submit: the dialog is cleared; a missing date or
        time shows the form-wide message; each tip empty after trimming is
        marked with its container's error shown; only when every check
        passed is the update built, with the trimmed tips. */
    method Submit() returns (request: Option<FeedbackUpdate>)
      modifies this
      ensures formFeedback == (if date == "" || time == "" then Shown(DateTimeRequired) else Hidden)
      ensures feedbacks == WithFieldErrors(HideAll(old(feedbacks)), EmptyTips(nutrition, exercise, general))
      ensures invalid == SetOf(EmptyTips(nutrition, exercise, general))
      ensures request.Some? <==> date != "" && time != "" && EmptyTips(nutrition, exercise, general) == []
      ensures request.Some? ==> (request.value ==
        FeedbackUpdate(currentFeedbackId, date + "T" + time, Trim(nutrition), Trim(exercise), Trim(general)))
      ensures currentFeedbackId == old(currentFeedbackId) && date == old(date) && time == old(time)
      ensures nutrition == old(nutrition) && exercise == old(exercise) && general == old(general)
      ensures allFeedbacks == old(allFeedbacks) && filter == old(filter) && rows == old(rows)
    {
      ClearFormFeedback();
      ghost var base := feedbacks;
      var valid := true;
      if date == "" || time == "" {
        ClearFormFeedback();
        assert HideAll(base) == base;
        formFeedback := Shown(DateTimeRequired);
        valid := false;
      }
      ghost var n := AddIf([], Trim(nutrition) == "", Nutrition);
      ghost var e := AddIf(n, Trim(exercise) == "", Exercise);
      assert invalid == SetOf([]);
      CheckTip(nutrition, Nutrition, base, []);
      CheckTip(exercise, Exercise, base, n);
      CheckTip(general, General, base, e);
      if Trim(nutrition) == "" || Trim(exercise) == "" || Trim(general) == "" {
        valid := false;
      }
      if !valid {
        return None;
      }
      request := Some(FeedbackUpdate(currentFeedbackId, date + "T" + time, Trim(nutrition), Trim(exercise), Trim(general)));
    }
  }
}
