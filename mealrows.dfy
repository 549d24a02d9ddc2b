/** The meal-row widgets shared by the add-entry page and the entries page's
    edit dialog: each row has a meal-name input with its suggestion list,
    an amount input and a unit `<select>`; the rows sit in an ordered
    container, and a row is removed by its own button, by reference. */
module MealRows {
  import opened Dom

  /** One ingredient the catalogue search returned. */
  datatype Suggestion = Suggestion(id: string, name: string)

  /** The reply to `GET …/ingredients/search`: its `ok` status and its
      `results` member, if it had one. */
  datatype SearchReply = SearchReply(ok: bool, results: Option<seq<Suggestion>>)

  /** The reply to `GET …/ingredients/{id}/information`: the request or its
      JSON failed, or a body with its `ok` status and its `possibleUnits`. */
  datatype UnitsReply = UnitsFailed | UnitsBody(ok: bool, possibleUnits: Option<seq<string>>)

  /** One meal as the submit handlers send it. */
  datatype Meal = Meal(name: string, amount: Amount, unit: string)

  /** A mounted meal row. */
  class MealRow {
    /** The text of the meal-name input. */
    var name: string
    /** What `parseFloat` reads from the amount input. */
    var amount: Amount
    /** The unit `<select>`. */
    var unitSelect: Select
    /** The items of the suggestion list, in order. */
    var suggestions: seq<Suggestion>
    /** The unit the row was created with, reselected whenever the row's
        units are loaded (only the edit dialog passes one). */
    var storedUnit: string

    constructor (name: string, amount: Amount, unitSelect: Select, storedUnit: string)
      ensures this.name == name && this.amount == amount && this.unitSelect == unitSelect
      ensures this.storedUnit == storedUnit && suggestions == []
    {
      this.name := name;
      this.amount := amount;
      this.unitSelect := unitSelect;
      this.storedUnit := storedUnit;
      suggestions := [];
    }
  }

  /** `s` with every occurrence of `x` taken out, the rest in order. */
  function Without<T(==)>(s: seq<T>, x: T): (r: seq<T>)
    ensures |r| <= |s|
  {
    if s == [] then []
    else if s[0] == x then Without(s[1..], x)
    else [s[0]] + Without(s[1..], x)
  }

  /** What is left is every other row, and never the removed one. */
  lemma {:induction false} WithoutMembers<T>(s: seq<T>, x: T)
    ensures forall y :: y in Without(s, x) <==> y in s && y != x
  {
    if s != [] {
      WithoutMembers(s[1..], x);
      assert forall y :: y in s <==> y == s[0] || y in s[1..];
    }
  }

  predicate Distinct<T(==)>(s: seq<T>) {
    forall i, j :: 0 <= i < j < |s| ==> s[i] != s[j]
  }

  /** Removing the row at position `k` of a list without repeats deletes
      exactly that row and keeps every other one, in order. */
  lemma WithoutAt<T>(s: seq<T>, k: nat)
    requires Distinct(s) && k < |s|
    ensures Without(s, s[k]) == s[..k] + s[k + 1..]
  {
    OnceIn(s, k);
    SplitAt(s, k);
    WithoutOnce(s[..k], s[k], s[k + 1..]);
  }

  lemma SplitAt<T>(s: seq<T>, k: nat)
    requires k < |s|
    ensures s == s[..k] + [s[k]] + s[k + 1..]
  {
  }

  /** In a list without repeats, an item occurs neither before nor after
      its own position. */
  lemma OnceIn<T>(s: seq<T>, k: nat)
    requires Distinct(s) && k < |s|
    ensures s[k] !in s[..k] && s[k] !in s[k + 1..]
  {
    var before, after := s[..k], s[k + 1..];
    forall j | 0 <= j < |before| ensures before[j] != s[k] {
      assert before[j] == s[j];
    }
    forall j | 0 <= j < |after| ensures after[j] != s[k] {
      assert after[j] == s[k + 1 + j];
    }
  }

  /** The same for a row that occurs only once. */
  lemma WithoutOnce<T>(before: seq<T>, x: T, after: seq<T>)
    requires x !in before && x !in after
    ensures Without(before + [x] + after, x) == before + after
  {
    var tail := [x] + after;
    assert tail[0] == x && tail[1..] == after;
    WithoutAbsent(after, x);
    assert Without(tail, x) == after;
    assert before + [x] + after == before + tail;
    WithoutConcat(before, tail, x);
    WithoutAbsent(before, x);
  }

  /** Removal distributes over concatenation. */
  lemma {:induction false} WithoutConcat<T>(a: seq<T>, b: seq<T>, x: T)
    ensures Without(a + b, x) == Without(a, x) + Without(b, x)
  {
    if a == [] {
      assert a + b == b;
    } else {
      var ab, rest := a + b, a[1..];
      assert ab[0] == a[0] && ab[1..] == rest + b;
      WithoutConcat(rest, b, x);
      if a[0] != x {
        var wr, wb := Without(rest, x), Without(b, x);
        assert [a[0]] + (wr + wb) == ([a[0]] + wr) + wb;
      }
    }
  }

  lemma {:induction false} WithoutAbsent<T>(s: seq<T>, x: T)
    requires x !in s
    ensures Without(s, x) == s
  {
    if s != [] {
      WithoutAbsent(s[1..], x);
    }
  }

  /** The container holding the rows. */
  class MealGroup {
    var rows: seq<MealRow>

    /** A widget is mounted at most once. */
    ghost predicate Valid()
      reads this
    {
      Distinct(rows)
    }

    constructor ()
      ensures Valid() && rows == []
    {
      rows := [];
    }

    /** `mealGroup.appendChild(wrapper)`. */
    method Add(r: MealRow)
      requires Valid() && r !in rows
      modifies this
      ensures Valid() && rows == old(rows) + [r]
    {
      rows := rows + [r];
    }

    /** The row's remove button: `wrapper.remove()`. */
    method Remove(r: MealRow)
      requires Valid()
      modifies this
      ensures Valid() && rows == Without(old(rows), r)
    {
      WithoutDistinct(rows, r);
      rows := Without(rows, r);
    }

    /** `mealGroup.innerHTML = ""`. */
    method Clear()
      modifies this
      ensures Valid() && rows == []
    {
      rows := [];
    }
  }

  lemma {:induction false} WithoutDistinct<T>(s: seq<T>, x: T)
    requires Distinct(s)
    ensures Distinct(Without(s, x))
  {
    if s != [] {
      WithoutDistinct(s[1..], x);
      WithoutMembers(s[1..], x);
      if s[0] != x {
        var t := Without(s[1..], x);
        forall i, j | 0 <= i < j < |[s[0]] + t| ensures ([s[0]] + t)[i] != ([s[0]] + t)[j] {
          if i == 0 {
            assert t[j - 1] in t;
          }
        }
      }
    }
  }

  /** The first five results, in the order the server gave them
      (`results.slice(0, 5)`). */
  function FirstFive(results: seq<Suggestion>): (r: seq<Suggestion>)
    ensures |r| <= 5 && |r| <= |results| && r == results[..|r|]
    ensures |results| >= 5 ==> |r| == 5
    ensures |results| < 5 ==> r == results
  {
    if |results| <= 5 then results else results[..5]
  }

  /** The autocomplete `input` handler: the suggestion list is emptied; a
      trimmed query shorter than two characters stops there with no
      request; otherwise the query is sent, and the first five results of a
      usable reply are listed. `okRequired` says whether the page also
      discards a reply whose status is not ok; a missing reply or a reply
      without `results` leaves the list empty. */
  method Autocomplete(row: MealRow, reply: Option<SearchReply>, okRequired: bool) returns (query: Option<string>)
    modifies row
    ensures query.None? <==> |Trim(row.name)| < 2
    ensures query.Some? ==> query.value == Trim(row.name)
    ensures query.None? ==> row.suggestions == []
    ensures query.Some? ==> (row.suggestions ==
      if reply.Some? && reply.value.results.Some? && (reply.value.ok || !okRequired)
      then FirstFive(reply.value.results.value) else [])
    ensures row.name == old(row.name) && row.amount == old(row.amount)
    ensures row.unitSelect == old(row.unitSelect) && row.storedUnit == old(row.storedUnit)
  {
    var q := Trim(row.name);
    row.suggestions := [];
    if |q| < 2 {
      return None;
    }
    query := Some(q);
    if reply.Some? && reply.value.results.Some? && (reply.value.ok || !okRequired) {
      row.suggestions := FirstFive(reply.value.results.value);
    }
  }
}
