/** The trainee's calorie chart (js/entrydetails.js): today's entries, the
    calories of their meals summed per meal name in the order the names
    first appear, the total, and the character steps of reading the
    token's payload. */
module EntryDetails {
  import opened Dom

  const LoginRequired := "You must be logged in to see the chart."
  const NoMealsToday := "No meal data available for today."
  const LoadError := "Error loading data."

  /** One meal of an entry; `calories` is `Number(meal.calories)` when that
      is truthy, and absent (counted as 0) otherwise. */
  datatype Meal = Meal(name: JsValue, calories: Option<real>)

  /** One item of `GET /api/entries`; `date` is absent when it is not a
      string and `meals` when it is not an array. */
  datatype Entry = Entry(date: Option<string>, meals: Option<seq<Meal>>)

  /** The entries dated exactly today, in order. */
  function Today(es: seq<Entry>, today: string): (r: seq<Entry>)
    ensures forall e :: e in r <==> e in es && e.date == Some(today)
    ensures |r| <= |es|
  {
    if es == [] then []
    else (if es[0].date == Some(today) then [es[0]] else []) + Today(es[1..], today)
  }

  /** Each of today's entries occurs as often as in the reply; no other
      entry occurs. */
  lemma {:induction false} TodayCounts(es: seq<Entry>, today: string)
    ensures forall e :: multiset(Today(es, today))[e] == if e.date == Some(today) then multiset(es)[e] else 0
  {
    if es != [] {
      TodayCounts(es[1..], today);
      assert es == [es[0]] + es[1..];
    }
  }

  /** The filter keeps the reply's order: an entry read later comes later. */
  lemma {:induction false} TodayAppend(es: seq<Entry>, e: Entry, today: string)
    ensures Today(es + [e], today) == Today(es, today) + (if e.date == Some(today) then [e] else [])
  {
    if es != [] {
      TodayAppend(es[1..], e, today);
      assert (es + [e])[1..] == es[1..] + [e];
    }
  }

  /** The bucket a meal's calories go to: its name, or "Unknown". */
  function MealName(m: Meal): string {
    if Truthy(m.name) then Text(m.name) else "Unknown"
  }

  function Calories(m: Meal): real {
    if m.calories.Some? then m.calories.value else 0.0
  }

  /** The meals counted, entry by entry; an entry without a meal array
      adds none. */
  function AllMeals(es: seq<Entry>): seq<Meal> {
    if es == [] then []
    else AllMeals(es[..|es| - 1]) + (if es[|es| - 1].meals.Some? then es[|es| - 1].meals.value else [])
  }

  /** The meal names in the order they first appear. */
  function Names(ms: seq<Meal>): seq<string> {
    if ms == [] then []
    else
      var init := Names(ms[..|ms| - 1]);
      if MealName(ms[|ms| - 1]) in init then init else init + [MealName(ms[|ms| - 1])]
  }

  /** The calories of the meals with the given name. */
  function SumFor(ms: seq<Meal>, name: string): real {
    if ms == [] then 0.0
    else SumFor(ms[..|ms| - 1], name) + (if MealName(ms[|ms| - 1]) == name then Calories(ms[|ms| - 1]) else 0.0)
  }

  /** The calories of all the meals. */
  function Total(ms: seq<Meal>): real {
    if ms == [] then 0.0 else Total(ms[..|ms| - 1]) + Calories(ms[|ms| - 1])
  }

  /** The sums of the given names' buckets. */
  function SumOver(names: seq<string>, ms: seq<Meal>): real {
    if names == [] then 0.0 else SumOver(names[..|names| - 1], ms) + SumFor(ms, names[|names| - 1])
  }

  /** `values.reduce((sum, val) => sum + val, 0)`. */
  function Sum(values: seq<real>): real {
    if values == [] then 0.0 else Sum(values[..|values| - 1]) + values[|values| - 1]
  }

  predicate Distinct(names: seq<string>) {
    forall i, j :: 0 <= i < j < |names| ==> names[i] != names[j]
  }

  lemma LastOf<T>(s: seq<T>, x: T)
    ensures (s + [x])[..|s|] == s && (s + [x])[|s|] == x
  {
  }

  /** Each meal's name is a label, each label once, and no label without a
      meal of that name. */
  lemma {:induction false} NamesExactly(ms: seq<Meal>)
    ensures Distinct(Names(ms))
    ensures forall n :: n in Names(ms) <==> exists i :: 0 <= i < |ms| && MealName(ms[i]) == n
  {
    if ms != [] {
      var init := ms[..|ms| - 1];
      NamesExactly(init);
      forall n ensures n in Names(ms) <==> exists i :: 0 <= i < |ms| && MealName(ms[i]) == n {
        if n in Names(init) {
          var i :| 0 <= i < |init| && MealName(init[i]) == n;
          assert MealName(ms[i]) == n;
        }
        if exists i :: 0 <= i < |ms| && MealName(ms[i]) == n {
          var i :| 0 <= i < |ms| && MealName(ms[i]) == n;
          if i < |init| {
            assert MealName(init[i]) == n;
          }
        }
      }
    }
  }

  /** A name no meal carries has an empty bucket. */
  lemma {:induction false} SumForAbsent(ms: seq<Meal>, name: string)
    requires name !in Names(ms)
    ensures SumFor(ms, name) == 0.0
  {
    if ms != [] {
      var init := ms[..|ms| - 1];
      if MealName(ms[|ms| - 1]) in Names(init) {
        assert Names(ms) == Names(init);
      }
      SumForAbsent(init, name);
    }
  }

  /** One more meal adds its calories to the sum of a list of distinct
      names exactly when its name is among them. */
  lemma {:induction false} SumOverAppend(names: seq<string>, ms: seq<Meal>, m: Meal)
    requires Distinct(names)
    ensures SumOver(names, ms + [m]) == SumOver(names, ms) + (if MealName(m) in names then Calories(m) else 0.0)
  {
    LastOf(ms, m);
    if names != [] {
      var init := names[..|names| - 1];
      SumOverAppend(init, ms, m);
      assert names == init + [names[|names| - 1]];
    }
  }

  /** The buckets of the labels together hold every counted calorie. */
  lemma {:induction false} BucketsHoldTotal(ms: seq<Meal>)
    ensures SumOver(Names(ms), ms) == Total(ms)
  {
    if ms != [] {
      var init := ms[..|ms| - 1];
      var m := ms[|ms| - 1];
      BucketsHoldTotal(init);
      NamesExactly(init);
      SplitLast(ms);
      SumOverAppend(Names(init), init, m);
      if MealName(m) !in Names(init) {
        SumForAbsent(init, MealName(m));
        LastOf(Names(init), MealName(m));
      }
    }
  }

  /** The chart's values, one per label. */
  function Values(labels: seq<string>, sums: map<string, real>): (r: seq<real>)
    requires forall i :: 0 <= i < |labels| ==> labels[i] in sums
    ensures |r| == |labels|
  {
    if labels == [] then [] else Values(labels[..|labels| - 1], sums) + [sums[labels[|labels| - 1]]]
  }

  /** Reducing the values of the buckets gives the sum over their labels. */
  lemma {:induction false} SumOfValues(labels: seq<string>, sums: map<string, real>, ms: seq<Meal>)
    requires forall i :: 0 <= i < |labels| ==> labels[i] in sums && sums[labels[i]] == SumFor(ms, labels[i])
    ensures Sum(Values(labels, sums)) == SumOver(labels, ms)
  {
    if labels != [] {
      SumOfValues(labels[..|labels| - 1], sums, ms);
    }
  }

  /** One more meal adds a label only for a name not seen before. */
  lemma NamesAppend(ms: seq<Meal>, m: Meal)
    ensures Names(ms + [m]) == if MealName(m) in Names(ms) then Names(ms) else Names(ms) + [MealName(m)]
  {
    LastOf(ms, m);
  }

  lemma SumForAppend(ms: seq<Meal>, m: Meal, name: string)
    ensures SumFor(ms + [m], name) == SumFor(ms, name) + (if MealName(m) == name then Calories(m) else 0.0)
  {
    LastOf(ms, m);
  }

  /** The buckets hold the sums of the meals seen, keyed by their labels. */
  ghost predicate Buckets(done: seq<Meal>, labels: seq<string>, sums: map<string, real>) {
    labels == Names(done) &&
    (forall n :: n in sums <==> n in labels) &&
    (forall n :: n in sums ==> sums[n] == SumFor(done, n))
  }

  /** `caloriesByMeal[name] = (caloriesByMeal[name] || 0) + cal` for one
      meal (a bucket holding 0 reads as 0 either way). */
  method AddMeal(labels: seq<string>, sums: map<string, real>, m: Meal, ghost done: seq<Meal>)
    returns (labels': seq<string>, sums': map<string, real>)
    requires Buckets(done, labels, sums)
    ensures Buckets(done + [m], labels', sums')
  {
    var name := MealName(m);
    NamesAppend(done, m);
    if name !in sums {
      SumForAbsent(done, name);
    }
    var before := if name in sums then sums[name] else 0.0;
    sums' := sums[name := before + Calories(m)];
    labels' := if name in labels then labels else labels + [name];
    forall n | n in sums' ensures sums'[n] == SumFor(done + [m], n) {
      SumForAppend(done, m, n);
    }
  }

  /** The inner loop: the meals of one entry, one after another. */
  method AddMeals(labels: seq<string>, sums: map<string, real>, ms: seq<Meal>, ghost done: seq<Meal>)
    returns (labels': seq<string>, sums': map<string, real>)
    requires Buckets(done, labels, sums)
    ensures Buckets(done + ms, labels', sums')
  {
    labels', sums' := labels, sums;
    var j := 0;
    assert done + ms[..0] == done;
    while j < |ms|
      invariant 0 <= j <= |ms|
      invariant Buckets(done + ms[..j], labels', sums')
    {
      labels', sums' := AddMeal(labels', sums', ms[j], done + ms[..j]);
      assert ms[..j + 1] == ms[..j] + [ms[j]];
      assert done + ms[..j] + [ms[j]] == done + ms[..j + 1];
      j := j + 1;
    }
    assert ms[..j] == ms;
  }

  /** The nested loops filling `caloriesByMeal`: each meal of each entry
      with a meal array adds its calories to the bucket of its name; a
      name gets its key the first time it is seen. */
  method Aggregate(es: seq<Entry>) returns (labels: seq<string>, sums: map<string, real>)
    ensures labels == Names(AllMeals(es))
    ensures forall n :: n in sums <==> n in labels
    ensures forall n :: n in sums ==> sums[n] == SumFor(AllMeals(es), n)
  {
    labels, sums := [], map[];
    var i := 0;
    while i < |es|
      invariant 0 <= i <= |es|
      invariant Buckets(AllMeals(es[..i]), labels, sums)
    {
      assert es[..i + 1][..i] == es[..i] && es[..i + 1][i] == es[i];
      ghost var before := AllMeals(es[..i]);
      assert AllMeals(es[..i + 1]) == before + (if es[i].meals.Some? then es[i].meals.value else []);
      if es[i].meals.Some? {
        labels, sums := AddMeals(labels, sums, es[i].meals.value, before);
      } else {
        assert before + [] == before;
      }
      i := i + 1;
    }
    assert es[..i] == es;
  }

  /** What the page ends up showing: a message, or the pie of the buckets
      with the total. */
  datatype ChartView = ChartMessage(text: string) | Pie(labels: seq<string>, values: seq<real>, total: real)

  /** The page load: without a token it asks for a login; a failed request
      (or a token whose payload cannot be read) shows the load error; with
      no entry dated today it says so; otherwise the pie has one slice per
      meal name, in first-seen order, holding that name's calories, and the
      total is all of today's meal calories. `allEntries` is the reply,
      absent when reading it failed. */
  method LoadChart(token: Option<string>, allEntries: Option<seq<Entry>>, today: string) returns (view: ChartView)
    ensures token.None? || token.value == "" ==> view == ChartMessage(LoginRequired)
    ensures token.Some? && token.value != "" && allEntries.None? ==> view == ChartMessage(LoadError)
    ensures token.Some? && token.value != "" && allEntries.Some? && Today(allEntries.value, today) == [] ==>
      view == ChartMessage(NoMealsToday)
    ensures view.Pie? ==> (Today(allEntries.value, today) != [] &&
      view.labels == Names(AllMeals(Today(allEntries.value, today))) &&
      |view.values| == |view.labels| &&
      (forall k :: 0 <= k < |view.labels| ==> view.values[k] == SumFor(AllMeals(Today(allEntries.value, today)), view.labels[k])) &&
      view.total == Total(AllMeals(Today(allEntries.value, today))))
    ensures token.Some? && token.value != "" && allEntries.Some? && Today(allEntries.value, today) != [] ==> view.Pie?
  {
    if token.None? || token.value == "" {
      return ChartMessage(LoginRequired);
    }
    if allEntries.None? {
      return ChartMessage(LoadError);
    }
    var todays := Today(allEntries.value, today);
    if |todays| == 0 {
      return ChartMessage(NoMealsToday);
    }
    var labels, sums := Aggregate(todays);
    var values := Values(labels, sums);
    ghost var ms := AllMeals(todays);
    SumOfValues(labels, sums, ms);
    BucketsHoldTotal(ms);
    forall k | 0 <= k < |labels| ensures values[k] == SumFor(ms, labels[k]) {
      ValuesAt(labels, sums, k);
    }
    view := Pie(labels, values, Sum(values));
  }

  lemma {:induction false} ValuesAt(labels: seq<string>, sums: map<string, real>, k: nat)
    requires forall i :: 0 <= i < |labels| ==> labels[i] in sums
    requires k < |labels|
    ensures Values(labels, sums)[k] == sums[labels[k]]
  {
    if k < |labels| - 1 {
      ValuesAt(labels[..|labels| - 1], sums, k);
    }
  }

  // ---------------------------------------------------------------------
  // Reading the token's payload
  // ---------------------------------------------------------------------

  /** `token.split('.')[1]`: the second dot-separated piece, absent when
      the token has no dot. */
  function PayloadSegment(token: string): (r: Option<string>)
    ensures r.Some? <==> |Split(token, '.')| >= 2
    ensures r.Some? ==> '.' !in r.value
  {
    var parts := Split(token, '.');
    if |parts| >= 2 then SplitPieceFree(token, '.', 1); Some(parts[1]) else None
  }

  lemma {:induction false} SplitPieceFree(s: string, sep: char, k: nat)
    requires k < |Split(s, sep)|
    ensures sep !in Split(s, sep)[k]
  {
    if s != [] {
      var rest := Split(s[1..], sep);
      if s[0] == sep {
        if k > 0 {
          SplitPieceFree(s[1..], sep, k - 1);
        }
      } else if k == 0 {
        SplitPieceFree(s[1..], sep, 0);
      } else {
        SplitPieceFree(s[1..], sep, k);
      }
    }
  }

  /** The header, payload and signature joined by dots give the payload
      back. */
  lemma PayloadOfToken(header: string, payload: string, signature: string)
    requires '.' !in header && '.' !in payload && '.' !in signature
    ensures PayloadSegment(Join([header, payload, signature], ".")) == Some(payload)
  {
    SplitJoin([header, payload, signature], '.');
  }

  /** `s.replace(/from/g, to)` for single characters. */
  function ReplaceAll(s: string, from: char, to: char): (r: string)
    ensures |r| == |s|
    ensures forall i :: 0 <= i < |s| ==> r[i] == (if s[i] == from then to else s[i])
  {
    if s == [] then [] else [if s[0] == from then to else s[0]] + ReplaceAll(s[1..], from, to)
  }

  /** The base64url alphabet turned into the base64 one. */
  function UrlToBase64(s: string): string {
    ReplaceAll(ReplaceAll(s, '-', '+'), '_', '/')
  }

  /** The reverse change, from base64 to base64url. */
  function Base64ToUrl(s: string): string {
    ReplaceAll(ReplaceAll(s, '+', '-'), '/', '_')
  }

  /** The change keeps the length, leaves neither '-' nor '_', and turns
      only those two characters; so the reverse change undoes it on any
      base64url text (which holds no '+' or '/'). */
  lemma UrlToBase64Changes(s: string)
    ensures |UrlToBase64(s)| == |s|
    ensures '-' !in UrlToBase64(s) && '_' !in UrlToBase64(s)
    ensures forall i :: 0 <= i < |s| && s[i] != '-' && s[i] != '_' ==> UrlToBase64(s)[i] == s[i]
    ensures '+' !in s && '/' !in s ==> Base64ToUrl(UrlToBase64(s)) == s
  {
    var r := UrlToBase64(s);
    if '+' !in s && '/' !in s {
      var back := Base64ToUrl(r);
      assert forall i :: 0 <= i < |s| ==> back[i] == s[i];
    }
  }

  /** A lowercase hexadecimal digit. */
  function HexDigit(d: nat): char
    requires d < 16
  {
    if d < 10 then '0' + d as char else 'a' + (d - 10) as char
  }

  /** `n.toString(16)`: lowercase, without leading zeros. */
  function Hex(n: nat): (r: string)
    ensures |r| >= 1
  {
    if n < 16 then [HexDigit(n)] else Hex(n / 16) + [HexDigit(n % 16)]
  }

  /** `'%' + ('00' + n.toString(16)).slice(-2)`. */
  function PercentOf(n: nat): string {
    var padded := "00" + Hex(n);
    ['%'] + padded[|padded| - 2..]
  }

  lemma DivBy16(n: nat, q: nat, r: nat)
    requires n == 16 * q + r && r < 16
    ensures n / 16 == q && n % 16 == r
  {
  }

  /** The second hex digit from the right of `n` is that of its low byte. */
  lemma SecondDigit(n: nat)
    ensures n / 16 % 16 == n % 256 / 16
  {
    var a, b := n / 256, n % 256;
    assert n == 256 * a + b;
    DivBy16(b, b / 16, b % 16);
    DivBy16(n, 16 * a + b / 16, b % 16);
    DivBy16(16 * a + b / 16, a, b / 16);
  }

  /** The last character of `n.toString(16)` is its last digit. */
  lemma HexLast(n: nat)
    ensures Hex(n)[|Hex(n)| - 1] == HexDigit(n % 16)
  {
  }

  /** The escape is always three characters: '%' and the two lowercase
      hex digits of the code's low byte. */
  lemma PercentOfDigits(n: nat)
    ensures PercentOf(n) == ['%', HexDigit(n % 256 / 16), HexDigit(n % 16)]
  {
    var padded := "00" + Hex(n);
    if n < 16 {
      assert padded == ['0', '0', HexDigit(n)];
      assert n % 256 / 16 == 0;
    } else {
      var h := Hex(n / 16);
      assert padded == "00" + h + [HexDigit(n % 16)];
      HexLast(n / 16);
      SecondDigit(n);
      assert padded[|padded| - 2..] == [h[|h| - 1], HexDigit(n % 16)];
    }
  }

  /** The mapping of `atob`'s output to percent escapes, joined. */
  function PercentEncode(s: string): (r: string)
    ensures |r| == 3 * |s|
  {
    if s == [] then [] else PercentOf(s[0] as nat) + PercentEncode(s[1..])
  }

  /** The value of a lowercase hex digit. */
  function DigitValue(c: char): nat {
    if '0' <= c <= '9' then (c - '0') as nat
    else if 'a' <= c <= 'f' then (c - 'a') as nat + 10
    else 0
  }

  /** Reading escapes back, three characters at a time. */
  function PercentDecode(t: string): string
    decreases |t|
  {
    if |t| < 3 then []
    else [(16 * DigitValue(t[1]) + DigitValue(t[2])) as char] + PercentDecode(t[3..])
  }

  /** Characters of codes below 256 — all that `atob` produces — come back
      unchanged from their escapes. */
  lemma DigitValueOf(d: nat)
    requires d < 16
    ensures DigitValue(HexDigit(d)) == d
  {
  }

  /** One character of code below 256 comes back from its escape. */
  lemma PercentOfBack(c: char)
    requires c as int < 256
    ensures var t := PercentOf(c as nat); (16 * DigitValue(t[1]) + DigitValue(t[2])) as char == c
  {
    var n := c as nat;
    var q, r := n / 16, n % 16;
    assert n % 256 == n;
    PercentOfDigits(n);
    var t := PercentOf(n);
    assert t[1] == HexDigit(q) && t[2] == HexDigit(r);
    DigitValueOf(q);
    DigitValueOf(r);
    assert 16 * q + r == n;
  }

  /** Characters of codes below 256 — all that `atob` produces — come back
      unchanged from their escapes. */
  lemma {:induction false} PercentRoundTrip(s: string)
    requires forall i :: 0 <= i < |s| ==> s[i] as int < 256
    ensures PercentDecode(PercentEncode(s)) == s
  {
    if s != [] {
      PercentOfDigits(s[0] as nat);
      PercentOfBack(s[0]);
      PercentRoundTrip(s[1..]);
      var t := PercentEncode(s);
      assert t == PercentOf(s[0] as nat) + PercentEncode(s[1..]);
      assert t[3..] == PercentEncode(s[1..]);
    }
  }
}
