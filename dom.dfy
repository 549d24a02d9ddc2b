/** The browser primitives the form handlers rely on, stated as values:
    JavaScript string helpers, JavaScript truthiness of the values the
    handlers test, and the HTML `<select>` element (its option list, which
    option is selected, and what its `value` reads). */
module Dom {

  datatype Option<T> = None | Some(value: T)

  // ---------------------------------------------------------------------
  // Strings
  // ---------------------------------------------------------------------

  /** The white space `String.prototype.trim` removes (the ASCII and
      Latin-1 part of it, plus the byte-order mark). */
  predicate IsSpace(c: char) {
    c == ' ' || c == '\t' || c == '\n' || c == '\r' || c == '\U{000B}' ||
    c == '\U{000C}' || c == '\U{00A0}' || c == '\U{FEFF}'
  }

  /** `s` without its leading white space. */
  function TrimStart(s: string): (r: string)
    ensures |r| <= |s|
    ensures r == [] || !IsSpace(r[0])
  {
    if s != [] && IsSpace(s[0]) then TrimStart(s[1..]) else s
  }

  /** `s` without its trailing white space. */
  function TrimEnd(s: string): (r: string)
    ensures |r| <= |s|
    ensures r == [] || (r[0] == s[0] && !IsSpace(r[|r| - 1]))
  {
    if s != [] && IsSpace(s[|s| - 1]) then TrimEnd(s[..|s| - 1]) else s
  }

  /** `s.trim()`: `s` without the white space at either end. */
  function Trim(s: string): (r: string)
    ensures |r| <= |s|
    ensures r == [] || (!IsSpace(r[0]) && !IsSpace(r[|r| - 1]))
  {
    TrimEnd(TrimStart(s))
  }

  /** The number of white-space characters `s` starts with. */
  function Leading(s: string): (n: nat)
    ensures n <= |s|
  {
    if s != [] && IsSpace(s[0]) then 1 + Leading(s[1..]) else 0
  }

  /** The number of white-space characters `s` ends with. */
  function Trailing(s: string): (n: nat)
    ensures n <= |s|
  {
    if s != [] && IsSpace(s[|s| - 1]) then 1 + Trailing(s[..|s| - 1]) else 0
  }

  lemma {:induction false} TrimStartDrops(s: string)
    ensures TrimStart(s) == s[Leading(s)..]
    ensures forall i :: 0 <= i < Leading(s) ==> IsSpace(s[i])
  {
    if s != [] && IsSpace(s[0]) {
      TrimStartDrops(s[1..]);
      assert s[1..][Leading(s[1..])..] == s[Leading(s)..];
      forall i | 1 <= i < Leading(s) ensures IsSpace(s[i]) {
        assert s[i] == s[1..][i - 1];
      }
    }
  }

  lemma {:induction false} TrimEndDrops(s: string)
    ensures TrimEnd(s) == s[..|s| - Trailing(s)]
    ensures forall i :: |s| - Trailing(s) <= i < |s| ==> IsSpace(s[i])
  {
    if s != [] && IsSpace(s[|s| - 1]) {
      var init := s[..|s| - 1];
      TrimEndDrops(init);
      assert init[..|init| - Trailing(init)] == s[..|s| - Trailing(s)];
      forall i | |s| - Trailing(s) <= i < |s| - 1 ensures IsSpace(s[i]) {
        assert s[i] == init[i];
      }
    }
  }

  /** `s.trim()` is the part of `s` between its leading and its trailing
      white space: with the ends `Trim` guarantees to be no white space,
      this pins the result down. */
  lemma TrimIsSlice(s: string)
    ensures exists a, b ::
              0 <= a <= b <= |s| && Trim(s) == s[a..b] &&
              (forall i :: 0 <= i < a ==> IsSpace(s[i])) && (forall i :: b <= i < |s| ==> IsSpace(s[i]))
  {
    var a := Leading(s);
    var t := s[a..];
    TrimStartDrops(s);
    TrimEndDrops(t);
    var b := a + |t| - Trailing(t);
    assert t[..|t| - Trailing(t)] == s[a..b];
    forall i | b <= i < |s| ensures IsSpace(s[i]) {
      assert s[i] == t[i - a];
    }
  }

  lemma {:induction false} TrimStartEmpty(s: string)
    ensures TrimStart(s) == [] <==> forall i :: 0 <= i < |s| ==> IsSpace(s[i])
  {
    if s != [] && IsSpace(s[0]) {
      TrimStartEmpty(s[1..]);
      assert forall i :: 1 <= i < |s| ==> s[i] == s[1..][i - 1];
    }
  }

  /** A trimmed text is empty exactly when the text is all white space, so
      a "required" check on a trimmed field rejects blank input. */
  lemma TrimEmpty(s: string)
    ensures Trim(s) == [] <==> forall i :: 0 <= i < |s| ==> IsSpace(s[i])
  {
    TrimStartEmpty(s);
    if TrimStart(s) != [] {
      TrimEndKeepsFirst(TrimStart(s));
    }
  }

  lemma {:induction false} TrimEndKeepsFirst(t: string)
    requires t != [] && !IsSpace(t[0])
    ensures TrimEnd(t) != []
  {
    if IsSpace(t[|t| - 1]) {
      TrimEndKeepsFirst(t[..|t| - 1]);
    }
  }

  /** `s.split(sep)` for a one-character separator: the pieces between the
      separators, in order (always one more piece than separators). */
  function Split(s: string, sep: char): (parts: seq<string>)
    ensures |parts| >= 1
  {
    if s == [] then [[]]
    else
      var rest := Split(s[1..], sep);
      if s[0] == sep then [[]] + rest else [[s[0]] + rest[0]] + rest[1..]
  }

  /** `parts.join(sep)`. */
  function Join(parts: seq<string>, sep: string): string {
    if parts == [] then []
    else if |parts| == 1 then parts[0]
    else parts[0] + sep + Join(parts[1..], sep)
  }

  lemma {:induction false} SplitNoSeparator(a: string, sep: char)
    requires sep !in a
    ensures Split(a, sep) == [a]
  {
    if a != [] {
      SplitNoSeparator(a[1..], sep);
      assert [a[0]] + a[1..] == a;
    }
  }

  lemma {:induction false} SplitAfterPiece(a: string, sep: char, b: string)
    requires sep !in a
    ensures Split(a + [sep] + b, sep) == [a] + Split(b, sep)
  {
    if a == [] {
      assert a + [sep] + b == [sep] + b;
      assert ([sep] + b)[1..] == b;
    } else {
      SplitAfterPiece(a[1..], sep, b);
      assert (a + [sep] + b)[1..] == a[1..] + [sep] + b;
      assert [a[0]] + a[1..] == a;
    }
  }

  /** Splitting a joined list gives the list back when no piece holds the
      separator. */
  lemma {:induction false} SplitJoin(parts: seq<string>, sep: char)
    requires |parts| >= 1
    requires forall i :: 0 <= i < |parts| ==> sep !in parts[i]
    ensures Split(Join(parts, [sep]), sep) == parts
  {
    if |parts| == 1 {
      SplitNoSeparator(parts[0], sep);
    } else {
      SplitJoin(parts[1..], sep);
      SplitAfterPiece(parts[0], sep, Join(parts[1..], [sep]));
      assert [parts[0]] + parts[1..] == parts;
    }
  }

  /** `toLowerCase` on the ASCII letters. */
  function LowerChar(c: char): char {
    if 'A' <= c <= 'Z' then (c as int - 'A' as int + 'a' as int) as char else c
  }

  /** `toUpperCase` on the ASCII letters. */
  function UpperChar(c: char): char {
    if 'a' <= c <= 'z' then (c as int - 'a' as int + 'A' as int) as char else c
  }

  function Lower(s: string): (r: string)
    ensures |r| == |s| && forall i :: 0 <= i < |s| ==> r[i] == LowerChar(s[i])
  {
    if s == [] then [] else [LowerChar(s[0])] + Lower(s[1..])
  }

  /** `s.charAt(0).toUpperCase() + s.slice(1)`, the label the role and
      gender options show. */
  function Capitalize(s: string): (r: string)
    ensures |r| == |s|
    ensures s != [] ==> r[0] == UpperChar(s[0]) && r[1..] == s[1..]
    ensures s == [] ==> r == []
  {
    if s == [] then [] else [UpperChar(s[0])] + s[1..]
  }

  /** A non-empty list is its front followed by its last item. */
  lemma SplitLast<T>(s: seq<T>)
    requires s != []
    ensures s == s[..|s| - 1] + [s[|s| - 1]]
  {
  }

  /** The set of the items a list holds (the controls a list of marked
      fields leaves marked). */
  function SetOf<T(!new)>(s: seq<T>): (r: set<T>)
    ensures forall x :: x in r <==> x in s
  {
    set i | 0 <= i < |s| :: s[i]
  }

  /** The list of failed checks after one more check: `x` is added when
      the check failed. */
  function AddIf<T>(s: seq<T>, failed: bool, x: T): seq<T> {
    if failed then s + [x] else s
  }

  /** `s.includes(part)`. */
  predicate Contains(s: string, part: string) {
    exists i | 0 <= i <= |s| :: OccursAt(s, part, i)
  }

  predicate OccursAt(s: string, part: string, i: int) {
    0 <= i <= |s| - |part| && s[i..i + |part|] == part
  }

  /** `JSON`-style optional text and `x || fallback`: a missing or empty
      string is falsy. */
  function OrElse(x: Option<string>, fallback: string): (r: string)
    ensures (x.Some? && x.value != []) ==> r == x.value
    ensures (x.None? || x.value == []) ==> r == fallback
  {
    if x.Some? && x.value != [] then x.value else fallback
  }

  // ---------------------------------------------------------------------
  // Numbers
  // ---------------------------------------------------------------------

  /** What `parseFloat` gives back: a number or NaN. */
  datatype Amount = NaN | Num(v: real)

  /** JavaScript truthiness of a number: 0 and NaN are falsy. */
  predicate AmountTruthy(a: Amount) {
    a.Num? && a.v != 0.0
  }

  /** A member of a parsed JSON reply: missing, `null`, a string, or a
      number together with the text `String(n)` gives for it. */
  datatype JsValue = Undefined | Null | JsString(s: string) | JsNumber(v: real, shown: string)

  /** JavaScript truthiness: `undefined`, `null`, "" and 0 are falsy. */
  predicate Truthy(x: JsValue) {
    match x
    case Undefined => false
    case Null => false
    case JsString(s) => s != ""
    case JsNumber(v, _) => v != 0.0
  }

  /** `String(x)`, which is also what `localStorage.setItem` stores and
      what a template literal shows. */
  function Text(x: JsValue): string {
    match x
    case Undefined => "undefined"
    case Null => "null"
    case JsString(s) => s
    case JsNumber(_, shown) => shown
  }

  /** What an element shows after `el.textContent = x`: `null` and
      `undefined` become "". */
  function ContentText(x: JsValue): (r: string)
    ensures x.Undefined? || x.Null? ==> r == ""
    ensures !x.Undefined? && !x.Null? ==> r == Text(x)
  {
    if x.Undefined? || x.Null? then "" else Text(x)
  }

  /** What an input's `value` reads after `input.value = x` (the setter
      turns `null` into ""). */
  function AssignedValue(x: JsValue): (r: string)
    ensures x.Null? ==> r == ""
    ensures !x.Null? ==> r == Text(x)
  {
    if x.Null? then "" else Text(x)
  }

  // ---------------------------------------------------------------------
  // The <select> element
  // ---------------------------------------------------------------------

  /** An `<option>` element: its value, its text and whether it is disabled. */
  datatype OptionEl = OptionEl(value: string, text: string, disabled: bool)

  /** A single-choice `<select>`: its options in document order and the
      index of the selected one, or a negative number when none is. */
  datatype Select = Select(options: seq<OptionEl>, selected: int) {
    /** The `value` getter: the selected option's value, or "" when no
        option is selected. */
    function Value(): string {
      if 0 <= selected < |options| then options[selected].value else ""
    }

    predicate HasSelection() {
      0 <= selected < |options|
    }
  }

  function Labelled(values: seq<string>, caption: string -> string): (r: seq<OptionEl>)
    ensures |r| == |values|
    ensures forall i :: 0 <= i < |values| ==> r[i] == OptionEl(values[i], caption(values[i]), false)
  {
    if values == [] then [] else [OptionEl(values[0], caption(values[0]), false)] + Labelled(values[1..], caption)
  }

  /** The index of the first option that is not disabled, or -1. */
  function FirstEnabled(opts: seq<OptionEl>): (k: int)
    ensures -1 <= k < |opts|
    ensures k >= 0 ==> !opts[k].disabled
    ensures forall i :: 0 <= i < |opts| && (k < 0 || i < k) ==> opts[i].disabled
  {
    if opts == [] then -1
    else if !opts[0].disabled then 0
    else
      var k := FirstEnabled(opts[1..]);
      if k < 0 then -1 else k + 1
  }

  /** The index of the first option whose value is `v`, or -1. */
  function FirstWithValue(opts: seq<OptionEl>, v: string): (k: int)
    ensures -1 <= k < |opts|
    ensures k >= 0 ==> opts[k].value == v
    ensures forall i :: 0 <= i < |opts| && (k < 0 || i < k) ==> opts[i].value != v
  {
    if opts == [] then -1
    else if opts[0].value == v then 0
    else
      var k := FirstWithValue(opts[1..], v);
      if k < 0 then -1 else k + 1
  }

  /** `select.innerHTML = "<option …>…</option>"`: a single option,
      selected when it carries the `selected` attribute or, failing that,
      when it is not disabled. */
  function Parsed(o: OptionEl, selectedAttr: bool): (s: Select)
    ensures s.options == [o]
    ensures s.Value() == (if selectedAttr || !o.disabled then o.value else "")
  {
    Select([o], if selectedAttr then 0 else FirstEnabled([o]))
  }

  /** `select.appendChild(option)` followed by the HTML selectedness
      setting algorithm: when no option is selected, the first option that
      is not disabled becomes selected. */
  function Append(s: Select, o: OptionEl): (r: Select)
    ensures r.options == s.options + [o]
  {
    Select(s.options + [o], if s.HasSelection() then s.selected else FirstEnabled(s.options + [o]))
  }

  /** Appending several options one after another (the specification of
      `AppendOptions`). */
  function AppendAll(s: Select, opts: seq<OptionEl>): Select
    decreases |opts|
  {
    if opts == [] then s else AppendAll(Append(s, opts[0]), opts[1..])
  }

  lemma FirstEnabledPrefix(x: seq<OptionEl>, y: seq<OptionEl>)
    requires FirstEnabled(x) >= 0
    ensures FirstEnabled(x + y) == FirstEnabled(x)
  {
    var k, k' := FirstEnabled(x), FirstEnabled(x + y);
    assert (x + y)[k] == x[k];
  }

  /** Appending options keeps the existing ones first and the new ones after
      them, in order; a selection that existed stays; otherwise the first
      option that is not disabled ends up selected. */
  lemma {:induction false} AppendAllShape(s: Select, opts: seq<OptionEl>)
    ensures AppendAll(s, opts).options == s.options + opts
    ensures s.HasSelection() ==> AppendAll(s, opts).selected == s.selected
    ensures !s.HasSelection() && opts != [] ==> AppendAll(s, opts).selected == FirstEnabled(s.options + opts)
    decreases |opts|
  {
    if opts != [] {
      var s1 := Append(s, opts[0]);
      AppendAllShape(s1, opts[1..]);
      assert s.options + [opts[0]] + opts[1..] == s.options + opts;
      if !s.HasSelection() {
        if s1.HasSelection() {
          FirstEnabledPrefix(s.options + [opts[0]], opts[1..]);
        }
      }
    }
  }

  /** The `forEach` loop that appends one `<option>` per item. */
  method AppendOptions(s: Select, opts: seq<OptionEl>) returns (r: Select)
    ensures r == AppendAll(s, opts)
  {
    r := s;
    var i := 0;
    while i < |opts|
      invariant 0 <= i <= |opts|
      invariant AppendAll(r, opts[i..]) == AppendAll(s, opts)
    {
      assert opts[i..] == [opts[i]] + opts[i + 1..];
      r := Append(r, opts[i]);
      i := i + 1;
    }
  }

  /** The `value` setter: the first option with that value becomes the only
      selected one; when there is none, no option stays selected. */
  function SetValue(s: Select, v: string): (r: Select)
    ensures r.options == s.options
    ensures (exists i :: 0 <= i < |s.options| && s.options[i].value == v) ==> r.Value() == v
    ensures (forall i :: 0 <= i < |s.options| ==> s.options[i].value != v) ==> r.Value() == ""
  {
    Select(s.options, FirstWithValue(s.options, v))
  }

  // ---------------------------------------------------------------------
  // Error texts shown next to a field
  // ---------------------------------------------------------------------

  /** An error element: hidden (`display: none`, empty text) or shown with a text. */
  datatype Message = Hidden | Shown(text: string)

  /** An `.invalid-feedback` element, by the element that contains it. */
  datatype InvalidFeedback<P> = InvalidFeedback(parent: P, text: string, shown: bool)

  /** Whether `parent.querySelector(".invalid-feedback")` finds something. */
  predicate HasFeedback<P(==)>(fs: seq<InvalidFeedback<P>>, parent: P) {
    exists i :: 0 <= i < |fs| && fs[i].parent == parent
  }

  /** How many `.invalid-feedback` elements the parent holds. */
  function FeedbackCount<P(==)>(fs: seq<InvalidFeedback<P>>, parent: P): (n: nat)
    ensures n <= |fs|
    ensures n == 0 <==> !HasFeedback(fs, parent)
  {
    if fs == [] then 0
    else
      var rest := FeedbackCount(fs[1..], parent);
      assert HasFeedback(fs, parent) <==> fs[0].parent == parent || HasFeedback(fs[1..], parent) by {
        if HasFeedback(fs[1..], parent) {
          var i :| 0 <= i < |fs| - 1 && fs[1..][i].parent == parent;
          assert fs[i + 1].parent == parent;
        }
        if HasFeedback(fs, parent) && fs[0].parent != parent {
          var i :| 0 <= i < |fs| && fs[i].parent == parent;
          assert fs[1..][i - 1].parent == parent;
        }
      }
      (if fs[0].parent == parent then 1 else 0) + rest
  }

  /** Adding an element under one parent adds one to that parent's count
      and to no other. */
  lemma {:induction false} FeedbackCountAppend<P>(fs: seq<InvalidFeedback<P>>, f: InvalidFeedback<P>, parent: P)
    ensures FeedbackCount(fs + [f], parent) == FeedbackCount(fs, parent) + (if f.parent == parent then 1 else 0)
  {
    if fs != [] {
      assert (fs + [f])[1..] == fs[1..] + [f];
      FeedbackCountAppend(fs[1..], f, parent);
    }
  }

  /** Rewriting an element in place (its text or its visibility) changes
      no parent's count. */
  lemma {:induction false} FeedbackCountUpdate<P>(fs: seq<InvalidFeedback<P>>, k: nat, f: InvalidFeedback<P>, parent: P)
    requires k < |fs| && f.parent == fs[k].parent
    ensures FeedbackCount(fs[k := f], parent) == FeedbackCount(fs, parent)
  {
    if k > 0 {
      assert fs[k := f][1..] == fs[1..][k - 1 := f];
      FeedbackCountUpdate(fs[1..], k - 1, f, parent);
    }
  }

  /** `parent.querySelector(".invalid-feedback")`: the index of the first
      error element under `parent`, or -1. */
  function FirstFeedback<P(==)>(fs: seq<InvalidFeedback<P>>, parent: P): (k: int)
    ensures -1 <= k < |fs|
    ensures k >= 0 ==> fs[k].parent == parent
    ensures forall i :: 0 <= i < |fs| && (k < 0 || i < k) ==> fs[i].parent != parent
    ensures k < 0 <==> !HasFeedback(fs, parent)
  {
    if fs == [] then -1
    else if fs[0].parent == parent then 0
    else
      var k := FirstFeedback(fs[1..], parent);
      if k < 0 then -1 else k + 1
  }
}
