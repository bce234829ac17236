/** The answer inputs of client/src/components/quiz/QuestionRenderer.jsx: the
    select-all checkboxes, the true/false radio group, and the matching and
    ordering answer maps. Each input builds a new answer from the current one. */
module QuestionRenderer {
  import opened Common
  import opened Text

  /** A select-all box shows as checked when the current answer includes its
      option (`currentAnswer?.includes(option) || false`). */
  predicate Checked(current: Option<seq<string>>, option: string) {
    current.Some? && option in current.value
  }

  /** A click on the box of `option`: checking appends it to the answer,
      unchecking removes every occurrence and keeps the rest in order. */
  function Toggle(current: Option<seq<string>>, option: string, checked: bool): (r: seq<string>)
    ensures checked ==> option in r && |r| == |OrEmpty(current)| + 1
    ensures checked ==> r[..|r| - 1] == OrEmpty(current)
    ensures !checked ==> option !in r
    ensures !checked ==> forall x :: x != option ==> (x in r <==> x in OrEmpty(current))
  {
    var xs := OrEmpty(current);
    if checked then xs + [option] else Without(xs, option)
  }

  /** `currentAnswer || []` on a list answer. */
  function OrEmpty(current: Option<seq<string>>): seq<string> {
    if current.Some? then current.value else []
  }

  /** A box's state after a click on it is what the click asked for. */
  lemma ToggleShows(current: Option<seq<string>>, option: string, checked: bool)
    ensures Checked(Some(Toggle(current, option, checked)), option) == checked
  {
  }

  /** Checking an option that was not in the answer, then unchecking it,
      gives back the answer as it was. */
  lemma CheckThenUncheck(xs: seq<string>, option: string)
    requires option !in xs
    ensures Toggle(Some(Toggle(Some(xs), option, true)), option, false) == xs
  {
    WithoutAppend(xs, [option], option);
    WithoutAbsent(xs, option);
    assert Without([option], option) == [];
  }

  /** Unchecking one option keeps the other items in their order. */
  lemma UncheckKeepsOrder(a: seq<string>, b: seq<string>, option: string)
    requires option !in a && option !in b
    ensures Toggle(Some(a + [option] + b), option, false) == a + b
  {
    var ao := a + [option];
    WithoutAppend(ao, b, option);
    WithoutAppend(a, [option], option);
    WithoutAbsent(a, option);
    WithoutAbsent(b, option);
    assert Without([option], option) == [];
    assert Without(ao, option) == a;
    assert Without(ao + b, option) == a + b;
  }

  /** The true/false radio group stores the boolean `value === 'true'`. */
  function TrueFalseAnswer(radio: string): (r: Value)
    ensures r.Bool? && (r.b <==> radio == "true")
  {
    Bool(radio == "true")
  }

  /** A radio is shown selected when the group's value converts to its value. */
  predicate Selected(group: Value, radio: string) {
    ToJsString(group) == radio
  }

  /** The group value as written: `currentAnswer || ''`. */
  function GroupValueAsWritten(current: Value): (r: Value)
    ensures Truthy(current) ==> r == current
    ensures !Truthy(current) ==> r == Str("")
  {
    if Truthy(current) then current else Str("")
  }

  /** After choosing "False" the stored answer is `false`, which `|| ''` turns
      into the empty string: neither radio shows as selected. */
  lemma FalseChoiceNotShown()
    ensures TrueFalseAnswer("false") == Bool(false)
    ensures !Selected(GroupValueAsWritten(TrueFalseAnswer("false")), "false")
    ensures !Selected(GroupValueAsWritten(TrueFalseAnswer("false")), "true")
  {
  }

  /** The group value with only a missing answer replaced (`currentAnswer ?? ''`). */
  function GroupValue(current: Value): (r: Value)
    ensures current.Undefined? || current.Null? ==> r == Str("")
    ensures !(current.Undefined? || current.Null?) ==> r == current
  {
    if current.Undefined? || current.Null? then Str("") else current
  }

  /** With `??`, the radio chosen is the radio shown, and only that one. */
  lemma ChoiceShown(choice: string, other: string)
    requires choice in {"true", "false"} && other in {"true", "false"}
    ensures Selected(GroupValue(TrueFalseAnswer(choice)), other) <==> other == choice
  {
  }

  /** With nothing answered, no radio is selected either way. */
  lemma NothingChosenNothingShown(radio: string)
    requires radio in {"true", "false"}
    ensures !Selected(GroupValue(Undefined), radio) && !Selected(GroupValueAsWritten(Undefined), radio)
  {
  }

  /** A matching answer: right-hand item to the chosen left-hand item. */
  function SetMatch(current: Option<map<string, string>>, item: string, choice: string): (r: map<string, string>)
    ensures item in r && r[item] == choice
    ensures r.Keys == (if current.Some? then current.value.Keys else {}) + {item}
    ensures current.Some? ==> forall k :: k in current.value && k != item ==> r[k] == current.value[k]
  {
    var m := if current.Some? then current.value else map[];
    m[item := choice]
  }

  /** An ordering answer: item to its position as typed (`parseInt`), `None` for NaN. */
  function SetPosition(current: Option<map<string, Option<int>>>, item: string, text: string): (r: map<string, Option<int>>)
    ensures item in r && r[item] == ParseInt(text)
    ensures r.Keys == (if current.Some? then current.value.Keys else {}) + {item}
    ensures current.Some? ==> forall k :: k in current.value && k != item ==> r[k] == current.value[k]
  {
    var m := if current.Some? then current.value else map[];
    m[item := ParseInt(text)]
  }

  /** Typing a position number stores that number. */
  lemma PositionOfTypedNumber(current: Option<map<string, Option<int>>>, item: string, n: nat)
    ensures SetPosition(current, item, NatToString(n))[item] == Some(n)
  {
    ParseIntOfNat(n);
  }

  /** Matching updates to different items commute. */
  lemma MatchUpdatesCommute(m: map<string, string>, a: string, x: string, b: string, y: string)
    requires a != b
    ensures SetMatch(Some(SetMatch(Some(m), a, x)), b, y) == SetMatch(Some(SetMatch(Some(m), b, y)), a, x)
  {
  }
}
