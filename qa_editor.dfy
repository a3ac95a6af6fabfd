/**
 * Editing a persona's behavioural rules (src/components/personas/qa-editor.tsx).
 * Each handler builds a new list and hands it to `onChange`; no list is
 * changed in place.
 */
module QaEditor {
  /** One rule. `category` is whatever string the select produced. */
  datatype CustomQA = CustomQA(trigger: string, response: string, category: string)

  /** `keyof CustomQA`. */
  datatype Field = Trigger | Response | Category

  function Get(qa: CustomQA, field: Field): string {
    match field
    case Trigger => qa.trigger
    case Response => qa.response
    case Category => qa.category
  }

  /** `{ ...qa, [field]: value }`. */
  function WithField(qa: CustomQA, field: Field, value: string): (r: CustomQA)
    ensures Get(r, field) == value
    ensures forall other :: other != field ==> Get(r, other) == Get(qa, other)
  {
    match field
    case Trigger => qa.(trigger := value)
    case Response => qa.(response := value)
    case Category => qa.(category := value)
  }

  /** Writing back a field's own value changes nothing. */
  lemma WithFieldOwnValue(qa: CustomQA, field: Field)
    ensures WithField(qa, field, Get(qa, field)) == qa
  {
  }

  /** The rule `addRule` appends. */
  const NewRule: CustomQA := CustomQA("", "", "custom")

  /** `addRule`. */
  function AddRule(rules: seq<CustomQA>): (r: seq<CustomQA>)
    ensures |r| == |rules| + 1
    ensures r[..|rules|] == rules && r[|rules|] == NewRule
  {
    rules + [NewRule]
  }

  /** The rules at positions other than `index`, counting positions from `offset`. */
  function KeepOtherPositions(rules: seq<CustomQA>, index: int, offset: int): (r: seq<CustomQA>)
    ensures 0 <= index - offset < |rules| ==>
      r == rules[..index - offset] + rules[index - offset + 1..]
    ensures !(0 <= index - offset < |rules|) ==> r == rules
  {
    if rules == [] then []
    else
      var rest := KeepOtherPositions(rules[1..], index, offset + 1);
      assert rules == [rules[0]] + rules[1..];
      if offset == index then rest else [rules[0]] + rest
  }

  /** `removeRule`: `value.filter((_, i) => i !== index)`. */
  function RemoveRule(rules: seq<CustomQA>, index: int): (r: seq<CustomQA>)
    ensures 0 <= index < |rules| ==> |r| == |rules| - 1
    ensures 0 <= index < |rules| ==>
      (forall i :: 0 <= i < index ==> r[i] == rules[i]) &&
      (forall i :: index <= i < |r| ==> r[i] == rules[i + 1])
    ensures !(0 <= index < |rules|) ==> r == rules
  {
    KeepOtherPositions(rules, index, 0)
  }

  /** Removing the rule just added gives back the old list. */
  lemma RemoveUndoesAdd(rules: seq<CustomQA>)
    ensures RemoveRule(AddRule(rules), |rules|) == rules
  {
    assert AddRule(rules)[..|rules|] == rules;
  }

  /** `updateRule`: the rule at `index` gets `value` in `field`. */
  function UpdateRule(rules: seq<CustomQA>, index: int, field: Field, value: string)
    : (r: seq<CustomQA>)
    ensures |r| == |rules|
    ensures forall i :: 0 <= i < |rules| && i != index ==> r[i] == rules[i]
    ensures 0 <= index < |rules| ==>
      Get(r[index], field) == value &&
      forall other :: other != field ==> Get(r[index], other) == Get(rules[index], other)
  {
    seq(|rules|, i requires 0 <= i < |rules| =>
      if i == index then WithField(rules[i], field, value) else rules[i])
  }

  /** An index outside the list changes nothing. */
  lemma UpdateOutOfRange(rules: seq<CustomQA>, index: int, field: Field, value: string)
    requires !(0 <= index < |rules|)
    ensures UpdateRule(rules, index, field, value) == rules
  {
  }

  /** Two updates of the same field of the same rule: the last one wins. */
  lemma UpdateLastWins(rules: seq<CustomQA>, index: int, field: Field, v1: string, v2: string)
    ensures UpdateRule(UpdateRule(rules, index, field, v1), index, field, v2) ==
            UpdateRule(rules, index, field, v2)
  {
    var a := UpdateRule(UpdateRule(rules, index, field, v1), index, field, v2);
    var b := UpdateRule(rules, index, field, v2);
    forall i | 0 <= i < |rules| ensures a[i] == b[i] {
      if i == index {
        assert a[i] == WithField(WithField(rules[i], field, v1), field, v2);
      }
    }
  }
}
