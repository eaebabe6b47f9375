/** The part of go-playground/validator that the payload tags use, on string fields.
    A string is a sequence of Unicode scalar values, so |s| is the rune count the
    validator's min and max compare against. */
module Validator {
  import opened Base

  /** One tag of a `validate:"..."` chain. */
  datatype Rule = Required | OmitEmpty | Min(n: nat) | Max(n: nat) | OneOf(options: seq<string>)

  /** A struct field with its value and its tag chain. */
  datatype Field = Field(name: string, value: string, rules: seq<Rule>)

  /** A failed field: which field and which tag refused it. */
  datatype FieldError = FieldError(field: string, tag: Rule)

  /** Whether one tag, on its own, accepts the value. */
  predicate Satisfies(value: string, rule: Rule) {
    match rule
    case Required => value != ""
    case OmitEmpty => true
    case Min(n) => |value| >= n
    case Max(n) => |value| <= n
    case OneOf(options) => value in options
  }

  /** An earlier omitempty has switched off the tags from position i on. */
  predicate SkippedFrom(value: string, rules: seq<Rule>, i: nat)
    requires i <= |rules|
  {
    value == "" && OmitEmpty in rules[..i]
  }

  /** The declarative reading of a chain: every tag that is not switched off accepts. */
  ghost predicate Accepts(value: string, rules: seq<Rule>) {
    forall i :: 0 <= i < |rules| && !SkippedFrom(value, rules, i) ==> Satisfies(value, rules[i])
  }

  /** The validator's walk along a chain: the first tag that refuses the value, stopping
      early when omitempty meets an empty value. */
  function FirstFailure(value: string, rules: seq<Rule>): (r: Option<Rule>)
    ensures r.Some? ==> r.value in rules && !Satisfies(value, r.value)
    decreases |rules|
  {
    if |rules| == 0 then None
    else if rules[0] == OmitEmpty && value == "" then None
    else if !Satisfies(value, rules[0]) then Some(rules[0])
    else FirstFailure(value, rules[1..])
  }

  /** The walk finds no failure exactly when the chain accepts the value. */
  lemma {:induction false} FirstFailureAccepts(value: string, rules: seq<Rule>)
    ensures FirstFailure(value, rules) == None <==> Accepts(value, rules)
    decreases |rules|
  {
    if |rules| == 0 {
    } else if rules[0] == OmitEmpty && value == "" {
      forall i | 0 < i < |rules| ensures SkippedFrom(value, rules, i) {
        assert rules[..i][0] == OmitEmpty;
      }
    } else if !Satisfies(value, rules[0]) {
      assert rules[..0] == [];
      assert !SkippedFrom(value, rules, 0);
    } else {
      var tail := rules[1..];
      FirstFailureAccepts(value, tail);
      forall i | 0 <= i < |tail|
        ensures SkippedFrom(value, rules, i + 1) == SkippedFrom(value, tail, i)
        ensures rules[i + 1] == tail[i]
      {
        assert rules[..i + 1] == [rules[0]] + tail[..i];
      }
      assert rules[..0] == [];
      if Accepts(value, tail) {
        forall i | 0 <= i < |rules| && !SkippedFrom(value, rules, i)
          ensures Satisfies(value, rules[i])
        {
          if i > 0 {
            assert !SkippedFrom(value, tail, i - 1);
          }
        }
      } else {
        var k :| 0 <= k < |tail| && !SkippedFrom(value, tail, k) && !Satisfies(value, tail[k]);
        assert !SkippedFrom(value, rules, k + 1);
      }
    }
  }

  /** The error one field contributes: its first refusing tag, if any. */
  function FieldErrors(f: Field): (errs: seq<FieldError>)
    ensures |errs| <= 1
    ensures forall e :: e in errs ==> e.field == f.name && e.tag in f.rules && !Satisfies(f.value, e.tag)
  {
    match FirstFailure(f.value, f.rules)
    case None => []
    case Some(tag) => [FieldError(f.name, tag)]
  }

  /** validate.Struct: the failing fields, in declaration order, each with its first refusing tag. */
  function ValidateStruct(fields: seq<Field>): (errs: seq<FieldError>)
    ensures |errs| <= |fields|
    ensures forall e :: e in errs ==>
              exists f :: f in fields && f.name == e.field && e.tag in f.rules
                          && !Satisfies(f.value, e.tag)
    decreases |fields|
  {
    if |fields| == 0 then [] else FieldErrors(fields[0]) + ValidateStruct(fields[1..])
  }

  /** A struct passes exactly when no field on its own reports an error. */
  lemma {:induction false} ValidateStructEmpty(fields: seq<Field>)
    ensures ValidateStruct(fields) == [] <==> forall i :: 0 <= i < |fields| ==> FieldErrors(fields[i]) == []
    decreases |fields|
  {
    if |fields| > 0 {
      ValidateStructEmpty(fields[1..]);
      assert forall i :: 0 < i < |fields| ==> fields[i] == fields[1..][i - 1];
    }
  }

  /** A struct passes exactly when every field's chain accepts its value. */
  lemma {:induction false} ValidateStructAccepts(fields: seq<Field>)
    ensures ValidateStruct(fields) == [] <==>
              forall i :: 0 <= i < |fields| ==> Accepts(fields[i].value, fields[i].rules)
    decreases |fields|
  {
    if |fields| > 0 {
      FirstFailureAccepts(fields[0].value, fields[0].rules);
      ValidateStructAccepts(fields[1..]);
      assert forall i :: 0 < i < |fields| ==> fields[i] == fields[1..][i - 1];
    }
  }

  /** The names of the fields, in order. */
  function Names(fields: seq<Field>): seq<string> {
    seq(|fields|, i requires 0 <= i < |fields| => fields[i].name)
  }

  /** Every reported error names one of the fields. */
  lemma {:induction false} ErrorsNameFields(fields: seq<Field>)
    ensures forall e :: e in ValidateStruct(fields) ==> e.field in Names(fields)
    decreases |fields|
  {
    if |fields| > 0 {
      ErrorsNameFields(fields[1..]);
      assert forall n :: n in Names(fields[1..]) ==> n in Names(fields) by {
        assert Names(fields) == [fields[0].name] + Names(fields[1..]);
      }
      assert fields[0].name == Names(fields)[0];
    }
  }

  /** No two errors of the list name the same field. */
  predicate DistinctFields(errs: seq<FieldError>) {
    forall i, j :: 0 <= i < j < |errs| ==> errs[i].field != errs[j].field
  }

  /** Putting at most one error for a new name in front of errors for other names keeps the
      reported fields distinct. */
  lemma PrependNewField(head: seq<FieldError>, rest: seq<FieldError>, name: string, names: seq<string>)
    requires |head| <= 1 && forall e :: e in head ==> e.field == name
    requires forall e :: e in rest ==> e.field in names
    requires name !in names && DistinctFields(rest)
    ensures DistinctFields(head + rest)
  {
    var errs := head + rest;
    forall i, j | 0 <= i < j < |errs| ensures errs[i].field != errs[j].field {
      assert errs[j] == rest[j - |head|];
      if i < |head| {
        assert errs[i] == head[i];
      } else {
        assert errs[i] == rest[i - |head|];
      }
    }
  }

  /** When the field names are distinct, no field is reported twice. */
  lemma {:induction false} ValidateStructOnePerField(fields: seq<Field>)
    requires forall i, j :: 0 <= i < j < |fields| ==> fields[i].name != fields[j].name
    ensures DistinctFields(ValidateStruct(fields))
    decreases |fields|
  {
    if |fields| > 0 {
      var tail := fields[1..];
      assert forall i :: 0 <= i < |tail| ==> tail[i] == fields[i + 1];
      ValidateStructOnePerField(tail);
      ErrorsNameFields(tail);
      assert fields[0].name !in Names(tail) by {
        forall k | 0 <= k < |tail| ensures Names(tail)[k] != fields[0].name {
          assert Names(tail)[k] == fields[k + 1].name;
        }
      }
      PrependNewField(FieldErrors(fields[0]), ValidateStruct(tail), fields[0].name, Names(tail));
    }
  }

  /** The name the validator reports for a tag. */
  function TagName(rule: Rule): string {
    match rule
    case Required => "required"
    case OmitEmpty => "omitempty"
    case Min(_) => "min"
    case Max(_) => "max"
    case OneOf(_) => "oneof"
  }

  /** The text of a list of field errors, one line per error. */
  function ErrorsText(structName: string, errs: seq<FieldError>): string
    decreases |errs|
  {
    if |errs| == 0 then ""
    else
      var e := errs[0];
      var line := "Key: '" + structName + "." + e.field + "' Error:Field validation for '"
                  + e.field + "' failed on the '" + TagName(e.tag) + "' tag";
      if |errs| == 1 then line else line + "\n" + ErrorsText(structName, errs[1..])
  }
}
