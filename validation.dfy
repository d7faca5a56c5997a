/**
 * The part of Laravel's validator the controllers use: the rules required, sometimes,
 * nullable, string, max and in, and the conditions under which a rule is checked at all.
 */
module Validation {

  /** A request field as the validator sees it. */
  datatype Input =
    | Absent             // the key is not in the request
    | Null               // the key is there with value null
    | Str(s: string)
    | NonString          // a number, a boolean or an array

  datatype Rule = Sometimes | Required | Nullable | IsString | Max(n: nat) | In(values: seq<string>)

  /** The characters PHP's trim() strips by default. */
  const TrimChars: string := " \t\n\r\0\U{B}"

  predicate Blank(s: string)
  {
    forall i :: 0 <= i < |s| ==> s[i] in TrimChars
  }

  /** Laravel's validateRequired: present, not null, and not blank after trim(). */
  predicate Filled(v: Input)
  {
    match v
    case Absent => false
    case Null => false
    case Str(s) => !Blank(s)
    case NonString => true
  }

  /** Only `required` is implicit: it runs even on absent, null or blank values. */
  predicate Implicit(r: Rule)
  {
    r.Required?
  }

  /**
   * isValidatable: a field marked sometimes is checked only when present; other rules than
   * required skip absent values, blank strings, and nulls when the field is nullable.
   */
  predicate Checked(v: Input, rules: seq<Rule>, r: Rule)
  {
    && (Sometimes in rules ==> !v.Absent?)
    && (Implicit(r) ||
        (!v.Absent? && !(v.Str? && Blank(v.s)) && !(v.Null? && Nullable in rules)))
  }

  predicate Holds(v: Input, r: Rule)
  {
    match r
    case Sometimes => true
    case Nullable => true
    case Required => Filled(v)
    case IsString => v.Str?
    case Max(n) => v.Str? ==> |v.s| <= n
    case In(values) => v.Str? && v.s in values
  }

  /** A field passes when every rule that is checked holds. */
  predicate Passes(v: Input, rules: seq<Rule>)
  {
    forall i :: 0 <= i < |rules| && Checked(v, rules, rules[i]) ==> Holds(v, rules[i])
  }

  /** 'required|string|max:n' accepts exactly a non-blank string of at most n characters. */
  lemma RequiredStringMax(v: Input, n: nat)
    ensures Passes(v, [Required, IsString, Max(n)]) <==> v.Str? && !Blank(v.s) && |v.s| <= n
  {
    var rules := [Required, IsString, Max(n)];
    if v.Str? && !Blank(v.s) && |v.s| <= n {
      assert Passes(v, rules);
    } else {
      if !Filled(v) {
        assert Checked(v, rules, rules[0]) && !Holds(v, rules[0]);
      } else if !v.Str? {
        assert Checked(v, rules, rules[1]) && !Holds(v, rules[1]);
      } else {
        assert Checked(v, rules, rules[2]) && !Holds(v, rules[2]);
      }
    }
  }

  /** 'sometimes|required|string|max:n' also accepts a missing field. */
  lemma SometimesRequiredStringMax(v: Input, n: nat)
    ensures Passes(v, [Sometimes, Required, IsString, Max(n)]) <==>
      v.Absent? || (v.Str? && !Blank(v.s) && |v.s| <= n)
  {
    var rules := [Sometimes, Required, IsString, Max(n)];
    if v.Absent? || (v.Str? && !Blank(v.s) && |v.s| <= n) {
      assert Passes(v, rules);
    } else {
      if !Filled(v) {
        assert Checked(v, rules, rules[1]) && !Holds(v, rules[1]);
      } else if !v.Str? {
        assert Checked(v, rules, rules[2]) && !Holds(v, rules[2]);
      } else {
        assert Checked(v, rules, rules[3]) && !Holds(v, rules[3]);
      }
    }
  }

  /**
   * 'nullable|string|in:...' accepts a missing field, null, a blank string (no rule but
   * required looks at one), and the listed values; anything else is rejected.
   */
  lemma NullableStringIn(v: Input, values: seq<string>)
    ensures Passes(v, [Nullable, IsString, In(values)]) <==>
      v.Absent? || v.Null? || (v.Str? && (Blank(v.s) || v.s in values))
  {
    var rules := [Nullable, IsString, In(values)];
    if v.Absent? || v.Null? || (v.Str? && (Blank(v.s) || v.s in values)) {
      assert Passes(v, rules);
    } else if v.NonString? {
      assert Checked(v, rules, rules[1]) && !Holds(v, rules[1]);
    } else {
      assert Checked(v, rules, rules[2]) && !Holds(v, rules[2]);
    }
  }

  /** 'nullable|string' rejects only values that are neither null nor a string. */
  lemma NullableString(v: Input)
    ensures Passes(v, [Nullable, IsString]) <==> !v.NonString?
  {
    var rules := [Nullable, IsString];
    if v.NonString? {
      assert Checked(v, rules, rules[1]) && !Holds(v, rules[1]);
    }
  }
}
