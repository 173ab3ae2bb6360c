/**
 * The form validator: a rule table keyed by field name, the per-field check
 * (`validateField`) and the whole-form check run on submit (`validateAll`).
 * Presentation effects (error styling, message placement, vibration, shake
 * animation) are replaced by returned data: a `Verdict` per validated input.
 */
module FormValidation {
  import opened Wrappers
  import opened Text
  import opened Patterns

  /** The constraint kinds, which are also the keys of a rule's messages. */
  datatype Kind = Required | MinLength | Pattern | Match

  /** Position of a constraint in the fixed checking order. */
  function Rank(k: Kind): nat {
    match k
    case Required => 0
    case MinLength => 1
    case Pattern => 2
    case Match => 3
  }

  /** The regular expressions the rule table uses. */
  datatype Regex = NameRegex | EmailRegex

  predicate Matches(p: Regex, s: string) {
    match p
    case NameRegex => IsName(s)
    case EmailRegex => IsEmail(s)
  }

  /**
   * One entry of the rule table.  The source tests `minLength` and `match` for
   * truthiness, so a minimum of 0 and an empty target name both mean "no such
   * constraint", exactly as an absent property does.
   */
  datatype Rule = Rule(
    required: bool,
    minLength: nat,
    pattern: Option<Regex>,
    matchField: string,
    messages: map<Kind, string>)

  type Rules = map<string, Rule>

  /** The message shown for `k`; an absent message is shown as empty text. */
  function Message(rule: Rule, k: Kind): string {
    if k in rule.messages then rule.messages[k] else ""
  }

  /** The rule table every form on the page uses. */
  const DefaultRules: Rules := map[
    "name" := Rule(true, 2, Some(NameRegex), "",
      map[Required := "Введите ваше имя", MinLength := "Минимум 2 символа",
          Pattern := "Только буквы и пробелы"]),
    "email" := Rule(true, 0, Some(EmailRegex), "",
      map[Required := "Введите email", Pattern := "Некорректный email адрес"]),
    "password" := Rule(true, 6, None, "",
      map[Required := "Введите пароль", MinLength := "Минимум 6 символов"]),
    "confirmPassword" := Rule(true, 0, None, "password",
      map[Required := "Подтвердите пароль", Match := "Пароли не совпадают"])
  ]

  /** Every enabled constraint has a non-empty message, and every match target
      is itself a field of the table. */
  predicate WellFormed(rules: Rules) {
    forall f :: f in rules ==>
      var r := rules[f];
      (r.required ==> Message(r, Required) != "") &&
      (r.minLength > 0 ==> Message(r, MinLength) != "") &&
      (r.pattern.Some? ==> Message(r, Pattern) != "") &&
      (r.matchField != "" ==> Message(r, Match) != "" && r.matchField in rules)
  }

  lemma DefaultRulesWellFormed()
    ensures WellFormed(DefaultRules)
  {
  }

  /** An input element of a form, in document order. */
  datatype Control = Control(
    name: string,
    value: string,
    required: bool,
    checkbox: bool,
    checked: bool)

  /** `form.querySelector('[name="n"]')`: the first control named `n`, in
      document order. */
  function FirstNamed(form: seq<Control>, n: string): (r: Option<Control>)
    ensures r.Some? ==> r.value.name == n
    ensures r.Some? ==> exists i :: (0 <= i < |form| && form[i] == r.value &&
      forall k :: 0 <= k < i ==> form[k].name != n)
    ensures r.None? <==> forall k :: 0 <= k < |form| ==> form[k].name != n
  {
    if form == [] then None
    else if form[0].name == n then Some(form[0])
    else
      var r := FirstNamed(form[1..], n);
      assert r.Some? ==> exists i :: (0 <= i < |form| && form[i] == r.value &&
        forall k :: 0 <= k < i ==> form[k].name != n) by {
        if r.Some? {
          var j :| 0 <= j < |form[1..]| && form[1..][j] == r.value &&
            forall k :: 0 <= k < j ==> form[1..][k].name != n;
          assert form[j + 1] == r.value;
          assert forall k :: 0 <= k < j + 1 ==> form[k].name != n by {
            forall k | 0 <= k < j + 1 ensures form[k].name != n {
              if k > 0 { assert form[k] == form[1..][k - 1]; }
            }
          }
        }
      }
      r
  }

  /** Outcome of validating one input.  `Thrown` stands for the TypeError the
      source raises when a match target is not in the form. */
  datatype Verdict = Ok | Err(kind: Kind, message: string) | Thrown(missingField: string)

  /** Whether the trimmed value `v` breaks constraint `k` of `rule`, judged on its
      own.  The match constraint compares `v` with the target's raw value. */
  predicate Violates(rule: Rule, form: seq<Control>, v: string, k: Kind) {
    match k
    case Required => rule.required && v == ""
    case MinLength => rule.minLength > 0 && Utf16Length(v) < rule.minLength
    case Pattern => rule.pattern.Some? && !Matches(rule.pattern.value, v)
    case Match =>
      rule.matchField != "" &&
      match FirstNamed(form, rule.matchField)
      case Some(target) => v != target.value
      case None => false
  }

  /** The rule names a match target that the form does not contain. */
  predicate Dangling(rule: Rule, form: seq<Control>) {
    rule.matchField != "" && FirstNamed(form, rule.matchField).None?
  }

  /**
   * `validateField`: a field without a rule is valid; otherwise the constraints
   * are tried in the order required, minLength, pattern, match on the trimmed
   * value, and the first one broken is reported with its message.
   */
  function Validate(rules: Rules, form: seq<Control>, name: string, raw: string): (r: Verdict)
    ensures name !in rules ==> r == Ok
    ensures name in rules && r.Err? ==>
      Violates(rules[name], form, Trim(raw), r.kind) &&
      (forall k :: Rank(k) < Rank(r.kind) ==> !Violates(rules[name], form, Trim(raw), k)) &&
      r.message == Message(rules[name], r.kind)
    ensures name in rules && (exists k :: Violates(rules[name], form, Trim(raw), k)) ==> r.Err?
    ensures r.Thrown? <==>
      name in rules && Dangling(rules[name], form) &&
      (forall k :: k != Match ==> !Violates(rules[name], form, Trim(raw), k))
    ensures r.Thrown? ==> r.missingField == rules[name].matchField
  {
    if name !in rules then Ok
    else
      var rule := rules[name];
      var v := Trim(raw);
      if rule.required && v == "" then
        assert Violates(rule, form, v, Required);
        Err(Required, Message(rule, Required))
      else if rule.minLength > 0 && Utf16Length(v) < rule.minLength then
        assert Violates(rule, form, v, MinLength);
        Err(MinLength, Message(rule, MinLength))
      else if rule.pattern.Some? && !Matches(rule.pattern.value, v) then
        assert Violates(rule, form, v, Pattern);
        Err(Pattern, Message(rule, Pattern))
      else if rule.matchField != "" then
        match FirstNamed(form, rule.matchField)
        case None => Thrown(rule.matchField)
        case Some(target) =>
          if v != target.value then Err(Match, Message(rule, Match)) else Ok
      else Ok
  }

  // ------------------------------------------------- the default rule table

  /** A name passes iff, once trimmed, it is at least two code units of
      letters and spaces. */
  lemma DefaultName(form: seq<Control>, raw: string)
    ensures Validate(DefaultRules, form, "name", raw) == Ok <==>
      Utf16Length(Trim(raw)) >= 2 && IsName(Trim(raw))
  {
    var v := Trim(raw);
    if Utf16Length(v) >= 2 && IsName(v) {
      forall k ensures !Violates(DefaultRules["name"], form, v, k) {}
    }
  }

  /** An email passes iff its trimmed value has the `a@b.c` shape. */
  lemma DefaultEmail(form: seq<Control>, raw: string)
    ensures Validate(DefaultRules, form, "email", raw) == Ok <==> EmailShape(Trim(raw))
  {
    var v := Trim(raw);
    EmailTestMatchesPattern(v);
    if IsEmail(v) {
      forall k ensures !Violates(DefaultRules["email"], form, v, k) {}
    }
  }

  /** A password passes iff its trimmed value is at least six code units. */
  lemma DefaultPassword(form: seq<Control>, raw: string)
    ensures Validate(DefaultRules, form, "password", raw) == Ok <==> Utf16Length(Trim(raw)) >= 6
  {
    var v := Trim(raw);
    if Utf16Length(v) >= 6 {
      forall k ensures !Violates(DefaultRules["password"], form, v, k) {}
    }
  }

  /** A confirmation passes iff its trimmed value is non-empty and equals the
      raw, untrimmed value of the form's first `password` input; with no such
      input a non-empty confirmation throws. */
  lemma DefaultConfirm(form: seq<Control>, raw: string)
    ensures var r := Validate(DefaultRules, form, "confirmPassword", raw);
      match FirstNamed(form, "password")
      case Some(p) => r == Ok <==> Trim(raw) != "" && Trim(raw) == p.value
      case None => r.Thrown? <==> Trim(raw) != ""
  {
    var v := Trim(raw);
    var rule := DefaultRules["confirmPassword"];
    if FirstNamed(form, "password").Some? && v != "" && v == FirstNamed(form, "password").value.value {
      forall k ensures !Violates(rule, form, v, k) {}
    }
  }

  /** Because only the confirmation is trimmed, typing the same padded password
      into both boxes is reported as a mismatch. */
  lemma PaddedPasswordsMismatch()
    ensures var form := [Control("password", " Secret1", true, false, false),
                         Control("confirmPassword", " Secret1", true, false, false)];
      Validate(DefaultRules, form, "confirmPassword", " Secret1") ==
        Err(Match, "Пароли не совпадают")
  {
    var v := " Secret1";
    assert v[0] == ' ' && v[1] == 'S';
    assert LeadingSpace(v) == 1;
    assert TrailingSpace(v[1..]) == 0;
    assert Trim(v) == "Secret1";
  }

  // ----------------------------------------------------------- validateAll

  /** `form.querySelectorAll('input[required]')`. */
  function RequiredInputs(form: seq<Control>): (r: seq<Control>)
    ensures |r| <= |form|
    ensures forall k :: 0 <= k < |r| ==> r[k].required
  {
    if form == [] then []
    else
      var last := form[|form| - 1];
      RequiredInputs(form[..|form| - 1]) + if last.required then [last] else []
  }

  /** The inputs `validateAll` visits are exactly the form's required
      controls; RequiredInputsStep and RequiredInputsAppend give their order. */
  lemma {:induction false} RequiredInputsMembers(form: seq<Control>)
    ensures forall c :: c in RequiredInputs(form) <==> c in form && c.required
  {
    if form != [] {
      var init := form[..|form| - 1];
      RequiredInputsMembers(init);
      assert form == init + [form[|form| - 1]];
    }
  }

  /** The report ends with a thrown error, so validation stopped there. */
  predicate Aborted(report: seq<Verdict>) {
    report != [] && report[|report| - 1].Thrown?
  }

  /** The verdicts `validateAll` produces for `inputs`, one per input in order,
      stopping after an input whose validation throws. */
  function Reports(rules: Rules, form: seq<Control>, inputs: seq<Control>): seq<Verdict> {
    if inputs == [] then []
    else
      var done := Reports(rules, form, inputs[..|inputs| - 1]);
      var c := inputs[|inputs| - 1];
      if Aborted(done) then done else done + [Validate(rules, form, c.name, c.value)]
  }

  lemma {:induction false} RequiredInputsAppend(a: seq<Control>, b: seq<Control>)
    ensures RequiredInputs(a + b) == RequiredInputs(a) + RequiredInputs(b)
  {
    if b == [] {
      assert a + b == a;
    } else {
      var b' := b[..|b| - 1];
      assert (a + b)[..|a + b| - 1] == a + b';
      RequiredInputsAppend(a, b');
    }
  }

  lemma {:induction false} ReportsStayAborted(rules: Rules, form: seq<Control>, xs: seq<Control>, ys: seq<Control>)
    requires Aborted(Reports(rules, form, xs))
    ensures Reports(rules, form, xs + ys) == Reports(rules, form, xs)
  {
    if ys == [] {
      assert xs + ys == xs;
    } else {
      var ys' := ys[..|ys| - 1];
      assert (xs + ys)[..|xs + ys| - 1] == xs + ys';
      ReportsStayAborted(rules, form, xs, ys');
    }
  }

  /** No short circuit across fields: unless some validation throws, every
      input gets its own verdict, in order, whatever the earlier verdicts were. */
  lemma {:induction false} EveryInputReported(rules: Rules, form: seq<Control>, inputs: seq<Control>)
    requires forall k :: 0 <= k < |inputs| ==>
      !Validate(rules, form, inputs[k].name, inputs[k].value).Thrown?
    ensures |Reports(rules, form, inputs)| == |inputs|
    ensures forall k :: 0 <= k < |inputs| ==>
      Reports(rules, form, inputs)[k] == Validate(rules, form, inputs[k].name, inputs[k].value)
  {
    if inputs != [] {
      var init := inputs[..|inputs| - 1];
      EveryInputReported(rules, form, init);
      var done := Reports(rules, form, init);
      assert !Aborted(done) by {
        if done != [] { assert done[|done| - 1] == Validate(rules, form, init[|init| - 1].name, init[|init| - 1].value); }
      }
      var last := inputs[|inputs| - 1];
      assert Reports(rules, form, inputs) == done + [Validate(rules, form, last.name, last.value)];
      forall k | 0 <= k < |inputs|
        ensures Reports(rules, form, inputs)[k] == Validate(rules, form, inputs[k].name, inputs[k].value)
      {
        if k < |init| { assert inputs[k] == init[k]; }
      }
    }
  }

  /** All required inputs validate, with no error and nothing thrown. */
  predicate InputsValid(rules: Rules, form: seq<Control>, n: nat)
    requires n <= |form|
  {
    forall k :: 0 <= k < n && form[k].required ==>
      Validate(rules, form, form[k].name, form[k].value) == Ok
  }

  /** All required checkboxes among the first `n` controls are checked. */
  predicate CheckboxesChecked(form: seq<Control>, n: nat)
    requires n <= |form|
  {
    forall k :: 0 <= k < n && form[k].checkbox && form[k].required ==> form[k].checked
  }

  lemma RequiredInputsStep(form: seq<Control>, i: nat)
    requires i < |form|
    ensures form[i].required ==> RequiredInputs(form[..i + 1]) == RequiredInputs(form[..i]) + [form[i]]
    ensures !form[i].required ==> RequiredInputs(form[..i + 1]) == RequiredInputs(form[..i])
  {
    assert form[..i + 1][..i] == form[..i];
    if !form[i].required {
      assert RequiredInputs(form[..i]) + [] == RequiredInputs(form[..i]);
    }
  }

  lemma ReportsStep(rules: Rules, form: seq<Control>, xs: seq<Control>, c: Control)
    requires !Aborted(Reports(rules, form, xs))
    ensures Reports(rules, form, xs + [c]) == Reports(rules, form, xs) + [Validate(rules, form, c.name, c.value)]
  {
    assert (xs + [c])[..|xs|] == xs;
  }

  /** One step of the scan over the form's controls. */
  lemma ScanStep(rules: Rules, form: seq<Control>, i: nat)
    requires i < |form|
    requires !Aborted(Reports(rules, form, RequiredInputs(form[..i])))
    ensures var c := form[i];
      Reports(rules, form, RequiredInputs(form[..i + 1])) ==
      Reports(rules, form, RequiredInputs(form[..i])) +
        if c.required then [Validate(rules, form, c.name, c.value)] else []
  {
    RequiredInputsStep(form, i);
    if form[i].required {
      ReportsStep(rules, form, RequiredInputs(form[..i]), form[i]);
    } else {
      var r := Reports(rules, form, RequiredInputs(form[..i]));
      assert r + [] == r;
    }
  }

  lemma ReportsRest(rules: Rules, form: seq<Control>, i: nat)
    requires i < |form|
    requires Aborted(Reports(rules, form, RequiredInputs(form[..i + 1])))
    ensures Reports(rules, form, RequiredInputs(form)) == Reports(rules, form, RequiredInputs(form[..i + 1]))
  {
    assert form == form[..i + 1] + form[i + 1..];
    RequiredInputsAppend(form[..i + 1], form[i + 1..]);
    ReportsStayAborted(rules, form, RequiredInputs(form[..i + 1]), RequiredInputs(form[i + 1..]));
  }

  /** Every verdict in the report is `Ok`. */
  predicate AllOk(report: seq<Verdict>) {
    forall k :: 0 <= k < |report| ==> report[k] == Ok
  }

  lemma AllOkSnoc(report: seq<Verdict>, v: Verdict)
    ensures AllOk(report + [v]) <==> AllOk(report) && v == Ok
  {
    if AllOk(report) && v == Ok {
      forall k | 0 <= k < |report| + 1 ensures (report + [v])[k] == Ok {
        if k < |report| { assert (report + [v])[k] == report[k]; }
      }
    }
    if AllOk(report + [v]) {
      assert (report + [v])[|report|] == v;
      forall k | 0 <= k < |report| ensures report[k] == Ok {
        assert (report + [v])[k] == report[k];
      }
    }
  }

  /** The report of the first `n` controls is all `Ok` exactly when each of
      those controls that is required validates. */
  lemma {:induction false} ReportOkIffInputsValid(rules: Rules, form: seq<Control>, n: nat)
    requires n <= |form|
    ensures AllOk(Reports(rules, form, RequiredInputs(form[..n]))) <==> InputsValid(rules, form, n)
  {
    if n == 0 {
      assert form[..0] == [];
    } else {
      var i := n - 1;
      ReportOkIffInputsValid(rules, form, i);
      InputsValidStep(rules, form, i);
      var before := Reports(rules, form, RequiredInputs(form[..i]));
      var after := Reports(rules, form, RequiredInputs(form[..n]));
      if Aborted(before) {
        RequiredInputsStep(form, i);
        if form[i].required {
          ReportsStayAborted(rules, form, RequiredInputs(form[..i]), [form[i]]);
        }
        assert after == before;
        assert !AllOk(before) by { assert before[|before| - 1] != Ok; }
      } else {
        ScanStep(rules, form, i);
        if form[i].required {
          AllOkSnoc(before, Validate(rules, form, form[i].name, form[i].value));
        } else {
          assert after == before;
        }
      }
    }
  }

  lemma InputsValidStep(rules: Rules, form: seq<Control>, i: nat)
    requires i < |form|
    ensures InputsValid(rules, form, i + 1) <==>
      InputsValid(rules, form, i) &&
      (form[i].required ==> Validate(rules, form, form[i].name, form[i].value) == Ok)
  {
  }

  /** `validateAll` accepts the form exactly when every required input
      validates and every required checkbox is checked. */
  lemma FormValidIff(rules: Rules, form: seq<Control>)
    ensures AllOk(Reports(rules, form, RequiredInputs(form))) <==> InputsValid(rules, form, |form|)
  {
    assert form[..|form|] == form;
    ReportOkIffInputsValid(rules, form, |form|);
  }

  /**
   * The first loop of `validateAll`: validates every required input in
   * document order, without stopping at a failure.  A validation that throws
   * ends the loop; its TypeError is the final `Thrown` verdict.
   */
  method ValidateInputs(rules: Rules, form: seq<Control>) returns (ok: bool, report: seq<Verdict>)
    ensures report == Reports(rules, form, RequiredInputs(form))
    ensures ok <==> AllOk(report)
  {
    ok := true;
    report := [];
    var i := 0;
    assert form[..0] == [];
    while i < |form|
      invariant 0 <= i <= |form|
      invariant report == Reports(rules, form, RequiredInputs(form[..i]))
      invariant !Aborted(report)
      invariant ok <==> AllOk(report)
    {
      var c := form[i];
      ScanStep(rules, form, i);
      if c.required {
        var v := Validate(rules, form, c.name, c.value);
        AllOkSnoc(report, v);
        report := report + [v];
        if v.Thrown? {
          ReportsRest(rules, form, i);
          ok := false;
          return;
        }
        if v != Ok {
          ok := false;
        }
      }
      i := i + 1;
    }
    assert form[..i] == form;
  }

  /**
   * `validateAll`: validates every required input, without stopping at a
   * failure, then requires every required checkbox to be checked.  The form is
   * valid iff both hold.  When a validation throws, the TypeError escapes
   * before the checkbox pass and the form is not submitted; the model reports
   * this as `valid == false` with a final `Thrown` verdict.
   */
  method ValidateAll(rules: Rules, form: seq<Control>) returns (valid: bool, report: seq<Verdict>)
    ensures report == Reports(rules, form, RequiredInputs(form))
    ensures valid <==> AllOk(report) && CheckboxesChecked(form, |form|)
    ensures valid <==> InputsValid(rules, form, |form|) && CheckboxesChecked(form, |form|)
  {
    valid, report := ValidateInputs(rules, form);
    FormValidIff(rules, form);
    if Aborted(report) {
      return;
    }
    var j := 0;
    while j < |form|
      invariant 0 <= j <= |form|
      invariant valid <==> AllOk(report) && CheckboxesChecked(form, j)
    {
      if form[j].checkbox && form[j].required && !form[j].checked {
        valid := false;
      }
      j := j + 1;
    }
  }
}
