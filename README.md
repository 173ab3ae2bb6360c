# neoformat login/registration script — verified model

This project models the deterministic core of `script.js`, the script behind a
login/registration page with two tabbed forms:

- **Form validation** (`FormValidator`): the rule table for the fields `name`,
  `email`, `password` and `confirmPassword`; `validateField`, which trims the
  input, tries the constraints *required → minLength → pattern → match* and
  reports the first one broken with that constraint's message; and
  `validateAll`, which validates every required input of a form without
  stopping at a failure and then requires every required checkbox to be
  checked. Styling an input as failed or passed becomes returned data, a
  `Verdict` (`Ok`, `Err(kind, message)`, or `Thrown` for the TypeError the
  source raises when a match target is missing from the form).
- **Password strength** (`PasswordStrength.checkStrength`): five independent
  tests, each adding one point, and the weak / medium / strong bands.
- **Tab switching** (`TabSwitcher`): a class whose fields are the tabs'
  `active` flags, the indicator, the two forms' `active` flags and the
  `activeTab` entry of local storage; `switchTab` and `restoreTabState` are
  methods that update them.

Modules: `Wrappers` (Option), `Text` (JavaScript whitespace, `trim`, `length`
in UTF-16 code units), `Patterns` (the two regular expressions as predicates),
`FormValidation`, `PasswordStrength`, `Tabs`.

Points where the code's behaviour is easy to misread:

- There is no "optional field" skip: a rule with `required: false` and an empty
  value still has its `minLength`, `pattern` and `match` constraints checked.
- The match check compares the *trimmed* confirmation with the *untrimmed*
  password. `FormValidation.PaddedPasswordsMismatch` proves the consequence:
  the same password with a leading space typed into both boxes is reported as
  a mismatch.
- `minLength` and `match` are tested for truthiness, so a minimum of 0 and an
  empty target name behave as absent constraints; an absent message is shown
  as empty text.
- `length` counts UTF-16 code units, so a character outside the Basic
  Multilingual Plane counts twice towards `minLength` and the strength
  tests.
- On restore, an empty stored value is falsy and selects the login tab, and a
  restore always writes the selected tab back to storage.

## Model

| member | source | states |
|---|---|---|
| Text.IsSpace | script.js:122 | the characters `trim` removes and `\s` matches: the ECMAScript WhiteSpace and LineTerminator code points, listed one by one |
| Text.Trim | script.js:122 | the trimmed value has no whitespace at either end, is no longer than the input, and is empty exactly when the input is all whitespace |
| Text.TrimRemovesPadding | script.js:122 | trimming any whitespace padding around an unpadded string gives back exactly that string |
| Text.TrimDecomposes | script.js:122 | the trimmed value is a slice of the input preceded and followed only by whitespace |
| Text.TrimIdempotent | script.js:122 | trimming twice equals trimming once |
| Text.Utf16Length | script.js:134 | a string's `length` is between its number of characters and twice that |
| Patterns.IsName | script.js:65 | the name pattern: a non-empty string of basic Cyrillic letters, ё, Ё, ASCII letters and whitespace |
| Patterns.NameJoin | script.js:65 | two strings matching the name pattern joined by a space match it too |
| Patterns.NameExamples | script.js:65 | "Анна Иванова" and "John Smith" match the name pattern; "John123" does not |
| Patterns.EmailShape | script.js:74 | the email pattern read off the regular expression: the string is a@b.c for non-empty a, b, c without whitespace or '@' |
| Patterns.IsEmail | script.js:74 | the direct test of the email pattern: a plain non-empty part before the first '@', then a plain part of at least three characters with a '.' strictly inside |
| Patterns.EmailTestMatchesPattern | script.js:74 | the direct email test accepts a string iff it splits as a@b.c with a, b, c non-empty and free of whitespace and '@' |
| Patterns.EmailAccepted | script.js:74 | "a@b.co" matches the email pattern |
| Patterns.EmailRejected | script.js:74 | "a@b" (no dot in the domain), "a b@c.com" (a space) and "@b.com" (empty local part) do not match the email pattern |
| FormValidation.DefaultRules | script.js:61-96 | the rule table: name (required, minimum 2, name pattern), email (required, email pattern), password (required, minimum 6), confirmPassword (required, must equal password), each with its messages |
| FormValidation.DefaultRulesWellFormed | script.js:61-96 | in the rule table every enabled constraint has a non-empty message and the match target is itself a field of the table |
| FormValidation.FirstNamed | script.js:147 | the form lookup by name returns the first control of that name in document order, and finds nothing iff no control has that name |
| FormValidation.Validate | script.js:120-156 | a field without a rule is valid; otherwise an error names a broken constraint with its message and no earlier constraint in the order required, minLength, pattern, match is broken; a broken constraint always yields an error; the lookup of a missing match target throws exactly when no other constraint is broken |
| FormValidation.DefaultName | script.js:62-71 | a name validates iff its trimmed value is at least 2 code units long and consists of Latin/Cyrillic letters and whitespace |
| FormValidation.DefaultEmail | script.js:72-79 | an email validates iff its trimmed value has the a@b.c shape |
| FormValidation.DefaultPassword | script.js:80-87 | a password validates iff its trimmed value is at least 6 code units long |
| FormValidation.DefaultConfirm | script.js:88-95 | a confirmation validates iff its trimmed value is non-empty and equals the raw value of the form's first password input; with no such input a non-empty confirmation throws |
| FormValidation.PaddedPasswordsMismatch | script.js:146-151 | identical passwords with a leading space in both boxes fail with the mismatch message |
| FormValidation.RequiredInputs | script.js:186 | the controls `validateAll` visits: the required ones, in document order, no more than the form holds |
| FormValidation.Reports | script.js:186-190 | the verdicts of the visited inputs, one per input in order, ending after an input whose validation throws |
| FormValidation.RequiredInputsMembers | script.js:186 | the inputs visited by `validateAll` are exactly the form's required controls (their document order is kept, as RequiredInputsStep and RequiredInputsAppend show) |
| FormValidation.EveryInputReported | script.js:186-190 | unless a validation throws, every required input receives its own verdict, in order, regardless of earlier failures |
| FormValidation.ReportOkIffInputsValid | script.js:184-190 | the report of the first n controls is all Ok iff every required control among them validates |
| FormValidation.FormValidIff | script.js:184-190 | the report over all required inputs is all Ok iff every required input of the form validates |
| FormValidation.ValidateInputs | script.js:184-190 | returns the verdict of every required input in document order, stopping after one that throws, and reports ok iff every verdict is Ok |
| FormValidation.ValidateAll | script.js:183-203 | returns the verdict of every required input in order (stopping after one that throws) and accepts iff all verdicts are Ok and every required checkbox is checked, that is, iff every required input validates and every required checkbox is checked |
| PasswordStrength.Score | script.js:334-341 | the score lies in 0..5 |
| PasswordStrength.Classify | script.js:346-358 | a score up to 2 is weak, 3 or 4 is medium, 5 is strong |
| PasswordStrength.CheckStrength | script.js:334-358 | the counter ends at the number of passed tests and the level is that count's band |
| PasswordStrength.StrongIff | script.js:337-341 | a password is strong iff it has at least 10 code units, an ASCII lower- and upper-case letter, a digit and a non-alphanumeric character |
| PasswordStrength.ShortPasswordNotStrong | script.js:337-338 | a password under 6 code units scores at most 3 and is never strong |
| PasswordStrength.ScoreMonotone | script.js:337-341 | appending characters never lowers the score |
| PasswordStrength.ScoreExamples | script.js:334-358 | the empty password scores 0, "Secret1!xy" is strong, "aB1!" is medium |
| Tabs.FirstTab | script.js:43 | the tab lookup returns the first tab with the requested name |
| Tabs.RestoreTarget | script.js:40-53 | the tab restored is the first one named by a non-empty stored value that some tab carries, otherwise the first login tab |
| Tabs.TabSwitcher.constructor | script.js:3-11 | after page load exactly the restored tab is active and its form shown |
| Tabs.TabSwitcher.SwitchTab | script.js:19-38 | only the clicked tab is active, the register form and indicator are on iff its name is "register", the login form otherwise, and its name is saved |
| Tabs.TabSwitcher.RestoreTabState | script.js:40-54 | the state is that of switching to the restored tab, which is also saved |
| Tabs.OneFormShown | script.js:27-36 | after a switch exactly one form is shown, the register form iff the tab is "register" |
| Tabs.RestoreAfterSwitch | script.js:37-45 | a later visit restoring the name a switch saved activates a tab of the same name (login if the name is empty) |

## Left out

- DOM lookups, `classList` styling, error-message placement, `showSuccess` and `clearError`: presentation; the model returns verdicts instead.
- `navigator.vibrate`, the checkbox shake animation and its `setTimeout`: device and timer effects.
- `handleSubmit`, `submitForm`, the form reset and the success modal: timer-driven presentation after a successful `validateAll`.
- `PasswordToggle`: flips an input's type and an icon class, with no logic to state.
- Strength-bar colours and texts beyond the weak/medium/strong band; the early return when a form has no strength bar.
- Event wiring, including validation on blur only for non-empty inputs and the strength meter listening only in the register form.
- A general regular-expression engine: only the two fixed patterns are modelled, as predicates.
- Tabs.RestoreTarget: a stored value containing a quote, backslash or line break (LF, CR or FF) is spliced into a CSS selector by the source and can make the lookup throw or match differently; the model treats the stored value as a plain name.
- Tabs.TabSwitcher.constructor: the page is assumed to have a tab whose `data-tab` is "login" (as is `Tabs.TabSwitcher.RestoreTabState` and `Tabs.RestoreTarget`); on a page without one, a missing, empty or unknown stored value makes the source call `switchTab(null)`, which clears every tab's `active` class and then throws a TypeError, while a stored name some tab carries is restored normally. The model does not cover such a page.
- Tabs.TabSwitcher.constructor: every `.tab` element is assumed to carry a `data-tab` attribute; for a tab without one the source reads `dataset.tab` as undefined, shows the login form and stores the string "undefined", which the model's `seq<string>` of tab names cannot express.
- Tabs.TabSwitcher.constructor: the initial markup state is not modelled, because the restore that ends construction overwrites every modelled field.
