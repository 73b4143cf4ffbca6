# Vertical ID card generator: the rules behind the form

The program is a Swing form that collects a student's name, department,
phone number, email address and photo, renders a two-sided ID card and
saves it as a JPEG. Most of its code is window construction and drawing.
Three pieces follow rules, and this project models them and proves what
they guarantee:

* **Field validators.** When a field loses focus, its text is checked with
  a regular expression, and a warning is shown if the check fails. Module
  `Regex` gives the small part of `java.util.regex` these expressions use:
  literals, bracketed classes, `+` and concatenation, read as whole-string
  matches. Module `Validation` defines the three expressions and a
  character-by-character predicate for each (`IsName`, `IsPhone`,
  `IsEmail`). It proves that each expression accepts exactly the strings
  its predicate describes, in both directions. `FocusLostWarning` gives the
  warning each handler shows.
* **Student identifiers.** A process-wide counter starts at 1. "Generate"
  sets the form's `studentId` to `"JUW"` followed by the counter, formatted
  as `%03d`, and then increments the counter. Module `Decimal` models
  decimal text and zero padding. Module `StudentIds` proves three things:
  the identifier's shape, that parsing it gives back the counter value (the parser `ParseId`
  exists only for this round trip), and that identifiers are injective. It models the static counter as a shared
  `IdCounter` object with a ghost history of the identifiers issued so far.
  `IdCardForm.GenerateStudentId` is proved to store the identifier for the
  current counter value, to issue an identifier not issued before, and to
  advance the counter by exactly one.
* **Output file name.** A saved file whose name ends with neither `.jpg`
  nor `.jpeg` gets `.jpg` appended, in the same parent directory. Module
  `OutputFile` proves that the result always has one of the two
  extensions, that the directory and the original name are kept, that the
  rule is idempotent, and that it is case-sensitive.

Validation does not gate generation or saving in the program, and the
model adds no such gate.

## Model

| member | source | states |
|---|---|---|
| Regex.Matches | VerticalIDCard.java:153-173 | whole-string matching, as `String.matches` and `Pattern.matches` test it; no expression of the fragment accepts the empty string |
| Regex.PlusMatches | VerticalIDCard.java:153-173 | a `[...]+` expression matches a string iff the string is non-empty and every character is in the class |
| Validation.NAME_PATTERN | VerticalIDCard.java:153 | the name expression `[a-zA-Z ]+` |
| Validation.PHONE_PATTERN | VerticalIDCard.java:163 | the phone expression `\d+`, with `\d` read as `[0-9]` |
| Validation.EMAIL_PATTERN | VerticalIDCard.java:173 | the email expression `^[A-Za-z0-9+_.-]+@[A-Za-z0-9.-]+$` |
| Validation.PatternOf | VerticalIDCard.java:153-173 | the expression each field's focus-lost handler tests |
| Validation.NameClassIs | VerticalIDCard.java:153 | the class `[a-zA-Z ]` holds exactly the ASCII letters and the space |
| Validation.LocalClassIs | VerticalIDCard.java:173 | the class `[A-Za-z0-9+_.-]` holds exactly ASCII letters, digits and `+ _ . -` |
| Validation.DomainClassIs | VerticalIDCard.java:173 | the class `[A-Za-z0-9.-]` holds exactly ASCII letters, digits and `. -` |
| Validation.NamePatternIsName | VerticalIDCard.java:153 | the name expression accepts a string iff it is non-empty and made only of ASCII letters and spaces |
| Validation.PhonePatternIsPhone | VerticalIDCard.java:163 | the phone expression accepts a string iff it is non-empty and made only of the digits 0-9 |
| Validation.IndexOf | VerticalIDCard.java:173 | the index found is the first `@`, or the string's length when there is none |
| Validation.EmailPatternIsEmail | VerticalIDCard.java:173 | the email expression accepts a string iff, at its first `@`, the part before is non-empty and local-class and the part after is non-empty and domain-class |
| Validation.EmailMatchIsSplit | VerticalIDCard.java:173 | every string the email expression accepts splits at its first `@` into a valid local part and a valid domain |
| Validation.EmailSplitMatches | VerticalIDCard.java:173 | every string that splits into a valid local part, `@` and a valid domain is accepted by the email expression |
| Validation.EmailHasOneAt | VerticalIDCard.java:173 | an accepted email address contains exactly one `@`, so none and two or more are rejected |
| Validation.FocusLostWarning | VerticalIDCard.java:149-178 | a handler shows no warning iff its field's text satisfies the field's predicate; otherwise it shows that field's fixed message |
| Decimal.Digits | VerticalIDCard.java:98 | the decimal text of a number is non-empty and made only of digits |
| Decimal.ValueOfDigits | VerticalIDCard.java:98 | reading the decimal text of `n` back gives `n` |
| Decimal.ValueIgnoresLeadingZeros | VerticalIDCard.java:98 | zeros added on the left of a digit string leave its value unchanged |
| Decimal.DigitsLength | VerticalIDCard.java:98 | the decimal text of `n` has at most `k` digits iff `n < 10^k` |
| Decimal.ZeroPad | VerticalIDCard.java:98 | the `0` flag with a width: the result has length max(width, original length) |
| Decimal.ZeroPadIsPadding | VerticalIDCard.java:98 | padding keeps the digits as a suffix and puts only `0` characters in front of them |
| Decimal.ZeroPadShape | VerticalIDCard.java:98 | zero padding to a width gives digits only, has length max(width, original length), and keeps the value |
| StudentIds.FormatId | VerticalIDCard.java:98 | `String.format("JUW%03d", n)`: the prefix, then the zero-padded decimal text of `n`; its meaning is stated by the lemmas below |
| StudentIds.FormatIdShape | VerticalIDCard.java:98 | an identifier is `JUW` followed by max(3, number of digits) digits, and has length 6 exactly when the counter is below 1000 |
| StudentIds.ParseFormatId | VerticalIDCard.java:98 | parsing an identifier gives back the counter value it was made from |
| StudentIds.FormatIdInjective | VerticalIDCard.java:98 | two counter values give the same identifier iff they are equal |
| StudentIds.FormatIdExamples | VerticalIDCard.java:97-98 | counter 1 gives JUW001 and 2 gives JUW002 |
| StudentIds.FormatIdWideExamples | VerticalIDCard.java:98 | counter 101 gives JUW101 and 1000 gives JUW1000, so the width is a minimum |
| StudentIds.IssuedBefore | VerticalIDCard.java:18 | when the counter reads `c`, the `c-1` identifiers issued so far are those of the counter values 1 to `c-1`, in order |
| StudentIds.IssuedDistinct | VerticalIDCard.java:18 | no two identifiers issued in one run are equal |
| StudentIds.NextIsFresh | VerticalIDCard.java:98 | the identifier for the current counter value has not been issued before |
| StudentIds.IdCounter.constructor | VerticalIDCard.java:18 | the counter starts at 1 with nothing issued |
| StudentIds.IdCardForm.constructor | VerticalIDCard.java:17 | a new form has no student identifier, which is null in the program |
| StudentIds.IdCardForm.GenerateStudentId | VerticalIDCard.java:96-100 | sets `studentId` to the identifier of the old counter value, which is new in this run; the counter goes up by exactly 1; nothing else changes |
| OutputFile.EnsureJpegExtension | VerticalIDCard.java:133-136 | the result keeps the parent directory, ends with `.jpg` or `.jpeg`, and starts with the chosen name |
| OutputFile.EnsureJpegExtensionCases | VerticalIDCard.java:134-135 | a name already ending with `.jpg` or `.jpeg` is left unchanged; any other name gets exactly `.jpg` appended |
| OutputFile.EnsureJpegExtensionIdempotent | VerticalIDCard.java:134-135 | applying the rule twice is the same as applying it once |
| OutputFile.BareNameExample | VerticalIDCard.java:134-135 | `card` becomes `card.jpg` |
| OutputFile.OtherExtensionExample | VerticalIDCard.java:134-135 | `card.png` becomes `card.png.jpg`: the extension is not replaced |
| OutputFile.UpperCaseExample | VerticalIDCard.java:134-135 | `card.JPG` becomes `card.JPG.jpg`: the test is case-sensitive |
| OutputFile.JpegExample | VerticalIDCard.java:134-135 | `card.jpg` and `card.jpeg` are left unchanged |

## Left out

- Window construction, layout, buttons, the department combo box and `main` (VerticalIDCard.java:20-79, 251-253): user-interface wiring with no rules.
- Message dialogs, returning focus to a field, and the file choosers (VerticalIDCard.java:82-93, 124-131, 154-155, 164-165, 174-175): interactive I/O. Only the text of each warning is modelled, in `FocusLostWarning`.
- Photo upload and image reading, scaling and writing (`ImageIO`, `getScaledInstance`), with their error dialogs (VerticalIDCard.java:27-34, 88-91, 138-144): calls into the image library and the file system.
- Drawing of the front and back of the card and the off-screen 800×700 image (VerticalIDCard.java:104-121, 182-249): pixel drawing with no rules beyond fixed offsets. `repaint()` at line 99 is also left out.
- The other form fields (the name, phone and email text, the department, the photo) are not fields of `IdCardForm`. The program only reads them when it validates or draws, so the validators take the text as a parameter.
- StudentIds.IdCardForm.GenerateStudentId: the counter is an unbounded natural number, so the wrap-around of Java's 32-bit `int` after 2^31 - 1 calls is not modelled.
- StudentIds.IdCounter.constructor: Java's `idCounter` is one static field per run. Dafny has no mutable statics, so having exactly one `IdCounter`, shared by every form, is a convention that callers must keep. A second `IdCounter` would start again at 1, and `IssuedDistinct` speaks of one counter object at a time.
- StudentIds.FormatId: `%03d` uses the default locale's zero digit. The model assumes the ASCII digits `0`-`9`.
- OutputFile.EnsureJpegExtension: a `java.io.File` is modelled as its parent and its name. The path normalisation done by `new File(parent, child)` is not modelled.
