/**
 * The three focus-lost checks of the student form (name, phone, email).
 * The program tests each field's text against a regular expression; here
 * those expressions are values of `Regex.Pattern`, and each is shown to
 * accept exactly the strings described by a plain predicate on characters.
 */
module Validation {
  import opened Regex
  import opened Wrappers

  predicate IsAsciiLetter(c: char) {
    'A' <= c <= 'Z' || 'a' <= c <= 'z'
  }

  predicate IsAsciiDigit(c: char) {
    '0' <= c <= '9'
  }

  // ---------------------------------------------------------------------
  // The expressions as the program writes them

  /** `[a-zA-Z ]+` */
  const NAME_PATTERN: Pattern := Plus([Range('a', 'z'), Range('A', 'Z'), Single(' ')])

  /** `\d+`; without UNICODE_CHARACTER_CLASS, Java's `\d` is `[0-9]`. */
  const PHONE_PATTERN: Pattern := Plus([Range('0', '9')])

  /** `[A-Za-z0-9+_.-]`, the class of the part before the `@`. */
  const LOCAL_CLASS: CharClass :=
    [Range('A', 'Z'), Range('a', 'z'), Range('0', '9'), Single('+'), Single('_'), Single('.'), Single('-')]

  /** `[A-Za-z0-9.-]`, the class of the part after the `@`. */
  const DOMAIN_CLASS: CharClass :=
    [Range('A', 'Z'), Range('a', 'z'), Range('0', '9'), Single('.'), Single('-')]

  /** `^[A-Za-z0-9+_.-]+@[A-Za-z0-9.-]+$`; the anchors add nothing to a whole-string match. */
  const EMAIL_PATTERN: Pattern := Cat(Cat(Plus(LOCAL_CLASS), Lit('@')), Plus(DOMAIN_CLASS))

  // ---------------------------------------------------------------------
  // The same languages, described character by character

  predicate IsNameChar(c: char) {
    IsAsciiLetter(c) || c == ' '
  }

  predicate IsLocalChar(c: char) {
    IsAsciiLetter(c) || IsAsciiDigit(c) || c == '+' || c == '_' || c == '.' || c == '-'
  }

  predicate IsDomainChar(c: char) {
    IsAsciiLetter(c) || IsAsciiDigit(c) || c == '.' || c == '-'
  }

  /** Non-empty, letters and spaces only. */
  predicate IsName(s: string) {
    |s| > 0 && forall i :: 0 <= i < |s| ==> IsNameChar(s[i])
  }

  /** Non-empty, ASCII digits only. */
  predicate IsPhone(s: string) {
    |s| > 0 && forall i :: 0 <= i < |s| ==> IsAsciiDigit(s[i])
  }

  /** Index of the first occurrence of `c` in `s`, or `|s|` when there is none. */
  function IndexOf(s: string, c: char): (k: nat)
    ensures k <= |s|
    ensures k < |s| ==> s[k] == c
    ensures forall i :: 0 <= i < k ==> s[i] != c
  {
    if s == [] then 0
    else if s[0] == c then 0
    else 1 + IndexOf(s[1..], c)
  }

  /**
   * Split at the first `@`: a non-empty part before it drawn from the local
   * characters and a non-empty part after it drawn from the domain characters.
   */
  predicate IsEmail(s: string) {
    var k := IndexOf(s, '@');
    0 < k && k + 1 < |s|
    && (forall i :: 0 <= i < k ==> IsLocalChar(s[i]))
    && (forall i :: k < i < |s| ==> IsDomainChar(s[i]))
  }

  // ---------------------------------------------------------------------
  // The expressions accept exactly those languages

  lemma NameClassIs(c: char)
    ensures InClass(c, NAME_PATTERN.cls) <==> IsNameChar(c)
  {
    var cls := NAME_PATTERN.cls;
    if IsNameChar(c) {
      if 'a' <= c <= 'z' { assert InItem(c, cls[0]); }
      else if 'A' <= c <= 'Z' { assert InItem(c, cls[1]); }
      else { assert InItem(c, cls[2]); }
    }
  }

  lemma LocalClassIs(c: char)
    ensures InClass(c, LOCAL_CLASS) <==> IsLocalChar(c)
  {
    if IsLocalChar(c) {
      var k := if 'A' <= c <= 'Z' then 0 else if 'a' <= c <= 'z' then 1
        else if '0' <= c <= '9' then 2 else if c == '+' then 3
        else if c == '_' then 4 else if c == '.' then 5 else 6;
      assert InItem(c, LOCAL_CLASS[k]);
    }
  }

  lemma DomainClassIs(c: char)
    ensures InClass(c, DOMAIN_CLASS) <==> IsDomainChar(c)
  {
    if IsDomainChar(c) {
      var k := if 'A' <= c <= 'Z' then 0 else if 'a' <= c <= 'z' then 1
        else if '0' <= c <= '9' then 2 else if c == '.' then 3 else 4;
      assert InItem(c, DOMAIN_CLASS[k]);
    }
  }

  lemma NamePatternIsName(s: string)
    ensures Matches(NAME_PATTERN, s) <==> IsName(s)
  {
    PlusMatches(NAME_PATTERN.cls, s);
    forall i | 0 <= i < |s| ensures InClass(s[i], NAME_PATTERN.cls) <==> IsNameChar(s[i]) {
      NameClassIs(s[i]);
    }
  }

  lemma PhonePatternIsPhone(s: string)
    ensures Matches(PHONE_PATTERN, s) <==> IsPhone(s)
  {
    PlusMatches(PHONE_PATTERN.cls, s);
    forall i | 0 <= i < |s| ensures InClass(s[i], PHONE_PATTERN.cls) <==> IsAsciiDigit(s[i]) {
      assert InClass(s[i], PHONE_PATTERN.cls) <==> InItem(s[i], PHONE_PATTERN.cls[0]);
    }
  }

  /** Both directions: the email expression matches `s` iff `s` splits as `IsEmail` says. */
  lemma EmailPatternIsEmail(s: string)
    ensures Matches(EMAIL_PATTERN, s) <==> IsEmail(s)
  {
    if Matches(EMAIL_PATTERN, s) {
      EmailMatchIsSplit(s);
    }
    if IsEmail(s) {
      EmailSplitMatches(s);
    }
  }

  lemma EmailMatchIsSplit(s: string)
    requires Matches(EMAIL_PATTERN, s)
    ensures IsEmail(s)
  {
    var k :| 0 <= k <= |s| && Matches(Cat(Plus(LOCAL_CLASS), Lit('@')), s[..k])
                           && Matches(Plus(DOMAIN_CLASS), s[k..]);
    var head, tail := s[..k], s[k..];
    var j :| 0 <= j <= |head| && Matches(Plus(LOCAL_CLASS), head[..j]) && Matches(Lit('@'), head[j..]);
    assert head[j..] == ['@'];
    assert j + 1 == k && head[j] == '@' && head[j] == s[j];
    PlusMatches(LOCAL_CLASS, head[..j]);
    PlusMatches(DOMAIN_CLASS, tail);
    forall i | 0 <= i < j ensures IsLocalChar(s[i]) && s[i] != '@' {
      assert head[..j][i] == s[i];
      LocalClassIs(s[i]);
    }
    forall i | k < i < |s| ensures IsDomainChar(s[i]) {
      assert tail[i - k] == s[i];
      DomainClassIs(s[i]);
    }
    assert IndexOf(s, '@') == j;
  }

  lemma EmailSplitMatches(s: string)
    requires IsEmail(s)
    ensures Matches(EMAIL_PATTERN, s)
  {
    var j := IndexOf(s, '@');
    var k := j + 1;
    var head, local, tail := s[..k], s[..j], s[k..];
    assert head[..j] == local;
    assert head[j..] == ['@'];
    forall i | 0 <= i < |local| ensures InClass(local[i], LOCAL_CLASS) {
      LocalClassIs(s[i]);
    }
    PlusMatches(LOCAL_CLASS, local);
    assert Matches(Cat(Plus(LOCAL_CLASS), Lit('@')), head);
    forall i | 0 <= i < |tail| ensures InClass(tail[i], DOMAIN_CLASS) {
      DomainClassIs(s[k + i]);
    }
    PlusMatches(DOMAIN_CLASS, tail);
    assert s[..k] == head && s[k..] == tail;
  }

  /** Neither class contains `@`, so an accepted address holds exactly one. */
  lemma EmailHasOneAt(s: string)
    requires Matches(EMAIL_PATTERN, s)
    ensures multiset(s)['@'] == 1
  {
    EmailPatternIsEmail(s);
    var k := IndexOf(s, '@');
    assert s == s[..k] + [s[k]] + s[k + 1..];
    var tail := s[k + 1..];
    assert '@' !in tail by {
      forall i | 0 <= i < |tail| ensures tail[i] != '@' {
        assert tail[i] == s[k + 1 + i] && IsDomainChar(s[k + 1 + i]);
      }
    }
    assert '@' !in s[..k];
    calc {
      multiset(s)['@'];
      (multiset(s[..k]) + multiset{s[k]} + multiset(tail))['@'];
      multiset(s[..k])['@'] + 1 + multiset(tail)['@'];
    }
  }

  // ---------------------------------------------------------------------
  // The focus-lost handlers

  datatype Field = NameField | PhoneField | EmailField

  function PatternOf(f: Field): Pattern {
    match f
    case NameField => NAME_PATTERN
    case PhoneField => PHONE_PATTERN
    case EmailField => EMAIL_PATTERN
  }

  /**
   * What the focus-lost handler of field `f` shows for `text`: nothing when
   * the text matches the field's expression, otherwise the field's warning.
   * (The handler then also returns focus to the field; that is not modelled.)
   */
  function FocusLostWarning(f: Field, text: string): (r: Option<string>)
    ensures r == None <==> match f
                           case NameField => IsName(text)
                           case PhoneField => IsPhone(text)
                           case EmailField => IsEmail(text)
    ensures r != None ==> r.value == match f
                                     case NameField => "Name should contain only alphabets!"
                                     case PhoneField => "Phone number should contain only digits!"
                                     case EmailField => "Invalid email format!"
  {
    NamePatternIsName(text);
    PhonePatternIsPhone(text);
    EmailPatternIsEmail(text);
    if Matches(PatternOf(f), text) then None
    else match f
      case NameField => Some("Name should contain only alphabets!")
      case PhoneField => Some("Phone number should contain only digits!")
      case EmailField => Some("Invalid email format!")
  }
}
