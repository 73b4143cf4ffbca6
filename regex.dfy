/**
 * The fragment of java.util.regex that the form's validators use: literal
 * characters, bracketed character classes built from ranges and single
 * characters, the one-or-more quantifier `+`, and concatenation.
 * `Matches(p, s)` is whole-string matching, which is what both
 * `String.matches` and `Pattern.matches` test.
 */
module Regex {

  /** One item of a bracketed class: a range `a-z` or a single character. */
  datatype ClassItem = Range(lo: char, hi: char) | Single(c: char)

  /** A bracketed class `[...]` is a list of items. */
  type CharClass = seq<ClassItem>

  datatype Pattern =
    | Lit(c: char)                  // a literal character
    | Plus(cls: CharClass)          // `[...]+`
    | Cat(left: Pattern, right: Pattern)

  predicate InItem(c: char, item: ClassItem) {
    match item
    case Range(lo, hi) => lo <= c <= hi
    case Single(d) => c == d
  }

  predicate InClass(c: char, cls: CharClass) {
    exists i :: 0 <= i < |cls| && InItem(c, cls[i])
  }

  /**
   * Language semantics: `R+` is `R | R R+`, and `p q` matches a string when
   * some split point gives a match of `p` on the left and of `q` on the right.
   * No pattern of this fragment matches the empty string.
   */
  predicate Matches(p: Pattern, s: string)
    ensures Matches(p, s) ==> |s| > 0
    decreases p, |s|
  {
    match p
    case Lit(c) => s == [c]
    case Plus(cls) =>
      |s| >= 1 && InClass(s[0], cls) && (|s| == 1 || Matches(p, s[1..]))
    case Cat(l, r) =>
      exists k :: 0 <= k <= |s| && Matches(l, s[..k]) && Matches(r, s[k..])
  }

  /** `[...]+` matches exactly the non-empty strings drawn from the class. */
  lemma {:induction false} PlusMatches(cls: CharClass, s: string)
    ensures Matches(Plus(cls), s) <==> |s| > 0 && forall i :: 0 <= i < |s| ==> InClass(s[i], cls)
    decreases |s|
  {
    if |s| > 1 {
      PlusMatches(cls, s[1..]);
      if forall i :: 0 <= i < |s| ==> InClass(s[i], cls) {
        forall i | 0 <= i < |s| - 1 ensures InClass(s[1..][i], cls) {
          assert s[1..][i] == s[i + 1];
        }
      }
      if Matches(Plus(cls), s) {
        forall i | 0 <= i < |s| ensures InClass(s[i], cls) {
          if i > 0 { assert s[i] == s[1..][i - 1]; }
        }
      }
    }
  }
}
