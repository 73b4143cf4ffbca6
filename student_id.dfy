/**
 * Student identifiers: `String.format("JUW%03d", idCounter++)`.
 * The static `idCounter` is one object shared by every form (`IdCounter`);
 * a form (`IdCardForm`) holds the `studentId` it was last given.
 */
module StudentIds {
  import opened Wrappers
  import opened Decimal

  const PREFIX: string := "JUW"

  /** The width of `%03d`. */
  const WIDTH: nat := 3

  /** The identifier issued for counter value `n`. */
  function FormatId(n: nat): string {
    PREFIX + ZeroPad(Digits(n), WIDTH)
  }

  /** Reads an identifier back: the prefix, then at least one digit. */
  function ParseId(id: string): Option<nat> {
    if |id| > |PREFIX| && id[..|PREFIX|] == PREFIX && AllDigits(id[|PREFIX|..])
    then Some(Value(id[|PREFIX|..]))
    else None
  }

  /** Every identifier is "JUW" and then digits, at least three of them. */
  lemma FormatIdShape(n: nat)
    ensures FormatId(n)[..3] == PREFIX
    ensures AllDigits(FormatId(n)[3..])
    ensures |FormatId(n)| == 3 + (if |Digits(n)| < WIDTH then WIDTH else |Digits(n)|)
    ensures n < 1000 <==> |FormatId(n)| == 6
  {
    ZeroPadShape(Digits(n), WIDTH);
    var id := FormatId(n);
    assert id[3..] == ZeroPad(Digits(n), WIDTH);
    DigitsLength(n, 3);
  }

  /** Parsing the digits gives back the counter value that was formatted. */
  lemma ParseFormatId(n: nat)
    ensures ParseId(FormatId(n)) == Some(n)
  {
    FormatIdShape(n);
    var id := FormatId(n);
    assert id[3..] == ZeroPad(Digits(n), WIDTH);
    ZeroPadShape(Digits(n), WIDTH);
    ValueOfDigits(n);
  }

  /** Different counter values never give the same identifier. */
  lemma FormatIdInjective(a: nat, b: nat)
    ensures FormatId(a) == FormatId(b) <==> a == b
  {
    if FormatId(a) == FormatId(b) {
      ParseFormatId(a);
      ParseFormatId(b);
    }
  }

  /** Counter values below 100 are padded to three digits. */
  lemma FormatIdExamples()
    ensures FormatId(1) == "JUW001"
    ensures FormatId(2) == "JUW002"
  {
    assert Zeros(1) == "0" && Zeros(2) == "00";
    assert Digits(1) == "1" && ZeroPad("1", WIDTH) == "001";
    assert Digits(2) == "2" && ZeroPad("2", WIDTH) == "002";
  }

  /** Three digits need no padding; beyond 999 the identifier grows. */
  lemma FormatIdWideExamples()
    ensures FormatId(101) == "JUW101"
    ensures FormatId(1000) == "JUW1000"
  {
    assert Digits(10) == "10" && Digits(101) == "101";
    assert Digits(100) == "100" && Digits(1000) == "1000";
  }

  /** The identifiers already issued when the counter reads `c`, oldest first. */
  function IssuedBefore(c: nat): (ids: seq<string>)
    requires c >= 1
    ensures |ids| == c - 1
    ensures forall i :: 0 <= i < c - 1 ==> ids[i] == FormatId(i + 1)
  {
    if c == 1 then [] else IssuedBefore(c - 1) + [FormatId(c - 1)]
  }

  /** No identifier is issued twice in one run. */
  lemma IssuedDistinct(c: nat)
    requires c >= 1
    ensures forall i, j :: 0 <= i < j < c - 1 ==> IssuedBefore(c)[i] != IssuedBefore(c)[j]
  {
    forall i, j | 0 <= i < j < c - 1 ensures IssuedBefore(c)[i] != IssuedBefore(c)[j] {
      FormatIdInjective(i + 1, j + 1);
    }
  }

  /** The next identifier is not among those already issued. */
  lemma NextIsFresh(c: nat)
    requires c >= 1
    ensures FormatId(c) !in IssuedBefore(c)
  {
    forall i | 0 <= i < c - 1 ensures IssuedBefore(c)[i] != FormatId(c) {
      FormatIdInjective(i + 1, c);
    }
  }

  /** The static `idCounter`: one per run, starting at 1. */
  class IdCounter {
    var value: nat
    /** The identifiers issued so far, for specification only. */
    ghost var issued: seq<string>

    ghost predicate Valid()
      reads this
    {
      value >= 1 && issued == IssuedBefore(value)
    }

    constructor ()
      ensures Valid() && value == 1 && issued == []
    {
      value := 1;
      issued := [];
    }
  }

  /** The form's identifier state: `studentId`, null until the first generation. */
  class IdCardForm {
    var studentId: Option<string>
    const counter: IdCounter

    constructor (counter: IdCounter)
      ensures this.counter == counter && studentId == None
    {
      this.counter := counter;
      studentId := None;
    }

    /**
     * `studentId = String.format("JUW%03d", idCounter++)`: the form gets the
     * identifier for the current counter value, which is new in this run, and
     * the counter moves on by one. Nothing else changes.
     */
    method GenerateStudentId()
      requires counter.Valid()
      modifies this`studentId, counter
      ensures counter.Valid()
      ensures studentId == Some(FormatId(old(counter.value)))
      ensures studentId.value !in old(counter.issued)
      ensures counter.value == old(counter.value) + 1
      ensures counter.issued == old(counter.issued) + [studentId.value]
    {
      NextIsFresh(counter.value);
      studentId := Some(FormatId(counter.value));
      counter.issued := counter.issued + [studentId.value];
      counter.value := counter.value + 1;
    }
  }
}
