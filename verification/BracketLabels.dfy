/** What the bracket sheet prints: names of ties, labels of slots, and reading a label back. */
module BracketLabels {
  import opened Wrappers
  import opened CupBracket

  const DIGITS := "0123456789"

  function Digits(n: nat): (s: string)
    ensures |s| > 0 && forall c :: c in s ==> c in DIGITS
    ensures |s| == 1 <==> n < 10
  {
    if n < 10 then [DIGITS[n]] else Digits(n / 10) + [DIGITS[n % 10]]
  }

  lemma DigitAt(i: nat, j: nat)
    requires i < 10 && j < 10 && DIGITS[i] == DIGITS[j]
    ensures i == j
  {}

  lemma {:induction false} DigitsAreDistinct(a: nat, b: nat)
    requires Digits(a) == Digits(b)
    ensures a == b
  {
    var s, t := Digits(a), Digits(b);
    assert s[|s| - 1] == DIGITS[a % 10] && t[|t| - 1] == DIGITS[b % 10];
    DigitAt(a % 10, b % 10);
    if a >= 10 && b >= 10 {
      assert s[..|s| - 1] == Digits(a / 10) && t[..|t| - 1] == Digits(b / 10);
      DigitsAreDistinct(a / 10, b / 10);
    }
  }

  function Decimal(i: int): string {
    if i < 0 then "-" + Digits(-i) else Digits(i)
  }

  function Prefix(stage: Stage): string {
    match stage
    case Qualifying1 => "Q1-"
    case Qualifying2 => "Q2-"
    case RoundOf16 => "R16-"
    case QuarterFinal => "QF-"
    case SemiFinal => "SF-"
  }

  function TieName(id: TieId): (name: string)
    ensures |name| > 0 && (id.Numbered? <==> name[0] != 'F' && name[0] != '3')
  {
    match id
    case Numbered(stage, number) => Prefix(stage) + Digits(number)
    case Final => "F"
    case ThirdPlace => "3RD"
  }

  /** Two ties never print the same name. */
  lemma NamesAreDistinct(a: TieId, b: TieId)
    requires TieName(a) == TieName(b)
    ensures a == b
  {
    if a.Numbered? && b.Numbered? {
      var s, t := TieName(a), TieName(b);
      assert s[0] == Prefix(a.stage)[0] && s[1] == Prefix(a.stage)[1];
      assert t[0] == Prefix(b.stage)[0] && t[1] == Prefix(b.stage)[1];
      assert a.stage == b.stage;
      assert s[|Prefix(a.stage)|..] == Digits(a.number) && t[|Prefix(b.stage)|..] == Digits(b.number);
      DigitsAreDistinct(a.number, b.number);
    }
  }

  function SlotLabel(slot: Slot): string {
    match slot
    case FromSeed(Seed(division, rank)) => (if division == High then "H" else "L") + Decimal(rank)
    case WinnerOf(tie) => "W(" + TieName(tie) + ")"
  }

  // ----- Reading a label: ^W\((.+)\)$ -----

  /** What `.` does not match. */
  predicate IsLineBreak(c: char) {
    c == '\n' || c == '\r' || c == '\U{2028}' || c == '\U{2029}'
  }

  function FeederIn(text: string): Option<string> {
    if |text| > 3 && text[..2] == "W(" && text[|text| - 1] == ')' &&
       (forall c :: c in text[2..|text| - 1] ==> !IsLineBreak(c))
    then Some(text[2..|text| - 1])
    else None
  }

  lemma NamesHoldNoLineBreak(id: TieId)
    ensures forall c :: c in TieName(id) ==> !IsLineBreak(c)
  {
    if id.Numbered? {
      assert forall c :: c in Prefix(id.stage) ==> !IsLineBreak(c);
      assert forall c :: c in Digits(id.number) ==> c in DIGITS;
      assert forall c :: c in DIGITS ==> !IsLineBreak(c);
      assert forall c :: c in TieName(id) ==> c in Prefix(id.stage) || c in Digits(id.number);
    }
  }

  /** The page reads back exactly the tie the bracket wrote, and nothing from a qualification place. */
  lemma LabelsReadBack(slot: Slot)
    ensures FeederIn(SlotLabel(slot)) == match slot case FromSeed(_) => None case WinnerOf(tie) => Some(TieName(tie))
  {
    match slot
    case FromSeed(seed) =>
      assert SlotLabel(slot)[0] != 'W';
      assert |SlotLabel(slot)| > 3 ==> SlotLabel(slot)[..2][0] != 'W';
    case WinnerOf(tie) =>
      NamesHoldNoLineBreak(tie);
      var text := SlotLabel(slot);
      assert text[2..|text| - 1] == TieName(tie);
      assert text[..2] == "W(";
  }

  /** A label that reads as a winner's is that winner's label written out. */
  lemma ReadingInverts(text: string)
    ensures FeederIn(text).Some? ==> |FeederIn(text).value| > 0 && text == "W(" + FeederIn(text).value + ")"
  {
    if FeederIn(text).Some? {
      assert text == text[..2] + text[2..|text| - 1] + text[|text| - 1..];
      assert text[|text| - 1..] == ")";
    }
  }
}
