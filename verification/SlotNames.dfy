/** Slot indices as they are written into and read back from child names. */
module SlotNames {
  import opened Prelude

  const USIZE_MAX: nat := 0xFFFF_FFFF_FFFF_FFFF

  function Digit(d: nat): char
    requires d < 10
  {
    '0' + d as char
  }

  predicate IsDigit(c: char) {
    '0' <= c <= '9'
  }

  function DigitValue(c: char): nat
    requires IsDigit(c)
  {
    c as int - '0' as int
  }

  /** Decimal digits, most significant first. */
  function Decimal(n: nat): string {
    if n < 10 then [Digit(n)] else Decimal(n / 10) + [Digit(n % 10)]
  }

  /** The name of the child in a slot. */
  function ChildName(fleet: string, index: nat): string {
    fleet + "-" + Decimal(index)
  }

  /** What follows the last dash, if there is one. */
  function AfterLastDash(name: string): Option<string> {
    if name == "" then None
    else
      var last := name[|name| - 1];
      if last == '-' then Some("")
      else match AfterLastDash(name[..|name| - 1])
        case None => None
        case Some(s) => Some(s + [last])
  }

  /** The value of a run of digits. */
  function Digits(s: string): Option<nat> {
    if s == "" then Some(0)
    else
      var last := s[|s| - 1];
      if !IsDigit(last) then None
      else match Digits(s[..|s| - 1])
        case None => None
        case Some(v) => Some(v * 10 + DigitValue(last))
  }

  /** Digits with an optional plus sign, at least one, within 64 bits. */
  function ParseUsize(s: string): Option<nat> {
    var digits := if s != "" && s[0] == '+' then s[1..] else s;
    if digits == "" then None
    else match Digits(digits)
      case None => None
      case Some(v) => if v <= USIZE_MAX then Some(v) else None
  }

  /** The slot a child's name stands for. */
  function SlotOf(name: string): Option<nat> {
    match AfterLastDash(name)
    case None => None
    case Some(s) => ParseUsize(s)
  }

  lemma DigitRoundTrip(d: nat)
    requires d < 10
    ensures IsDigit(Digit(d)) && DigitValue(Digit(d)) == d
  {
  }

  lemma {:induction false} DecimalRoundTrip(n: nat)
    ensures Digits(Decimal(n)) == Some(n)
    ensures Decimal(n) != "" && forall k :: 0 <= k < |Decimal(n)| ==> IsDigit(Decimal(n)[k])
  {
    DigitRoundTrip(n % 10);
    if n >= 10 {
      DecimalRoundTrip(n / 10);
      assert Decimal(n)[..|Decimal(n)| - 1] == Decimal(n / 10);
    } else {
      assert Decimal(n)[..0] == "";
    }
  }

  lemma {:induction false} LastDash(prefix: string, s: string)
    requires forall k :: 0 <= k < |s| ==> s[k] != '-'
    ensures AfterLastDash(prefix + "-" + s) == Some(s)
    decreases |s|
  {
    var name := prefix + "-" + s;
    if s == "" {
      assert name[|name| - 1] == '-';
    } else {
      LastDash(prefix, s[..|s| - 1]);
      assert name[..|name| - 1] == prefix + "-" + s[..|s| - 1];
      assert s == s[..|s| - 1] + [s[|s| - 1]];
    }
  }

  /** The slot is read back from the name of its child, whatever the fleet is
      called, dashes and digits included. */
  lemma SlotRoundTrip(fleet: string, index: nat)
    ensures SlotOf(ChildName(fleet, index)) == if index <= USIZE_MAX then Some(index) else None
  {
    DecimalRoundTrip(index);
    LastDash(fleet, Decimal(index));
  }

  /** So no two slots of a fleet share a child. */
  lemma ChildNamesAreDistinct(fleet: string, i: nat, j: nat)
    requires i <= USIZE_MAX && j <= USIZE_MAX && ChildName(fleet, i) == ChildName(fleet, j)
    ensures i == j
  {
    SlotRoundTrip(fleet, i);
    SlotRoundTrip(fleet, j);
  }

  lemma {:induction false} DigitsOfZeros(zeros: string, s: string)
    requires forall k :: 0 <= k < |zeros| ==> zeros[k] == '0'
    ensures Digits(zeros + s) == Digits(s)
    decreases |zeros| + |s|
  {
    if s != "" {
      DigitsOfZeros(zeros, s[..|s| - 1]);
      assert (zeros + s)[..|zeros + s| - 1] == zeros + s[..|s| - 1];
    } else if zeros != "" {
      DigitsOfZeros(zeros[..|zeros| - 1], "");
      assert zeros + "" == zeros && zeros[..|zeros| - 1] + "" == zeros[..|zeros| - 1];
    }
  }

  /** A name the controller would not write can still be read as one of its
      slots: leading zeros do not matter. */
  lemma PaddedNameIsRead(fleet: string, zeros: string, index: nat)
    requires index <= USIZE_MAX && forall k :: 0 <= k < |zeros| ==> zeros[k] == '0'
    ensures SlotOf(fleet + "-" + (zeros + Decimal(index))) == Some(index)
  {
    DecimalRoundTrip(index);
    LastDash(fleet, zeros + Decimal(index));
    DigitsOfZeros(zeros, Decimal(index));
    assert (zeros + Decimal(index))[0] != '+';
  }

  ghost predicate AllZeros(s: string) {
    forall k :: 0 <= k < |s| ==> s[k] == '0'
  }

  lemma {:induction false} DashSplits(name: string) returns (fleet: string)
    requires AfterLastDash(name).Some?
    ensures name == fleet + "-" + AfterLastDash(name).value
  {
    var last := |name| - 1;
    if name[last] == '-' {
      fleet := name[..last];
    } else {
      fleet := DashSplits(name[..last]);
      assert name == name[..last] + [name[last]];
    }
  }

  lemma NextDigit(zeros: string, u: nat, d: char) returns (zeros': string)
    requires AllZeros(zeros) && IsDigit(d)
    ensures AllZeros(zeros') && zeros + Decimal(u) + [d] == zeros' + Decimal(u * 10 + DigitValue(d))
  {
    var v := u * 10 + DigitValue(d);
    assert Digit(DigitValue(d)) == d;
    if u == 0 {
      zeros' := zeros + "0";
      assert Decimal(0) == "0" && Decimal(v) == [d];
    } else {
      zeros' := zeros;
      assert v / 10 == u && v % 10 == DigitValue(d);
      assert Decimal(v) == Decimal(u) + [d];
    }
  }

  /** A run of digits is the decimal of its value behind zeros. */
  lemma {:induction false} DigitsAreDecimal(s: string) returns (zeros: string)
    requires s != "" && Digits(s).Some?
    ensures AllZeros(zeros) && s == zeros + Decimal(Digits(s).value)
  {
    var last := |s| - 1;
    assert s == s[..last] + [s[last]];
    if last == 0 {
      zeros := "";
      assert s[..0] == "" && Digits(s).value == DigitValue(s[0]);
      assert Digit(DigitValue(s[0])) == s[0];
    } else {
      zeros := DigitsAreDecimal(s[..last]);
      zeros := NextDigit(zeros, Digits(s[..last]).value, s[last]);
    }
  }

  function Signed(plus: bool, digits: string): string {
    if plus then "+" + digits else digits
  }

  /** The name is a fleet's, a dash, a plus sign or none, zeros, and the slot in decimal. */
  ghost predicate Names(name: string, fleet: string, plus: bool, zeros: string, index: nat) {
    name == fleet + "-" + Signed(plus, zeros + Decimal(index)) && AllZeros(zeros)
  }

  lemma SignedIsParsed(plus: bool, digits: string)
    requires digits != "" && IsDigit(digits[0])
    ensures ParseUsize(Signed(plus, digits)) == ParseUsize(digits)
  {
    assert plus ==> Signed(plus, digits)[1..] == digits;
  }

  lemma ZerosAreDigits(zeros: string, index: nat)
    requires AllZeros(zeros) && index <= USIZE_MAX
    ensures zeros + Decimal(index) != ""
    ensures forall k :: 0 <= k < |zeros + Decimal(index)| ==> IsDigit((zeros + Decimal(index))[k])
    ensures ParseUsize(zeros + Decimal(index)) == Some(index)
  {
    DecimalRoundTrip(index);
    DigitsOfZeros(zeros, Decimal(index));
  }

  lemma NamedIsRead(name: string, fleet: string, plus: bool, zeros: string, index: nat)
    requires Names(name, fleet, plus, zeros, index) && index <= USIZE_MAX
    ensures SlotOf(name) == Some(index)
  {
    var digits := zeros + Decimal(index);
    ZerosAreDigits(zeros, index);
    SignedIsParsed(plus, digits);
    LastDash(fleet, Signed(plus, digits));
  }

  lemma Unsigned(s: string) returns (plus: bool, digits: string)
    requires ParseUsize(s).Some?
    ensures s == Signed(plus, digits) && digits != "" && ParseUsize(s) == Digits(digits)
  {
    plus := s != "" && s[0] == '+';
    digits := if plus then s[1..] else s;
  }

  lemma ReadIsNamed(name: string) returns (fleet: string, plus: bool, zeros: string)
    requires SlotOf(name).Some?
    ensures Names(name, fleet, plus, zeros, SlotOf(name).value) && SlotOf(name).value <= USIZE_MAX
  {
    fleet := DashSplits(name);
    var p, digits := Unsigned(AfterLastDash(name).value);
    plus := p;
    zeros := DigitsAreDecimal(digits);
  }

  /** A child is read as a slot exactly when its name ends, behind the last dash,
      in that slot's decimal within 64 bits, with zeros and a plus sign allowed
      before it; every other name is no slot's. */
  lemma SlotIff(name: string, index: nat)
    ensures SlotOf(name) == Some(index)
       <==> index < 0x1_0000_0000_0000_0000 && exists fleet, plus, zeros :: Names(name, fleet, plus, zeros, index)
  {
    if SlotOf(name) == Some(index) {
      var fleet, plus, zeros := ReadIsNamed(name);
    }
    if index <= USIZE_MAX {
      if fleet, plus, zeros :| Names(name, fleet, plus, zeros, index) {
        NamedIsRead(name, fleet, plus, zeros, index);
      }
    }
  }
}
