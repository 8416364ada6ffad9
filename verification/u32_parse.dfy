/**
 * Parsing a decimal string into an unsigned 32-bit integer, as Rust's
 * `str::parse::<u32>` does: an optional leading `+`, then one or more ASCII
 * digits, accumulated from left to right with a checked multiply-and-add.
 * The first fault met decides the error.
 */
module U32Parse {
  import opened Wrappers

  const U32Max: nat := 0xFFFF_FFFF

  /** The error kinds `u32::from_str` can report. */
  datatype IntErrorKind = Empty | InvalidDigit | PosOverflow

  predicate IsAsciiDigit(c: char) {
    '0' <= c <= '9'
  }

  predicate AllAsciiDigits(s: string) {
    forall i :: 0 <= i < |s| ==> IsAsciiDigit(s[i])
  }

  function DigitValue(c: char): (d: nat)
    requires IsAsciiDigit(c)
    ensures d < 10
  {
    (c as int) - ('0' as int)
  }

  /** The number a string of ASCII digits denotes in base ten (the empty string denotes 0). */
  function DecimalValue(s: string): nat
    requires AllAsciiDigits(s)
  {
    if s == [] then 0 else DecimalValue(s[..|s| - 1]) * 10 + DigitValue(s[|s| - 1])
  }

  /** The digits that follow an optional leading `+`. */
  function Unsigned(s: string): string {
    if s != [] && s[0] == '+' then s[1..] else s
  }

  /** `<u32 as FromStr>::from_str`. */
  function ParseU32(s: string): (r: Result<nat, IntErrorKind>)
    ensures r.Ok? ==> r.value <= U32Max
  {
    if s == [] then Err(Empty)
    else if s == "+" || s == "-" then Err(InvalidDigit)
    else Accumulate(Unsigned(s), 0)
  }

  /** The digit loop: `acc` is the value of the digits already consumed. */
  function Accumulate(s: string, acc: nat): (r: Result<nat, IntErrorKind>)
    requires acc <= U32Max
    ensures r.Ok? ==> acc <= r.value <= U32Max
    ensures r != Err(Empty)
  {
    if s == [] then Ok(acc)
    else if !IsAsciiDigit(s[0]) then Err(InvalidDigit)
    else if acc * 10 + DigitValue(s[0]) > U32Max then Err(PosOverflow)
    else Accumulate(s[1..], acc * 10 + DigitValue(s[0]))
  }

  /** A longer digit string never denotes a smaller number. */
  lemma {:induction false} DecimalValueGrows(p: string, s: string)
    requires AllAsciiDigits(p + s)
    ensures AllAsciiDigits(p) && DecimalValue(p) <= DecimalValue(p + s)
  {
    assert forall i :: 0 <= i < |p| ==> p[i] == (p + s)[i];
    if s != [] {
      var q := s[..|s| - 1];
      assert (p + s)[..|p + s| - 1] == p + q;
      assert forall i :: 0 <= i < |p + q| ==> (p + q)[i] == (p + s)[i];
      DecimalValueGrows(p, q);
      assert DecimalValue(p + s) >= DecimalValue(p + q) * 10;
    } else {
      assert p + s == p;
    }
  }

  /** The loop, started after the digits `p`, computes the value of `p + s` when that fits in 32 bits. */
  lemma {:induction false} AccumulateValue(p: string, s: string)
    requires AllAsciiDigits(p) && DecimalValue(p) <= U32Max
    ensures Accumulate(s, DecimalValue(p)).Ok? <==> AllAsciiDigits(p + s) && DecimalValue(p + s) <= U32Max
    ensures Accumulate(s, DecimalValue(p)).Ok? ==> Accumulate(s, DecimalValue(p)).value == DecimalValue(p + s)
    decreases |s|
  {
    if s == [] {
      assert p + s == p;
    } else {
      var p' := p + [s[0]];
      assert p' + s[1..] == p + s;
      if IsAsciiDigit(s[0]) {
        assert AllAsciiDigits(p');
        assert p'[..|p'| - 1] == p;
        assert DecimalValue(p') == DecimalValue(p) * 10 + DigitValue(s[0]);
        if DecimalValue(p') > U32Max {
          if AllAsciiDigits(p + s) {
            DecimalValueGrows(p', s[1..]);
          }
        } else {
          AccumulateValue(p', s[1..]);
        }
      } else {
        assert (p + s)[|p|] == s[0];
      }
    }
  }

  /** `parse::<u32>` succeeds exactly on an optional `+` and a non-empty run of ASCII digits whose value fits in 32 bits, and returns that value. */
  lemma ParseU32Spec(s: string)
    ensures ParseU32(s).Ok? <==>
      |Unsigned(s)| > 0 && AllAsciiDigits(Unsigned(s)) && DecimalValue(Unsigned(s)) <= U32Max
    ensures ParseU32(s).Ok? ==> ParseU32(s).value == DecimalValue(Unsigned(s))
    ensures ParseU32(s) == Err(Empty) <==> s == []
  {
    if s != [] && s != "+" && s != "-" {
      assert [] + Unsigned(s) == Unsigned(s);
      AccumulateValue([], Unsigned(s));
    }
  }
}
