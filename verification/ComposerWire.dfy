/** Wire form of composer identities (`composer_draft_lifecycle.rs`): canonical
    decimal text of a nonzero 64-bit number. */
module ComposerWire {
  import opened Basics

  datatype WireError = Invalid | NonCanonical | Zero | Overflow

  predicate IsDigit(c: char) { '0' <= c <= '9' }

  function DigitValue(c: char): (v: nat)
    requires IsDigit(c)
    ensures v < 10
  {
    c as int - '0' as int
  }

  function DigitChar(d: nat): (c: char)
    requires d < 10
    ensures IsDigit(c) && DigitValue(c) == d
  {
    (d + '0' as int) as char
  }

  predicate IsDecimal(wire: string) {
    wire != [] && forall i :: 0 <= i < |wire| ==> IsDigit(wire[i])
  }

  function Value(wire: string): nat
    requires forall i :: 0 <= i < |wire| ==> IsDigit(wire[i])
  {
    if wire == [] then 0 else Value(wire[..|wire| - 1]) * 10 + DigitValue(wire[|wire| - 1])
  }

  /** `u64::to_string` */
  function ToWire(n: nat): string {
    if n < 10 then [DigitChar(n)] else ToWire(n / 10) + [DigitChar(n % 10)]
  }

  /** `parse_wire_value`; `str::parse` of decimal text fails only by overflow. */
  function ParseWire(wire: string): Result<nat, WireError> {
    if !IsDecimal(wire) then Err(Invalid)
    else if |wire| > 1 && wire[0] == '0' then Err(NonCanonical)
    else if Value(wire) > U64_MAX then Err(Overflow)
    else if Value(wire) == 0 then Err(Zero)
    else Ok(Value(wire))
  }

  lemma {:induction false} PrintedIsCanonical(n: nat)
    ensures IsDecimal(ToWire(n)) && Value(ToWire(n)) == n
    ensures n > 0 ==> ToWire(n)[0] != '0'
    ensures n < 10 ==> |ToWire(n)| == 1
    decreases n
  {
    if n >= 10 {
      PrintedIsCanonical(n / 10);
      var front := ToWire(n / 10);
      assert ToWire(n)[..|front|] == front;
    }
  }

  /** Canonical decimal text is the printed form of its value. */
  lemma {:induction false} CanonicalIsPrinted(wire: string)
    requires IsDecimal(wire) && (|wire| > 1 ==> wire[0] != '0')
    ensures ToWire(Value(wire)) == wire
    ensures wire[0] != '0' ==> Value(wire) > 0
    decreases |wire|
  {
    var front := wire[..|wire| - 1];
    if front == [] {
      assert Value(wire) == DigitValue(wire[0]);
    } else {
      CanonicalIsPrinted(front);
      var v, d := Value(front), DigitValue(wire[|wire| - 1]);
      assert Value(wire) == v * 10 + d && (v * 10 + d) / 10 == v && (v * 10 + d) % 10 == d;
      assert wire == front + [wire[|wire| - 1]];
    }
  }

  /** Printing and parsing are inverse: every nonzero 64-bit identity survives
      the round trip, every accepted text is exactly the printed form of its
      value, and the four errors cover all other texts. */
  lemma WireRoundTrip(n: nat, wire: string)
    ensures 0 < n <= U64_MAX ==> ParseWire(ToWire(n)) == Ok(n)
    ensures ParseWire(wire).Ok? ==> 0 < ParseWire(wire).value <= U64_MAX && ToWire(ParseWire(wire).value) == wire
    ensures ParseWire(wire) == Err(Zero) <==> wire == ToWire(0)
    ensures ParseWire(wire) == Err(Overflow) <==> exists m :: m > U64_MAX && wire == ToWire(m)
    ensures ParseWire(wire) == Err(NonCanonical) <==> IsDecimal(wire) && forall m: nat :: wire != ToWire(m)
    ensures ParseWire(wire) == Err(Invalid) <==> !IsDecimal(wire)
  {
    PrintedIsCanonical(n);
    forall m: nat ensures IsDecimal(ToWire(m)) && Value(ToWire(m)) == m && (|ToWire(m)| > 1 ==> ToWire(m)[0] != '0') {
      PrintedIsCanonical(m);
    }
    if IsDecimal(wire) && (|wire| > 1 ==> wire[0] != '0') {
      CanonicalIsPrinted(wire);
    }
  }
}
