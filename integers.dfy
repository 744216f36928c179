/** Rust's `str::parse` for the fixed-width integer types the scalar decoder
    asks for (src/xml/mod.rs:45-50), and for the `i32` flatten index of the
    field matcher (src/xml/mod.rs:141, 169). No trimming: the whole text must
    be an optional sign followed by ASCII digits. */
module Integers {
  import opened Outcomes

  datatype Width = U8 | U16 | U32 | I8 | I16 | I32

  predicate Signed(w: Width) {
    w.I8? || w.I16? || w.I32?
  }

  function Min(w: Width): int {
    match w
    case U8 => 0
    case U16 => 0
    case U32 => 0
    case I8 => -0x80
    case I16 => -0x8000
    case I32 => -0x8000_0000
  }

  function Max(w: Width): int {
    match w
    case U8 => 0xFF
    case U16 => 0xFFFF
    case U32 => 0xFFFF_FFFF
    case I8 => 0x7F
    case I16 => 0x7FFF
    case I32 => 0x7FFF_FFFF
  }

  // The `Display` texts of `ParseIntError`'s kinds.
  const EmptyMessage: string := "cannot parse integer from empty string"
  const InvalidDigitMessage: string := "invalid digit found in string"
  const PosOverflowMessage: string := "number too large to fit in target type"
  const NegOverflowMessage: string := "number too small to fit in target type"

  predicate IsDigit(c: char) {
    '0' <= c <= '9'
  }

  function DigitValue(c: char): nat
    requires IsDigit(c)
  {
    c as int - '0' as int
  }

  predicate AllDigits(s: string) {
    forall i :: 0 <= i < |s| ==> IsDigit(s[i])
  }

  /** The value of the digit string `ds` read left to right after the digits
      already worth `acc`; reading more digits never lowers the value. */
  function Fold(acc: nat, ds: string): (r: nat)
    requires AllDigits(ds)
    ensures acc <= r
    ensures ds != [] ==> acc * 10 <= r
    decreases ds
  {
    if ds == [] then acc else Fold(acc * 10 + DigitValue(ds[0]), ds[1..])
  }

  /** The digit loop of `from_str_radix`: each character is first checked to
      be a digit, then folded in with an overflow check towards the sign. */
  function Accumulate(ds: string, negative: bool, acc: int, w: Width): (r: Result<int>)
    requires Min(w) <= acc <= Max(w)
    requires if negative then acc <= 0 else acc >= 0
    ensures r.Ok? ==> Min(w) <= r.value <= Max(w)
    ensures r.Ok? ==> (if negative then r.value <= acc else acc <= r.value)
    ensures r.Err? ==> r.message in {InvalidDigitMessage, PosOverflowMessage, NegOverflowMessage}
    ensures !r.Abort?
    decreases ds
  {
    if ds == [] then Ok(acc)
    else if !IsDigit(ds[0]) then Err(InvalidDigitMessage)
    else if negative then
      var next := acc * 10 - DigitValue(ds[0]);
      if next < Min(w) then Err(NegOverflowMessage) else Accumulate(ds[1..], negative, next, w)
    else
      var next := acc * 10 + DigitValue(ds[0]);
      if next > Max(w) then Err(PosOverflowMessage) else Accumulate(ds[1..], negative, next, w)
  }

  /** `s.parse::<T>()` for the integer type `T` of width `w`. */
  function ParseInt(s: string, w: Width): (r: Result<int>)
    ensures r.Ok? ==> Min(w) <= r.value <= Max(w)
    ensures s == [] <==> r == Err(EmptyMessage)
    ensures !r.Abort?
  {
    if s == [] then Err(EmptyMessage)
    else if s == "+" || s == "-" then Err(InvalidDigitMessage)
    else if s[0] == '+' then Accumulate(s[1..], false, 0, w)
    else if s[0] == '-' && Signed(w) then Accumulate(s[1..], true, 0, w)
    else Accumulate(s, false, 0, w)
  }

  /** The sign a text starts with (a '-' only counts for a signed width) and
      the digits that should follow it. */
  function SignAndDigits(s: string, w: Width): (bool, string) {
    if |s| > 0 && s[0] == '+' then (false, s[1..])
    else if |s| > 0 && s[0] == '-' && Signed(w) then (true, s[1..])
    else (false, s)
  }

  /** Reference reading of an integer literal: an optional sign, then one or
      more ASCII digits, whose signed value lies within the width. */
  predicate Denotes(s: string, w: Width, v: int) {
    var (negative, ds) := SignAndDigits(s, w);
    |ds| >= 1 && AllDigits(ds)
    && v == (if negative then -(Fold(0, ds) as int) else Fold(0, ds))
    && Min(w) <= v <= Max(w)
  }

  lemma {:induction false} AccumulateOk(ds: string, negative: bool, acc: int, w: Width)
    requires Min(w) <= acc <= Max(w)
    requires if negative then acc <= 0 else acc >= 0
    requires Accumulate(ds, negative, acc, w).Ok?
    ensures AllDigits(ds)
    ensures Accumulate(ds, negative, acc, w).value
            == (if negative then -(Fold(-acc, ds) as int) else Fold(acc, ds))
    decreases ds
  {
    if ds != [] {
      var d := DigitValue(ds[0]);
      var next := if negative then acc * 10 - d else acc * 10 + d;
      AccumulateOk(ds[1..], negative, next, w);
      assert ds == [ds[0]] + ds[1..];
    }
  }

  lemma {:induction false} AccumulatePositive(ds: string, acc: nat, w: Width)
    requires AllDigits(ds)
    requires acc <= Max(w) && Fold(acc, ds) <= Max(w)
    ensures Accumulate(ds, false, acc, w) == Ok(Fold(acc, ds))
    decreases ds
  {
    if ds != [] {
      var next := acc * 10 + DigitValue(ds[0]);
      assert Fold(acc, ds) == Fold(next, ds[1..]);
      AccumulatePositive(ds[1..], next, w);
    }
  }

  lemma {:induction false} AccumulateNegative(ds: string, mag: nat, w: Width)
    requires AllDigits(ds)
    requires Min(w) <= -(mag as int) && Min(w) <= -(Fold(mag, ds) as int)
    ensures Accumulate(ds, true, -(mag as int), w) == Ok(-(Fold(mag, ds) as int))
    decreases ds
  {
    if ds != [] {
      var next := mag * 10 + DigitValue(ds[0]);
      assert Fold(mag, ds) == Fold(next, ds[1..]);
      assert -(mag as int) * 10 - DigitValue(ds[0]) == -(next as int);
      AccumulateNegative(ds[1..], next, w);
    }
  }

  lemma AccumulateDigits(ds: string, negative: bool, w: Width)
    requires AllDigits(ds)
    requires if negative then Min(w) <= -(Fold(0, ds) as int) else Fold(0, ds) <= Max(w)
    ensures Accumulate(ds, negative, 0, w) == Ok(if negative then -(Fold(0, ds) as int) else Fold(0, ds))
  {
    if negative {
      AccumulateNegative(ds, 0, w);
    } else {
      AccumulatePositive(ds, 0, w);
    }
  }

  /** The parse succeeds with `v` exactly when the text denotes `v`: leading
      zeros and a '+' are accepted, anything else but digits is not, and
      overflow is an error rather than a wrap-around. */
  lemma ParseIntDenotes(s: string, w: Width, v: int)
    ensures ParseInt(s, w) == Ok(v) <==> Denotes(s, w, v)
  {
    var (negative, ds) := SignAndDigits(s, w);
    if ParseInt(s, w) == Ok(v) {
      if s[0] == '+' {
        AccumulateOk(s[1..], false, 0, w);
      } else if s[0] == '-' && Signed(w) {
        AccumulateOk(s[1..], true, 0, w);
      } else {
        AccumulateOk(s, false, 0, w);
      }
    }
    if Denotes(s, w, v) {
      AccumulateDigits(ds, negative, w);
    }
  }

  function DigitChar(d: nat): (c: char)
    requires d < 10
    ensures IsDigit(c) && DigitValue(c) == d
  {
    ('0' as int + d) as char
  }

  /** The decimal digits of `n`, without leading zeros. */
  function Decimal(n: nat): (s: string)
    ensures |s| >= 1 && AllDigits(s)
    ensures s[0] == '0' ==> n == 0
  {
    if n < 10 then [DigitChar(n)] else Decimal(n / 10) + [DigitChar(n % 10)]
  }

  /** The decimal text of an integer, with a leading '-' when it is negative. */
  function Show(n: int): string {
    if n < 0 then "-" + Decimal(-n) else Decimal(n)
  }

  lemma {:induction false} FoldSnoc(acc: nat, ds: string, c: char)
    requires AllDigits(ds) && IsDigit(c)
    ensures AllDigits(ds + [c])
    ensures Fold(acc, ds + [c]) == Fold(acc, ds) * 10 + DigitValue(c)
    decreases ds
  {
    if ds == [] {
      assert ds + [c] == [c];
    } else {
      assert (ds + [c])[1..] == ds[1..] + [c];
      FoldSnoc(acc * 10 + DigitValue(ds[0]), ds[1..], c);
    }
  }

  lemma {:induction false} DecimalValue(n: nat)
    ensures Fold(0, Decimal(n)) == n
    decreases n
  {
    if n >= 10 {
      DecimalValue(n / 10);
      FoldSnoc(0, Decimal(n / 10), DigitChar(n % 10));
    }
  }

  /** Round trip: every integer of the width parses back from its decimal text. */
  lemma ParseShow(n: int, w: Width)
    requires Min(w) <= n <= Max(w)
    ensures ParseInt(Show(n), w) == Ok(n)
  {
    if n < 0 {
      DecimalValue(-n);
      assert SignAndDigits(Show(n), w) == (true, Decimal(-n));
    } else {
      DecimalValue(n);
      assert SignAndDigits(Show(n), w) == (false, Decimal(n));
    }
    ParseIntDenotes(Show(n), w, n);
  }
}
