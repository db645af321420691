/** The optional-value and result wrappers shared by every module of the model. */
module Options {

  /** The conventional Some/None datatype, standing for Rust's `Option<T>`. */
  datatype Option<+T> = None | Some(value: T)

  /** Rust's `Result<T, String>`. */
  datatype Result<+T> = Ok(value: T) | Err(error: string)
}

/**
 * Machine integer widths and the textual number formats the front-end relies on:
 * Rust's `str::parse::<u64>`, `u64::from_str_radix(_, 16)`, `u64::to_string` and the
 * saturating `usize` arithmetic of the scroll and range code (64-bit target).
 */
module Numeric {
  import opened Options

  const U64_MAX: int := 0xFFFF_FFFF_FFFF_FFFF
  const USIZE_MAX: int := 0xFFFF_FFFF_FFFF_FFFF

  type u64 = x: int | 0 <= x <= U64_MAX
  type byte = x: int | 0 <= x < 256
  type usize = x: int | 0 <= x <= USIZE_MAX

  /** `usize::saturating_add`. */
  function SatAdd(a: usize, b: usize): usize
  {
    if a + b <= USIZE_MAX then a + b else USIZE_MAX
  }

  /** `usize::saturating_sub`. */
  function SatSub(a: usize, b: usize): usize
  {
    if a >= b then a - b else 0
  }

  function Min(a: int, b: int): int { if a <= b then a else b }

  function Max(a: int, b: int): int { if a >= b then a else b }

  // ---------------------------------------------------------------- decimal

  predicate IsDecDigit(c: char) { '0' <= c <= '9' }

  predicate AllDecDigits(s: string)
  {
    forall i | 0 <= i < |s| :: IsDecDigit(s[i])
  }

  /** The number a string of decimal digits denotes, read most significant digit first. */
  function DecValue(ds: string): nat
    requires AllDecDigits(ds)
  {
    if |ds| == 0 then 0
    else DecValue(ds[..|ds| - 1]) * 10 + (ds[|ds| - 1] as int - '0' as int)
  }

  /**
   * Rust's `str::parse::<u64>`: an optional leading `+`, then at least one decimal digit
   * and nothing else; a value above `u64::MAX` is an error.
   */
  function ParseU64(s: string): (r: Option<u64>)
    ensures r.Some? ==> |s| > 0
    ensures r.Some? && !(s[0] == '+') ==> AllDecDigits(s) && r.value == DecValue(s)
    ensures r.Some? && s[0] == '+' ==> |s| > 1 && AllDecDigits(s[1..]) && r.value == DecValue(s[1..])
    ensures |s| > 0 && AllDecDigits(s) ==> (r.Some? <==> DecValue(s) <= U64_MAX)
    ensures |s| > 1 && s[0] == '+' && AllDecDigits(s[1..]) ==> (r.Some? <==> DecValue(s[1..]) <= U64_MAX)
  {
    var ds := if |s| > 0 && s[0] == '+' then s[1..] else s;
    if |ds| == 0 || !AllDecDigits(ds) then None
    else if DecValue(ds) > U64_MAX then None
    else Some(DecValue(ds))
  }

  function DigitChar(d: nat): (c: char)
    requires d < 10
    ensures IsDecDigit(c) && c as int - '0' as int == d
  {
    ('0' as int + d) as char
  }

  /** `u64::to_string`: the shortest decimal text of `n`. */
  function DecimalText(n: nat): (s: string)
    ensures |s| > 0 && AllDecDigits(s)
  {
    if n < 10 then [DigitChar(n)] else DecimalText(n / 10) + [DigitChar(n % 10)]
  }

  /** Decimal text read back gives the number it was written from. */
  lemma {:induction false} DecimalTextValue(n: nat)
    ensures DecValue(DecimalText(n)) == n
  {
    if n >= 10 {
      DecimalTextValue(n / 10);
      var s := DecimalText(n);
      assert s[..|s| - 1] == DecimalText(n / 10);
    }
  }

  /** `parse::<u64>` inverts `to_string` on every `u64`. */
  lemma ParseDecimalText(n: u64)
    ensures ParseU64(DecimalText(n)) == Some(n)
  {
    DecimalTextValue(n);
  }

  /** A number's decimal text never starts with `0` unless the number is 0 (it is canonical). */
  lemma {:induction false} DecimalTextCanonical(n: nat)
    ensures DecimalText(n)[0] == '0' <==> n == 0
  {
    if n >= 10 {
      DecimalTextCanonical(n / 10);
    }
  }

  // ---------------------------------------------------------------- hexadecimal

  predicate IsHexDigit(c: char)
  {
    ('0' <= c <= '9') || ('a' <= c <= 'f') || ('A' <= c <= 'F')
  }

  predicate AllHexDigits(s: string)
  {
    forall i | 0 <= i < |s| :: IsHexDigit(s[i])
  }

  function HexDigitValue(c: char): (d: nat)
    requires IsHexDigit(c)
    ensures d < 16
  {
    if '0' <= c <= '9' then c as int - '0' as int
    else if 'a' <= c <= 'f' then c as int - 'a' as int + 10
    else c as int - 'A' as int + 10
  }

  /** The number a string of hexadecimal digits denotes, most significant digit first. */
  function HexValue(ds: string): nat
    requires AllHexDigits(ds)
  {
    if |ds| == 0 then 0
    else HexValue(ds[..|ds| - 1]) * 16 + HexDigitValue(ds[|ds| - 1])
  }

  /**
   * Rust's `u64::from_str_radix(s, 16)`: an optional leading `+`, then at least one hex
   * digit of either case; a value above `u64::MAX` is an error.
   */
  function ParseHexU64(s: string): (r: Option<u64>)
    ensures r.Some? ==> |s| > 0
    ensures r.Some? && s[0] != '+' ==> AllHexDigits(s) && r.value == HexValue(s)
    ensures r.Some? && s[0] == '+' ==> |s| > 1 && AllHexDigits(s[1..]) && r.value == HexValue(s[1..])
    ensures |s| > 0 && AllHexDigits(s) ==> (r.Some? <==> HexValue(s) <= U64_MAX)
    ensures |s| > 1 && s[0] == '+' && AllHexDigits(s[1..]) ==> (r.Some? <==> HexValue(s[1..]) <= U64_MAX)
  {
    var ds := if |s| > 0 && s[0] == '+' then s[1..] else s;
    if |ds| == 0 || !AllHexDigits(ds) then None
    else if HexValue(ds) > U64_MAX then None
    else Some(HexValue(ds))
  }

  /**
   * A `0x`-prefixed hexadecimal address, as `get_line_id` reads it and as the address
   * table builder's `addr_to_u64` is taken to read it.
   */
  function ParseHexAddr(s: string): (r: Option<u64>)
    ensures r.Some? ==> |s| > 2 && s[..2] == "0x"
  {
    if |s| >= 2 && s[..2] == "0x" then ParseHexU64(s[2..]) else None
  }

  function HexDigitChar(d: nat): (c: char)
    requires d < 16
    ensures IsHexDigit(c) && HexDigitValue(c) == d
  {
    if d < 10 then ('0' as int + d) as char else ('a' as int + d - 10) as char
  }

  /** Lower-case hexadecimal text of `n`, as GDB prints addresses (without the prefix). */
  function HexText(n: nat): (s: string)
    ensures |s| > 0 && AllHexDigits(s)
  {
    if n < 16 then [HexDigitChar(n)] else HexText(n / 16) + [HexDigitChar(n % 16)]
  }

  lemma {:induction false} HexTextValue(n: nat)
    ensures HexValue(HexText(n)) == n
  {
    if n >= 16 {
      HexTextValue(n / 16);
      var s := HexText(n);
      assert s[..|s| - 1] == HexText(n / 16);
    }
  }

  /** Leading zeros do not change a hexadecimal value (GDB pads addresses with them). */
  lemma {:induction false} HexLeadingZeros(z: nat, ds: string)
    requires AllHexDigits(ds)
    ensures AllHexDigits(Zeros(z) + ds)
    ensures HexValue(Zeros(z) + ds) == HexValue(ds)
    decreases |ds|
  {
    var s := Zeros(z) + ds;
    assert AllHexDigits(s) by {
      forall i | 0 <= i < |s| ensures IsHexDigit(s[i]) {
        if i < z { assert s[i] == '0'; } else { assert s[i] == ds[i - z]; }
      }
    }
    if |ds| == 0 {
      ZerosValue(z);
      assert s == Zeros(z);
    } else {
      var init := ds[..|ds| - 1];
      HexLeadingZeros(z, init);
      assert s[..|s| - 1] == Zeros(z) + init;
      assert s[|s| - 1] == ds[|ds| - 1];
    }
  }

  function Zeros(z: nat): (s: string)
    ensures |s| == z && forall i | 0 <= i < z :: s[i] == '0'
  {
    if z == 0 then "" else Zeros(z - 1) + "0"
  }

  lemma {:induction false} ZerosValue(z: nat)
    ensures AllHexDigits(Zeros(z)) && HexValue(Zeros(z)) == 0
  {
    if z > 0 {
      ZerosValue(z - 1);
      assert Zeros(z)[..z - 1] == Zeros(z - 1);
    }
  }

  /**
   * `0x`, any number of padding zeros, then the hexadecimal text of `n`, reads back as `n`:
   * both `0x1a` and GDB's padded `0x000001a` denote 0x1a.
   */
  lemma ParsePaddedHexAddr(z: nat, n: u64)
    ensures ParseHexAddr("0x" + Zeros(z) + HexText(n)) == Some(n)
  {
    var t := Zeros(z) + HexText(n);
    assert ParseHexU64(t) == Some(n) by {
      HexTextValue(n);
      HexLeadingZeros(z, HexText(n));
      assert IsHexDigit(t[0]);
    }
    var s := "0x" + t;
    assert s[..2] == "0x" && s[2..] == t;
    assert "0x" + Zeros(z) + HexText(n) == s;
  }
}
