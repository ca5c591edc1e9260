/** Shared vocabulary of the model: the fixed-width integers of the Rust code,
    the outcome of an operation (a value, a returned error, a process exit or a
    panic), and the few pieces of the Rust standard library that the flasher's
    logic depends on: `from_str_radix`, ASCII case folding and substring search. */
module Base {

  type u8 = x: int | 0 <= x < 0x100
  type u16 = x: int | 0 <= x < 0x1_0000
  type u32 = x: int | 0 <= x < 0x1_0000_0000

  const U8Max: nat := 0xFF
  const U16Max: nat := 0xFFFF
  const U32Max: nat := 0xFFFF_FFFF
  const UsizeMax: nat := 0xFFFF_FFFF_FFFF_FFFF

  datatype Option<+T> = None | Some(value: T) {
    predicate IsFailure() { None? }
    function PropagateFailure<U>(): Option<U> requires None? { None }
    function Extract(): T requires Some? { value }
  }

  /** The status a `std::process::exit` call terminates with. */
  datatype ExitStatus =
    | ExitFailure   // exit(1)
    | NoMatchChip   // exit(ExitCode::NoMatchChip)

  /** The errors the core returns through `Result::Err`. */
  datatype Error =
    | FileOpenFailed        // std::fs::File::open failed
    | FileEmpty             // "file is empty"
    | NotUtf8               // read_to_string on bytes that are not text
    | InvalidDigit          // a ParseIntError from from_str_radix
    | NotSupportPeripheral  // "not support peripheral"
    | Timeout               // a serial read that returned no byte in time
    | AckError              // "ack error": a byte other than ACK was read
    | GetProbeFail          // "get probe fail": no probe identifier matched
    | AttachFailed          // probe-rs could not open, attach or reach core 0
    | ReadFailed            // probe-rs read_word_32 failed
    | NoMatch               // "no match chip"
    | PeripheralFailed      // an error of a peripheral the model treats as opaque

  /** What an operation of the flasher ends with: a value, an error returned to
      the caller, a `std::process::exit`, or a panic (an `unwrap` on an error, an
      out-of-range slice, `todo!()`). Failures propagate through `:-`. */
  datatype Outcome<+T> = Ok(value: T) | Err(error: Error) | Exit(status: ExitStatus) | Panic {
    predicate IsFailure() { !Ok? }
    function PropagateFailure<U>(): Outcome<U>
      requires !Ok?
    {
      if Err? then Err(error) else if Exit? then Exit(status) else Panic
    }
    function Extract(): T requires Ok? { value }
  }

  function Min(a: int, b: int): int { if a < b then a else b }
  function Max(a: int, b: int): int { if a < b then b else a }

  function Pow(b: nat, e: nat): (r: nat)
    ensures b >= 1 ==> r >= 1
  {
    if e == 0 then 1 else b * Pow(b, e - 1)
  }

  // ---------------------------------------------------------------------------
  // Integer parsing: `uN::from_str_radix(src, radix)` for an unsigned type whose
  // largest value is `max`.

  /** The digit value `char::to_digit(radix)` gives `c`, if it is a digit. */
  function DigitOf(c: char, radix: nat): Option<nat>
  {
    var d := if '0' <= c <= '9' then c as int - '0' as int
             else if 'a' <= c <= 'z' then c as int - 'a' as int + 10
             else if 'A' <= c <= 'Z' then c as int - 'A' as int + 10
             else 36;
    if d < radix then Some(d) else None
  }

  /** The value of a string of digits read most significant first. */
  function DigitsValue(s: string, radix: nat): Option<nat>
  {
    if s == [] then Some(0)
    else
      var high :- DigitsValue(s[..|s| - 1], radix);
      var d :- DigitOf(s[|s| - 1], radix);
      Some(high * radix + d)
  }

  /** `from_str_radix` for an unsigned type: an empty string, a lone '+', a
      non-digit or a value above `max` is an error; one leading '+' is allowed. */
  function FromStrRadix(s: string, radix: nat, max: nat): (r: Option<nat>)
    ensures r.Some? ==> r.value <= max
  {
    if s == [] || s == "+" then None
    else
      var digits := if s[0] == '+' then s[1..] else s;
      var v :- DigitsValue(digits, radix);
      if v <= max then Some(v) else None
  }

  predicate AllDigits(s: string, radix: nat)
  {
    forall i :: 0 <= i < |s| ==> DigitOf(s[i], radix).Some?
  }

  /** The strings `from_str_radix` accepts for a value that cannot overflow. */
  predicate IsNumeral(s: string, radix: nat)
  {
    (s != [] && AllDigits(s, radix)) || (|s| >= 2 && s[0] == '+' && AllDigits(s[1..], radix))
  }

  lemma {:induction false} DigitsValueSomeIff(s: string, radix: nat)
    ensures DigitsValue(s, radix).Some? <==> AllDigits(s, radix)
  {
    if s != [] {
      DigitsValueSomeIff(s[..|s| - 1], radix);
      assert AllDigits(s, radix) <==> AllDigits(s[..|s| - 1], radix) && DigitOf(s[|s| - 1], radix).Some? by {
        if AllDigits(s[..|s| - 1], radix) && DigitOf(s[|s| - 1], radix).Some? {
          forall i | 0 <= i < |s| ensures DigitOf(s[i], radix).Some? {
            if i < |s| - 1 { assert s[i] == s[..|s| - 1][i]; }
          }
        }
      }
    }
  }

  lemma {:induction false} DigitsValueBound(s: string, radix: nat)
    requires DigitsValue(s, radix).Some?
    ensures DigitsValue(s, radix).value < Pow(radix, |s|)
  {
    if s != [] {
      var init := s[..|s| - 1];
      DigitsValueBound(init, radix);
      NumBound(DigitsValue(init, radix).value, DigitOf(s[|s| - 1], radix).value, radix, Pow(radix, |s| - 1));
    }
  }

  lemma NumBound(h: nat, d: nat, r: nat, p: nat)
    requires h < p && d < r
    ensures h * r + d < r * p
  {
    assert h + 1 <= p;
    assert (h + 1) * r <= p * r;
  }

  lemma DivBound(n: nat, d: nat, b: nat)
    requires d >= 1 && n < d * b
    ensures n / d < b
  {
  }

  lemma DivMod(n: nat, r: nat)
    requires r >= 1
    ensures (n / r) * r + n % r == n
  {
  }

  /** A numeral whose digits cannot exceed `max` is accepted exactly when it is
      well formed: this is how "non-hex characters are an error" is stated. */
  lemma FromStrRadixOkIff(s: string, radix: nat, max: nat)
    requires 2 <= radix <= 16 && Pow(radix, |s|) <= max + 1
    ensures FromStrRadix(s, radix, max).Some? <==> IsNumeral(s, radix)
  {
    if s == [] || s == "+" {
      assert !IsNumeral(s, radix) by {
        if s == "+" { assert s[0] == '+'; assert DigitOf(s[0], radix).None?; }
      }
    } else {
      var digits := if s[0] == '+' then s[1..] else s;
      DigitsValueSomeIff(digits, radix);
      if DigitsValue(digits, radix).Some? {
        DigitsValueBound(digits, radix);
        PowMonotone(radix, |digits|, |s|);
      }
      if s[0] == '+' {
        assert !AllDigits(s, radix) by { assert DigitOf(s[0], radix).None?; }
      }
    }
  }

  lemma {:induction false} PowMonotone(b: nat, e1: nat, e2: nat)
    requires b >= 1 && e1 <= e2
    ensures Pow(b, e1) <= Pow(b, e2)
  {
    if e1 < e2 {
      PowMonotone(b, e1, e2 - 1);
      MulAtLeast(b, Pow(b, e2 - 1));
    }
  }

  lemma MulAtLeast(b: nat, p: nat)
    requires b >= 1
    ensures p <= b * p
  {
  }

  /** Formatting `n` with `width` upper-case digits, most significant first
      (what `format!("{:0w$X}", n)` produces for a value that fits). */
  function DigitChar(d: nat): char
    requires d < 36
  {
    if d < 10 then ('0' as int + d) as char else ('A' as int + d - 10) as char
  }

  function Numeral(n: nat, radix: nat, width: nat): (s: string)
    requires 2 <= radix <= 16
    ensures |s| == width
  {
    if width == 0 then [] else Numeral(n / radix, radix, width - 1) + [DigitChar(n % radix)]
  }

  /** Parsing inverts formatting. */
  lemma {:induction false} DigitsValueOfNumeral(n: nat, radix: nat, width: nat)
    requires 2 <= radix <= 16 && n < Pow(radix, width)
    ensures DigitsValue(Numeral(n, radix, width), radix) == Some(n)
    decreases width
  {
    if width > 0 {
      var q, d := n / radix, n % radix;
      var init := Numeral(q, radix, width - 1);
      assert Numeral(n, radix, width) == init + [DigitChar(d)];
      DivFacts(n, radix, Pow(radix, width - 1));
      DigitsValueOfNumeral(q, radix, width - 1);
      DigitCharOf(d, radix);
      SnocValue(init, DigitChar(d), radix, q, d, n);
    }
  }

  lemma SnocValue(s: string, c: char, radix: nat, q: nat, d: nat, n: nat)
    requires DigitsValue(s, radix) == Some(q) && DigitOf(c, radix) == Some(d) && q * radix + d == n
    ensures DigitsValue(s + [c], radix) == Some(n)
  {
    DigitsValueSnoc(s, c, radix);
  }

  lemma DivFacts(n: nat, r: nat, p: nat)
    requires r >= 2 && n < r * p
    ensures n / r < p && (n / r) * r + n % r == n && n % r < r
  {
    DivBound(n, r, p);
    DivMod(n, r);
  }

  lemma DigitsValueSnoc(s: string, c: char, radix: nat)
    ensures DigitsValue(s + [c], radix) ==
            if DigitsValue(s, radix).Some? && DigitOf(c, radix).Some?
            then Some(DigitsValue(s, radix).value * radix + DigitOf(c, radix).value)
            else None
  {
    assert (s + [c])[..|s|] == s;
  }

  /** Reading two strings of digits one after the other. */
  lemma {:induction false} DigitsValueAppend(a: string, b: string, radix: nat)
    requires DigitsValue(a, radix).Some? && DigitsValue(b, radix).Some?
    ensures DigitsValue(a + b, radix) ==
            Some(DigitsValue(a, radix).value * Pow(radix, |b|) + DigitsValue(b, radix).value)
    decreases |b|
  {
    if b == [] {
      assert a + b == a;
    } else {
      var init, c := b[..|b| - 1], b[|b| - 1];
      assert a + b == (a + init) + [c];
      assert b == init + [c];
      DigitsValueSnoc(init, c, radix);
      DigitsValueAppend(a, init, radix);
      DigitsValueSnoc(a + init, c, radix);
      ShiftStep(DigitsValue(a, radix).value, Pow(radix, |init|), DigitsValue(init, radix).value,
                radix, DigitOf(c, radix).value);
    }
  }

  lemma ShiftStep(x: nat, p: nat, y: nat, r: nat, d: nat)
    ensures (x * p + y) * r + d == x * (r * p) + (y * r + d)
  {
    assert (x * p + y) * r == x * p * r + y * r;
    assert x * p * r == x * (r * p);
  }

  lemma DigitCharOf(d: nat, radix: nat)
    requires d < radix <= 36
    ensures DigitOf(DigitChar(d), radix) == Some(d)
  {
  }

  /** Every numeral is read back as the value it was formatted from. */
  lemma FromStrRadixOfNumeral(n: nat, radix: nat, width: nat, max: nat)
    requires 2 <= radix <= 16 && width >= 1 && n < Pow(radix, width) && n <= max
    ensures FromStrRadix(Numeral(n, radix, width), radix, max) == Some(n)
  {
    DigitsValueOfNumeral(n, radix, width);
    NumeralDigits(n, radix, width);
    var s := Numeral(n, radix, width);
    assert DigitOf(s[0], radix).Some?;
  }

  /** Every character of a numeral is a digit. */
  lemma {:induction false} NumeralDigits(n: nat, radix: nat, width: nat)
    requires 2 <= radix <= 16
    ensures AllDigits(Numeral(n, radix, width), radix)
    decreases width
  {
    if width > 0 {
      NumeralDigits(n / radix, radix, width - 1);
      var s := Numeral(n, radix, width);
      var init := Numeral(n / radix, radix, width - 1);
      forall i | 0 <= i < |s| ensures DigitOf(s[i], radix).Some? {
        if i < |s| - 1 { assert s[i] == init[i]; }
      }
    }
  }

  // ---------------------------------------------------------------------------
  // Strings.

  /** `str::to_lowercase` on ASCII text. */
  function LowerChar(c: char): char
  {
    if 'A' <= c <= 'Z' then (c as int - 'A' as int + 'a' as int) as char else c
  }

  function Lower(s: string): (r: string)
  {
    if s == [] then [] else [LowerChar(s[0])] + Lower(s[1..])
  }

  lemma {:induction false} LowerLength(s: string)
    ensures |Lower(s)| == |s|
  {
    if s != [] { LowerLength(s[1..]); }
  }

  lemma {:induction false} LowerIdempotent(s: string)
    ensures Lower(Lower(s)) == Lower(s)
  {
    if s != [] {
      LowerIdempotent(s[1..]);
      assert Lower(s)[1..] == Lower(s[1..]);
    }
  }

  /** `haystack.contains(needle)`. */
  function Contains(haystack: string, needle: string): bool
    decreases |haystack|
  {
    needle <= haystack || (haystack != [] && Contains(haystack[1..], needle))
  }

  // ---------------------------------------------------------------------------
  // Bytes.

  /** Bitwise XOR of the low `n` bits of `a` and `b`, bit by bit. */
  function BitXor(a: nat, b: nat, n: nat): (r: nat)
    ensures r < Pow(2, n)
  {
    if n == 0 then 0 else (if a % 2 == b % 2 then 0 else 1) + 2 * BitXor(a / 2, b / 2, n - 1)
  }

  /** Bitwise XOR of two bytes (`a ^ b` on u8). */
  function Xor8(a: u8, b: u8): u8
  {
    assert Pow(2, 8) == 0x100;
    BitXor(a, b, 8)
  }

  /** Bitwise NOT of a byte (`!a` on u8). */
  function Not8(a: u8): u8
  {
    0xFF - a
  }

  /** XOR of all bytes of `s`, folded from the left and starting at 0. */
  function XorAll(s: seq<u8>): u8
  {
    if s == [] then 0 else Xor8(XorAll(s[..|s| - 1]), s[|s| - 1])
  }

  lemma {:induction false} BitXorSelf(a: nat, n: nat)
    ensures BitXor(a, a, n) == 0
  {
    if n > 0 { BitXorSelf(a / 2, n - 1); }
  }

  lemma {:induction false} BitXorZeroLeft(a: nat, n: nat)
    requires a < Pow(2, n)
    ensures BitXor(0, a, n) == a
  {
    if n > 0 {
      BitXorZeroLeft(a / 2, n - 1);
    }
  }

  lemma {:induction false} BitXorZero(a: nat, b: nat, n: nat)
    requires a < Pow(2, n) && b < Pow(2, n) && BitXor(a, b, n) == 0
    ensures a == b
  {
    if n > 0 {
      BitXorZero(a / 2, b / 2, n - 1);
    }
  }

  lemma XorSelf(a: u8)
    ensures Xor8(a, a) == 0
  {
    BitXorSelf(a, 8);
  }

  lemma XorZeroLeft(a: u8)
    ensures Xor8(0, a) == a
  {
    assert Pow(2, 8) == 0x100;
    BitXorZeroLeft(a, 8);
  }

  /** Appending the XOR of a sequence makes the XOR of the whole zero: the
      check a receiver of a bootloader frame performs. */
  lemma XorAllWithChecksum(s: seq<u8>)
    ensures XorAll(s + [XorAll(s)]) == 0
  {
    assert (s + [XorAll(s)])[..|s|] == s;
    XorSelf(XorAll(s));
  }

  lemma XorAllSingle(a: u8)
    ensures XorAll([a]) == a
  {
    assert [a][..0] == [];
    XorZeroLeft(a);
  }

  /** The only byte that brings the XOR of `s` to zero is the XOR of `s`. */
  lemma XorUnique(s: seq<u8>, c: u8)
    requires XorAll(s + [c]) == 0
    ensures c == XorAll(s)
  {
    assert (s + [c])[..|s|] == s;
    XorZeroMeansEqual(XorAll(s), c);
  }

  lemma XorZeroMeansEqual(x: u8, c: u8)
    requires Xor8(x, c) == 0
    ensures x == c
  {
    assert Pow(2, 8) == 0x100;
    BitXorZero(x, c, 8);
  }
}
