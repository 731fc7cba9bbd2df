/** Shared vocabulary: optional values, machine integers, and byte strings.

    A `string` here is the UTF-8 encoding of the program's string, one `char` per byte, so `|s|`
    is the byte length and `StrLe` is the byte-wise order that Rust uses on strings.
 */
module Prelude {

  datatype Option<+T> = None | Some(value: T)

  datatype Result<+T, +E> = Ok(value: T) | Err(error: E)

  const I64_MIN := -0x8000_0000_0000_0000
  const I64_MAX := 0x7FFF_FFFF_FFFF_FFFF
  const U64_MAX := 0xFFFF_FFFF_FFFF_FFFF

  /** Millisecond timestamps and durations. */
  type I64 = x: int | I64_MIN <= x <= I64_MAX

  /** The unsigned 64-bit range, used for the token sequence and for sizes. */
  type U64 = x: int | 0 <= x <= U64_MAX

  function Min(a: int, b: int): int {
    if a <= b then a else b
  }

  function Max(a: int, b: int): int {
    if a <= b then b else a
  }

  /** Saturates an exact result to the signed 64-bit range. */
  function ClampI64(x: int): (r: I64)
    ensures I64_MIN <= x <= I64_MAX ==> r == x
    ensures x > I64_MAX ==> r == I64_MAX
    ensures x < I64_MIN ==> r == I64_MIN
  {
    if x < I64_MIN then I64_MIN else if x > I64_MAX then I64_MAX else x
  }

  function SatAdd(a: I64, b: I64): I64 {
    ClampI64(a + b)
  }

  function SatMul(a: I64, b: I64): I64 {
    ClampI64(a * b)
  }

  /** Rust's `/` on signed integers truncates toward zero; Dafny's rounds down for positive divisors. */
  function TruncDiv(a: int, b: int): int
    requires b > 0
  {
    if a >= 0 then a / b else -((-a) / b)
  }

  // ----- Byte-wise string order -----

  predicate StrLe(a: string, b: string) {
    if a == [] then true
    else if b == [] then false
    else a[0] < b[0] || (a[0] == b[0] && StrLe(a[1..], b[1..]))
  }

  lemma {:induction false} StrLeReflexive(a: string)
    ensures StrLe(a, a)
  {
    if a != [] {
      StrLeReflexive(a[1..]);
    }
  }

  lemma {:induction false} StrLeTotal(a: string, b: string)
    ensures StrLe(a, b) || StrLe(b, a)
  {
    if a != [] && b != [] && a[0] == b[0] {
      StrLeTotal(a[1..], b[1..]);
    }
  }

  lemma {:induction false} StrLeAntisymmetric(a: string, b: string)
    requires StrLe(a, b) && StrLe(b, a)
    ensures a == b
  {
    if a != [] && b != [] {
      StrLeAntisymmetric(a[1..], b[1..]);
      assert a == [a[0]] + a[1..] && b == [b[0]] + b[1..];
    }
  }

  lemma {:induction false} StrLeTransitive(a: string, b: string, c: string)
    requires StrLe(a, b) && StrLe(b, c)
    ensures StrLe(a, c)
  {
    if a != [] && a[0] == b[0] && b[0] == c[0] {
      StrLeTransitive(a[1..], b[1..], c[1..]);
    }
  }

  /** Byte-wise lexicographic order, without recursion: a prefix, or smaller where the two first differ. */
  ghost predicate LexLe(a: string, b: string) {
    a <= b || exists i :: 0 <= i < |a| && i < |b| && a[..i] == b[..i] && a[i] < b[i]
  }

  lemma {:induction false} StrLeIsLex(a: string, b: string)
    ensures StrLe(a, b) <==> LexLe(a, b)
  {
    if a != [] && b != [] && a[0] == b[0] {
      StrLeIsLex(a[1..], b[1..]);
      LexTail(a, b);
    } else if a != [] && b != [] && a[0] < b[0] {
      assert a[..0] == b[..0];
    }
  }

  lemma LexTail(a: string, b: string)
    requires a != [] && b != [] && a[0] == b[0]
    ensures LexLe(a, b) <==> LexLe(a[1..], b[1..])
  {
    assert a == [a[0]] + a[1..] && b == [b[0]] + b[1..];
    if a[1..] <= b[1..] {
      assert a <= b;
    } else if LexLe(a[1..], b[1..]) {
      var i :| 0 <= i < |a| - 1 && i < |b| - 1 && a[1..][..i] == b[1..][..i] && a[1..][i] < b[1..][i];
      assert a[..i + 1] == [a[0]] + a[1..][..i] && b[..i + 1] == [b[0]] + b[1..][..i];
      assert a[i + 1] < b[i + 1];
    }
    if !(a <= b) && LexLe(a, b) {
      var i :| 0 <= i < |a| && i < |b| && a[..i] == b[..i] && a[i] < b[i];
      assert a[1..][..i - 1] == a[..i][1..] && b[1..][..i - 1] == b[..i][1..];
      assert a[1..][i - 1] < b[1..][i - 1];
    }
  }

  // ----- Decimal rendering -----

  const DIGITS := "0123456789"

  /** What `{}` prints for an unsigned integer. */
  function Decimal(n: nat): (s: string)
    ensures s != []
    ensures forall c <- s :: c in DIGITS
  {
    var last := [DIGITS[n % 10]];
    if n < 10 then last else Decimal(n / 10) + last
  }

  /** Reads a digit string; any other character counts as zero. */
  function DecimalValue(s: string): nat {
    if s == [] then 0
    else
      var last := s[|s| - 1];
      10 * DecimalValue(s[..|s| - 1]) + if '0' <= last <= '9' then (last - '0') as nat else 0
  }

  lemma {:induction false} DecimalRoundTrip(n: nat)
    ensures DecimalValue(Decimal(n)) == n
  {
    var s := Decimal(n);
    assert DIGITS[n % 10] == '0' + (n % 10) as char;
    if n >= 10 {
      DecimalRoundTrip(n / 10);
      assert s[..|s| - 1] == Decimal(n / 10);
    }
  }

  /** The part of a string after its last dash; the whole string if it has none. */
  function AfterLastDash(s: string): string {
    if s == [] || s[|s| - 1] == '-' then []
    else AfterLastDash(s[..|s| - 1]) + [s[|s| - 1]]
  }

  lemma {:induction false} AfterLastDashOfSuffix(head: string, tail: string)
    requires '-' !in tail
    ensures AfterLastDash(head + "-" + tail) == tail
  {
    var s := head + "-" + tail;
    if tail != [] {
      var shorter := tail[..|tail| - 1];
      assert s[..|s| - 1] == head + "-" + shorter;
      AfterLastDashOfSuffix(head, shorter);
      assert shorter + [tail[|tail| - 1]] == tail;
    }
  }
}
