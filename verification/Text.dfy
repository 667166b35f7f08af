/** Strings as the repository's Rust code sees them: Unicode scalar values, measured in UTF-8
    bytes, plus the decimal rendering that `format!` gives to numbers. */
module Text {

  /** Number of bytes the UTF-8 encoding of `c` takes. */
  function Width(c: char): (w: nat)
    ensures 1 <= w <= 4
  {
    var n := c as int;
    if n < 0x80 then 1 else if n < 0x800 then 2 else if n < 0x10000 then 3 else 4
  }

  function Pow2(n: nat): (p: nat)
    ensures p > 0
  {
    if n == 0 then 1 else 2 * Pow2(n - 1)
  }

  /** How many code points have room in `n` bytes of UTF-8 (section 3 of RFC 3629): one byte carries 7 bits; of several
      the first carries 7 - n and each other one 6. */
  function Room(n: nat): nat
    requires 1 <= n <= 4
  {
    if n == 1 then Pow2(7) else Pow2(7 - n + 6 * (n - 1))
  }

  /** A character takes as few bytes as have room for it. */
  lemma WidthIsLeast(c: char)
    ensures (c as int) < Room(Width(c))
    ensures Width(c) > 1 ==> c as int >= Room(Width(c) - 1)
  {
    assert Pow2(7) == 0x80 && Pow2(11) == 0x800;
    assert Pow2(16) == 0x10000 && Pow2(21) == 0x200000;
  }

  /** `str::len`: the length of a string in bytes. */
  function ByteLen(s: string): (n: nat)
    ensures n >= |s|
  {
    if s == [] then 0 else Width(s[0]) + ByteLen(s[1..])
  }

  lemma {:induction false} ByteLenConcat(a: string, b: string)
    ensures ByteLen(a + b) == ByteLen(a) + ByteLen(b)
  {
    if a == [] {
      assert a + b == b;
    } else {
      assert (a + b)[0] == a[0] && (a + b)[1..] == a[1..] + b;
      ByteLenConcat(a[1..], b);
    }
  }

  lemma Regroup<T>(a: seq<T>, b: seq<T>, c: seq<T>)
    ensures a + (b + c) == (a + b) + c
  {
  }

  predicate StartsWith(s: string, prefix: string) {
    prefix <= s
  }

  // ── decimal numbers ────────────────────────────────────────────────────────

  function Digit(d: nat): (c: char)
    requires d < 10
    ensures c as int == 48 + d
  {
    (48 + d) as char
  }

  /** The decimal digits of `n`, without leading zeros. */
  function Decimal(n: nat): (s: string)
    ensures |s| > 0
    ensures |s| == 1 <==> n < 10
  {
    if n < 10 then [Digit(n)] else Decimal(n / 10) + [Digit(n % 10)]
  }

  lemma {:induction false} DecimalInjective(m: nat, n: nat)
    requires Decimal(m) == Decimal(n)
    ensures m == n
  {
    var s, t := Decimal(m), Decimal(n);
    assert s[|s| - 1] == t[|t| - 1];
    assert m % 10 == n % 10;
    if m >= 10 && n >= 10 {
      assert Decimal(m / 10) == s[..|s| - 1] == t[..|t| - 1] == Decimal(n / 10);
      DecimalInjective(m / 10, n / 10);
    }
  }
}
