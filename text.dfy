/** Text and number formatting used by the header generator: ASCII upper-casing,
    character replacement, newline joining, positional numerals (Python's `%x`,
    `%d` and `hex()` for non-negative integers) and the bit arithmetic behind
    field masks. */
module Text {

  // ---------------------------------------------------------------------------
  // Characters and strings

  predicate IsLowerAscii(c: char) { 'a' <= c <= 'z' }

  /** `str.upper()` on one character, for the ASCII letters. */
  function UpperChar(c: char): (u: char)
    ensures !IsLowerAscii(u)
    ensures IsLowerAscii(c) ==> u as int == c as int - 32
    ensures !IsLowerAscii(c) ==> u == c
  {
    if IsLowerAscii(c) then (c as int - 32) as char else c
  }

  /** `str.upper()`: every ASCII lower-case letter becomes upper-case, every other
      character is kept. */
  function Upper(s: string): (r: string)
    ensures |r| == |s|
    ensures forall i :: 0 <= i < |s| ==> r[i] == UpperChar(s[i])
  {
    if s == [] then [] else [UpperChar(s[0])] + Upper(s[1..])
  }

  lemma UpperAppend(a: string, b: string)
    ensures Upper(a + b) == Upper(a) + Upper(b)
  {
    assert forall i :: 0 <= i < |a + b| ==> Upper(a + b)[i] == (Upper(a) + Upper(b))[i];
  }

  /** `str.replace(from, to)` for single-character arguments. */
  function ReplaceChar(s: string, from: char, to: char): (r: string)
    ensures |r| == |s|
    ensures forall i :: 0 <= i < |s| ==> r[i] == (if s[i] == from then to else s[i])
  {
    if s == [] then [] else [if s[0] == from then to else s[0]] + ReplaceChar(s[1..], from, to)
  }

  lemma ReplaceCharAppend(a: string, b: string, from: char, to: char)
    ensures ReplaceChar(a + b, from, to) == ReplaceChar(a, from, to) + ReplaceChar(b, from, to)
  {
    assert forall i :: 0 <= i < |a + b| ==>
      ReplaceChar(a + b, from, to)[i] == (ReplaceChar(a, from, to) + ReplaceChar(b, from, to))[i];
  }

  /** `"\n".join(lines)`. */
  function JoinLines(lines: seq<string>): string
  {
    if |lines| == 0 then ""
    else if |lines| == 1 then lines[0]
    else JoinLines(lines[..|lines| - 1]) + "\n" + lines[|lines| - 1]
  }

  /** The concatenation of a sequence of sequences, in order. */
  function Concat<T>(xss: seq<seq<T>>): seq<T>
  {
    if xss == [] then [] else Concat(xss[..|xss| - 1]) + xss[|xss| - 1]
  }

  /** Sequence concatenation is associative; stated once so that large terms need not be compared element by element. */
  lemma AppendAssociative<T>(a: seq<T>, b: seq<T>, c: seq<T>)
    ensures (a + b) + c == a + (b + c)
  {
  }

  /** A concatenation splits back into its two parts. */
  lemma SplitAppend<T>(p: seq<T>, q: seq<T>)
    ensures (p + q)[..|p|] == p && (p + q)[|p|..] == q
  {
  }

  lemma ConcatSnoc<T>(xss: seq<seq<T>>, x: seq<T>)
    ensures Concat(xss + [x]) == Concat(xss) + x
  {
    assert (xss + [x])[..|xss|] == xss;
  }

  /** Concatenating two-element pieces: piece k supplies positions 2k and 2k + 1. */
  lemma {:induction false} ConcatPairs<T>(xss: seq<seq<T>>)
    requires forall i :: 0 <= i < |xss| ==> |xss[i]| == 2
    ensures |Concat(xss)| == 2 * |xss|
    ensures forall k :: 0 <= k < |xss| ==> Concat(xss)[2 * k] == xss[k][0] && Concat(xss)[2 * k + 1] == xss[k][1]
  {
    if xss != [] {
      var init := xss[..|xss| - 1];
      ConcatPairs(init);
      forall k | 0 <= k < |xss|
        ensures Concat(xss)[2 * k] == xss[k][0] && Concat(xss)[2 * k + 1] == xss[k][1]
      {
        if k < |init| {
          assert xss[k] == init[k];
        }
      }
    }
  }

  // ---------------------------------------------------------------------------
  // Positional numerals

  predicate IsLowerHexDigit(c: char) { '0' <= c <= '9' || 'a' <= c <= 'f' }

  /** The digit character for a digit value below sixteen, lower-case as `%x` writes it. */
  function DigitChar(d: nat): (c: char)
    requires d < 16
    ensures IsLowerHexDigit(c)
  {
    if d < 10 then ('0' as int + d) as char else ('a' as int + (d - 10)) as char
  }

  /** The value of a digit character; upper-case letters are read as Python's `int(s, 16)` reads them. */
  function DigitValue(c: char): nat
  {
    if '0' <= c <= '9' then c as int - '0' as int
    else if 'a' <= c <= 'f' then c as int - 'a' as int + 10
    else if 'A' <= c <= 'F' then c as int - 'A' as int + 10
    else 0
  }

  lemma DigitValueOfDigitChar(d: nat)
    requires d < 16
    ensures DigitValue(DigitChar(d)) == d
  {
  }

  /** Euclidean division by a base of at least two, and the shrinking it guarantees. */
  lemma DivModBase(n: nat, base: nat)
    requires 2 <= base
    ensures (n / base) * base + n % base == n && n % base < base
    ensures n >= base ==> 1 <= n / base < n
  {
    var q, r := n / base, n % base;
    assert q * base + r == n;
    if n >= base {
      assert q != 0;
      AtLeastDouble(q, base);
    }
  }

  lemma AtLeastDouble(q: nat, base: nat)
    requires 2 <= base
    ensures q * base >= q + q
  {
    assert q * base == q * 2 + q * (base - 2);
  }

  /** The canonical numeral of `n` in `base`: most significant digit first, no leading
      zeros, lower-case letters (Python's `"%x" % n`, `"%d" % n`, and `hex(n)` without "0x"). */
  function Numeral(n: nat, base: nat): (r: string)
    requires 2 <= base <= 16
    ensures |r| >= 1
    ensures forall i :: 0 <= i < |r| ==> IsLowerHexDigit(r[i]) && DigitValue(r[i]) < base
    ensures r[0] == '0' ==> n == 0
    decreases n
  {
    if n < base then [DigitChar(n)]
    else
      DivModBase(n, base);
      Numeral(n / base, base) + [DigitChar(n % base)]
  }

  /** Reads a numeral in `base`, most significant digit first (Python's `int(s, base)`
      on well-formed digits; the empty string, which Python rejects, reads as 0 here). */
  function ParseNumeral(s: string, base: nat): nat
  {
    if s == [] then 0 else ParseNumeral(s[..|s| - 1], base) * base + DigitValue(s[|s| - 1])
  }

  function Hex(n: nat): string { Numeral(n, 16) }

  function Decimal(n: nat): string { Numeral(n, 10) }

  /** Reading back a numeral gives the number it was written from. */
  lemma {:induction false} NumeralRoundTrip(n: nat, base: nat)
    requires 2 <= base <= 16
    ensures ParseNumeral(Numeral(n, base), base) == n
    decreases n
  {
    var s := Numeral(n, base);
    if n < base {
      DigitValueOfDigitChar(n);
      assert s[..|s| - 1] == [];
    } else {
      DivModBase(n, base);
      NumeralRoundTrip(n / base, base);
      DigitValueOfDigitChar(n % base);
      assert s[..|s| - 1] == Numeral(n / base, base);
    }
  }

  /** Different numbers have different numerals. */
  lemma NumeralInjective(m: nat, n: nat, base: nat)
    requires 2 <= base <= 16
    requires Numeral(m, base) == Numeral(n, base)
    ensures m == n
  {
    NumeralRoundTrip(m, base);
    NumeralRoundTrip(n, base);
  }

  // ---------------------------------------------------------------------------
  // Powers of two and bits

  function Pow2(n: nat): (r: nat)
    ensures r >= 1
  {
    if n == 0 then 1 else 2 * Pow2(n - 1)
  }

  /** Bit `i` of `n`: `(n >> i) & 1`. */
  function Bit(n: nat, i: nat): (b: nat)
    ensures b < 2
  {
    if i == 0 then n % 2 else Bit(n / 2, i - 1)
  }

  /** The string of `w` ones that the source builds with `'1' * width`. */
  function Ones(w: nat): (r: string)
    ensures |r| == w
    ensures forall i :: 0 <= i < w ==> r[i] == '1'
  {
    if w == 0 then [] else Ones(w - 1) + ['1']
  }

  /** `int('1' * w, 2)` is 2^w - 1. */
  lemma {:induction false} OnesValue(w: nat)
    ensures ParseNumeral(Ones(w), 2) == Pow2(w) - 1
  {
    if w > 0 {
      OnesValue(w - 1);
      assert Ones(w)[..w - 1] == Ones(w - 1);
    }
  }

  lemma {:induction false} BitOfZero(i: nat)
    ensures Bit(0, i) == 0
  {
    if i > 0 {
      BitOfZero(i - 1);
    }
  }
}
