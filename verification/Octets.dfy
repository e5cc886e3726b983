// Byte strings and the three library searches the server relies on:
// std::find for one character, std::search for CRLF, and %d / %zd formatting.
module Octets {

  /** One C++ `char`, read as an unsigned byte. */
  type Octet = c: char | c as int < 256

  type Bytes = seq<Octet>

  const CRLF: Bytes := "\r\n"

  function Min(a: int, b: int): int {
    if a < b then a else b
  }

  function Max(a: int, b: int): int {
    if a < b then b else a
  }

  lemma Regroup<T>(a: seq<T>, b: seq<T>, c: seq<T>)
    ensures a + b + c == a + (b + c)
  {
  }

  lemma EmptyPrefix(a: Bytes)
    ensures [] + a == a
  {
  }

  // ---------- std::find ----------

  /** The first position of `c`, or `|s|` when there is none. */
  function Find(s: string, c: char): (n: nat)
    ensures n <= |s|
    ensures n < |s| ==> s[n] == c
  {
    FindFrom(s, c, 0)
  }

  function FindFrom(s: string, c: char, from: nat): (n: nat)
    requires from <= |s|
    ensures from <= n <= |s|
    ensures n < |s| ==> s[n] == c
    decreases |s| - from
  {
    if from == |s| || s[from] == c then from else FindFrom(s, c, from + 1)
  }

  /** `Find` is the first occurrence: this and its range determine it. */
  lemma FindUnique(s: string, c: char, n: nat)
    requires n <= |s|
    ensures Find(s, c) == n <==> (forall i :: 0 <= i < n ==> s[i] != c) && (n < |s| ==> s[n] == c)
  {
    FindIsFirst(s, c, 0);
  }

  lemma {:induction false} FindIsFirst(s: string, c: char, from: nat)
    requires from <= |s|
    ensures forall i :: from <= i < FindFrom(s, c, from) ==> s[i] != c
    decreases |s| - from
  {
    if from < |s| && s[from] != c {
      FindIsFirst(s, c, from + 1);
    }
  }

  // ---------- std::search for CRLF ----------

  predicate CrlfAt(s: string, i: int) {
    0 <= i && i + 1 < |s| && s[i] == '\r' && s[i + 1] == '\n'
  }

  /** No CR is directly followed by LF; a lone CR or LF is allowed. */
  ghost predicate CrlfFree(s: string) {
    forall i :: !CrlfAt(s, i)
  }

  /** The first CRLF, or `|s|` when there is none. */
  function Search(s: string): (n: nat)
    ensures n <= |s|
    ensures n < |s| ==> CrlfAt(s, n)
  {
    SearchFrom(s, 0)
  }

  function SearchFrom(s: string, from: nat): (n: nat)
    requires from <= |s|
    ensures from <= n <= |s|
    ensures n < |s| ==> CrlfAt(s, n)
    decreases |s| - from
  {
    if from == |s| || CrlfAt(s, from) then from else SearchFrom(s, from + 1)
  }

  /** `Search` is the first CRLF: this and its range determine it. */
  lemma SearchUnique(s: string, n: nat)
    requires n <= |s|
    ensures Search(s) == n <==> (forall i :: 0 <= i < n ==> !CrlfAt(s, i)) && (n < |s| ==> CrlfAt(s, n))
  {
    SearchIsFirst(s, 0);
  }

  lemma {:induction false} SearchIsFirst(s: string, from: nat)
    requires from <= |s|
    ensures forall i :: from <= i < SearchFrom(s, from) ==> !CrlfAt(s, i)
    decreases |s| - from
  {
    if from < |s| && !CrlfAt(s, from) {
      SearchIsFirst(s, from + 1);
    }
  }

  /** A CRLF-free line followed by CRLF is found whole, also when the line ends in CR. */
  lemma SearchLine(line: string, rest: string)
    requires CrlfFree(line)
    ensures Search(line + CRLF + rest) == |line|
  {
    var s := line + CRLF + rest;
    assert CrlfAt(s, |line|);
    assert forall i :: 0 <= i < |line| && CrlfAt(s, i) ==> CrlfAt(line, i);
    SearchUnique(s, |line|);
  }

  /** The text of a line, CRLF and the rest, cut at its first CRLF. */
  lemma FirstLineIs(line: string, rest: string)
    requires CrlfFree(line)
    ensures var s := line + CRLF + rest;
            Search(s) == |line| && s[..|line|] == line && s[|line| + 2..] == rest
  {
    SearchLine(line, rest);
  }

  /** A line once complete stays the first one, and what follows it grows, when more bytes arrive. */
  lemma FirstLineStays(a: string, b: string)
    requires Search(a) < |a|
    ensures var n := Search(a);
            && Search(a + b) == n
            && (a + b)[..n] == a[..n]
            && (a + b)[n + 2..] == a[n + 2..] + b
  {
    SearchStable(a, b);
  }

  lemma SearchStable(a: string, b: string)
    requires Search(a) < |a|
    ensures Search(a + b) == Search(a)
  {
    var n := Search(a);
    assert CrlfAt(a + b, n);
    assert forall i :: 0 <= i < n && CrlfAt(a + b, i) ==> CrlfAt(a, i);
    SearchUnique(a, n);
    SearchUnique(a + b, n);
  }

  lemma PrefixCrlf(s: string, n: nat)
    requires n <= |s|
    ensures forall i :: CrlfAt(s[..n], i) ==> i + 1 < n && CrlfAt(s, i)
  {
  }

  lemma CutAtCrlf(s: string, n: nat)
    requires CrlfAt(s, n)
    ensures s == s[..n] + CRLF + s[n + 2..]
  {
  }

  /** What lies before the first CRLF is a CRLF-free line. */
  lemma SearchSplit(s: string)
    requires Search(s) < |s|
    ensures CrlfFree(s[..Search(s)])
    ensures s == s[..Search(s)] + CRLF + s[Search(s) + 2..]
  {
    PrefixCrlf(s, Search(s));
    SearchUnique(s, Search(s));
    CutAtCrlf(s, Search(s));
  }

  // ---------- decimal numbers ----------

  function Digit(d: nat): Octet
    requires d < 10
  {
    (48 + d) as char
  }

  predicate IsDigit(c: char) {
    48 <= c as int < 58
  }

  /** What printf's %d and %zd print for a non-negative number. */
  function Decimal(n: nat): (s: Bytes)
    ensures |s| > 0
    ensures forall i :: 0 <= i < |s| ==> IsDigit(s[i])
  {
    if n < 10 then [Digit(n)] else Decimal(n / 10) + [Digit(n % 10)]
  }

  function DecimalValue(s: string): nat
    requires forall i :: 0 <= i < |s| ==> IsDigit(s[i])
  {
    if s == [] then 0
    else
      assert IsDigit(s[|s| - 1]);
      10 * DecimalValue(s[..|s| - 1]) + (s[|s| - 1] as int - 48)
  }

  lemma {:induction false} DecimalRoundTrip(n: nat)
    ensures DecimalValue(Decimal(n)) == n
    ensures n > 0 ==> Decimal(n)[0] != '0'
    ensures n < 10 ==> Decimal(n) == ["0123456789"[n]]
  {
    if n < 10 {
      assert Decimal(n)[..0] == [];
    } else {
      DecimalRoundTrip(n / 10);
      var s := Decimal(n);
      assert s[..|s| - 1] == Decimal(n / 10);
    }
  }

  function Pow10(k: nat): nat {
    if k == 0 then 1 else 10 * Pow10(k - 1)
  }

  lemma {:induction false} DecimalLength(n: nat, k: nat)
    requires k >= 1
    ensures |Decimal(n)| <= k <==> n < Pow10(k)
  {
    if n < 10 {
      Pow10AtLeast10(k);
    } else if k == 1 {
      assert Pow10(1) == 10 * Pow10(0);
    } else {
      DecimalLength(n / 10, k - 1);
    }
  }

  lemma {:induction false} Pow10AtLeast10(k: nat)
    requires k >= 1
    ensures Pow10(k) >= 10
  {
    if k > 1 {
      Pow10AtLeast10(k - 1);
    }
  }

  // ---------- big-endian two's complement integers ----------

  function Pow256(w: nat): (p: nat)
    ensures p > 0
  {
    if w == 0 then 1 else 256 * Pow256(w - 1)
  }

  /** `htobe` of the low `w` bytes of `x`. */
  function EncodeUnsigned(x: nat, w: nat): (s: Bytes)
    ensures |s| == w
  {
    if w == 0 then [] else EncodeUnsigned(x / 256, w - 1) + [(x % 256) as char]
  }

  function DecodeUnsigned(s: Bytes): nat {
    if s == [] then 0 else DecodeUnsigned(s[..|s| - 1]) * 256 + s[|s| - 1] as int
  }

  /** The cast to an unsigned type of `w` bytes, then `htobe`. */
  function EncodeInt(x: int, w: nat): (s: Bytes)
    ensures |s| == w
  {
    EncodeUnsigned(x % Pow256(w), w)
  }

  /** `betoh`, then the wrapping cast back to the signed type. */
  function DecodeInt(s: Bytes): int {
    var u := DecodeUnsigned(s);
    if 2 * u < Pow256(|s|) then u else u - Pow256(|s|)
  }

  predicate FitsInt(x: int, w: nat) {
    var p: int := Pow256(w);
    -p <= 2 * x < p
  }

  lemma {:induction false} UnsignedRoundTrip(x: nat, w: nat)
    requires x < Pow256(w)
    ensures DecodeUnsigned(EncodeUnsigned(x, w)) == x
  {
    if w > 0 {
      var s := EncodeUnsigned(x, w);
      assert s[..|s| - 1] == EncodeUnsigned(x / 256, w - 1);
      UnsignedRoundTrip(x / 256, w - 1);
    }
  }

  /** Every value of the signed type survives the trip, negative ones included. */
  lemma IntRoundTrip(x: int, w: nat)
    requires FitsInt(x, w)
    ensures DecodeInt(EncodeInt(x, w)) == x
  {
    var p := Pow256(w);
    UnsignedRoundTrip(x % p, w);
    ModWrap(x, p);
  }

  lemma {:induction false} UnsignedByteAt(x: nat, w: nat, i: nat)
    requires i < w
    ensures EncodeUnsigned(x, w)[i] as int == x / Pow256(w - 1 - i) % 256
  {
    if i < w - 1 {
      UnsignedByteAt(x / 256, w - 1, i);
      DivDiv(x, Pow256(w - 2 - i));
    }
  }

  lemma DivDiv(x: nat, p: nat)
    requires p > 0
    ensures x / 256 / p == x / (256 * p)
  {
    var q := x / 256 / p;
    assert x / 256 - q * p < p && x / 256 >= q * p;
    QuotientIs(x, 256 * p, q);
  }

  lemma {:induction false} MulStep(a: nat, b: nat, d: nat)
    ensures a < b ==> a * d + d <= b * d
  {
    if a + 1 < b {
      MulStep(a, b - 1, d);
      assert b * d == (b - 1) * d + d;
    }
  }

  lemma QuotientIs(x: nat, d: nat, q: nat)
    requires d > 0 && q * d <= x < q * d + d
    ensures x / d == q
  {
    MulStep(x / d, q, d);
    MulStep(q, x / d, d);
  }

  /** The byte at index `i` is the digit of 256^(w - 1 - i): the most significant one comes first. */
  lemma BigEndian(x: int, w: nat, i: nat)
    requires i < w
    ensures EncodeInt(x, w)[i] as int == x % Pow256(w) / Pow256(w - 1 - i) % 256
    ensures Pow256(1) == 0x100 && Pow256(2) == 0x1_0000 && Pow256(4) == 0x1_0000_0000
         && Pow256(8) == 0x1_0000_0000_0000_0000
  {
    UnsignedByteAt(x % Pow256(w), w, i);
    assert Pow256(3) == 0x100_0000;
    assert Pow256(5) == 0x100 * Pow256(4);
    assert Pow256(6) == 0x1_0000 * Pow256(4);
    assert Pow256(7) == 0x100_0000 * Pow256(4);
  }

  lemma ModWrap(x: int, p: int)
    requires p > 0 && -p <= x < p
    ensures x % p == if x < 0 then x + p else x
  {
    if x < 0 {
      ModStep(x + p, p);
    }
  }

  lemma ModStep(y: int, p: int)
    requires 0 <= y < p
    ensures (y - p) % p == y
  {
    assert y - p == p * (-1) + y;
  }
}
