/** Unsigned numbers as text, as the standard library writes and reads them. */
module Digits {
  import opened Wrappers
  import opened Types

  /** The value of a digit, in either case. */
  function DigitValue(c: char): Option<nat> {
    if '0' <= c <= '9' then Some((c - '0') as nat)
    else if 'a' <= c <= 'z' then Some((c - 'a') as nat + 10)
    else if 'A' <= c <= 'Z' then Some((c - 'A') as nat + 10)
    else None
  }

  function DigitChar(d: nat): (c: char)
    requires d < 36
    ensures DigitValue(c) == Some(d) && c != ','
  {
    "0123456789abcdefghijklmnopqrstuvwxyz"[d]
  }

  lemma {:induction false} TimesGrows(q: nat, base: nat)
    requires 2 <= base
    ensures 2 * q <= q * base
  {
    if q > 0 {
      TimesGrows(q - 1, base);
      assert q * base == (q - 1) * base + base;
    }
  }

  /** All the digits of a number but the last are those of a smaller one. */
  lemma Shift(n: nat, base: nat)
    requires 2 <= base <= n
    ensures n / base < n && (n / base) * base + n % base == n && n % base < base
  {
    TimesGrows(n / base, base);
  }

  function FormatUint(n: nat, base: nat): (r: string)
    requires 2 <= base <= 36
    ensures r != "" && forall c :: c in r ==> DigitValue(c).Some? && c != ','
  {
    if n < base then [DigitChar(n)]
    else
      hide DigitValue, DigitChar;
      Shift(n, base);
      FormatUint(n / base, base) + [DigitChar(n % base)]
  }

  /** The number a text denotes, however large. */
  function Denoted(s: string, base: nat): Option<nat> {
    if s == "" then Some(0)
    else
      match (Denoted(s[..|s| - 1], base), DigitValue(s[|s| - 1]))
      case (Some(n), Some(d)) => if d < base then Some(n * base + d) else None
      case _ => None
  }

  /** None on the empty text, a bad digit, or a number of more than 64 bits. */
  function ParseUint(s: string, base: nat): Option<uint64>
    requires 2 <= base <= 36
  {
    if s == "" then None
    else
      match Denoted(s, base)
      case None => None
      case Some(n) => if n < 0x1_0000_0000_0000_0000 then Some(n) else None
  }

  lemma {:induction false} FormatDenotes(n: nat, base: nat)
    requires 2 <= base <= 36
    ensures Denoted(FormatUint(n, base), base) == Some(n)
  {
    hide DigitValue, DigitChar;
    if n < base {
      assert Denoted("", base) == Some(0);
      assert FormatUint(n, base)[..0] == "";
    } else {
      Shift(n, base);
      FormatDenotes(n / base, base);
      var s := FormatUint(n, base);
      assert s[..|s| - 1] == FormatUint(n / base, base);
    }
  }

  lemma ParseFormat(n: uint64, base: nat)
    requires 2 <= base <= 36
    ensures ParseUint(FormatUint(n, base), base) == Some(n)
  {
    FormatDenotes(n, base);
  }
}
