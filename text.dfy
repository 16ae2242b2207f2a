/**
 * Character-level helpers with the semantics of the C and Arduino routines the firmware
 * calls: `strncpy` truncation, `String::indexOf`, `String::substring`, `String::toInt`
 * (newlib `atol`), `strtol(..., 16)`, `String::toLowerCase` and `String::replace`.
 * Strings are sequences of characters without an embedded NUL.
 */
module Text {
  /** `LONG_MIN` and `LONG_MAX` of the 32-bit ESP32 toolchain, where `strtol` saturates. */
  const LONG_MIN: int := -0x8000_0000
  const LONG_MAX: int := 0x7FFF_FFFF

  /** What survives a copy into an `n + 1` byte buffer (`strncpy`/`snprintf` then a terminator). */
  function Truncate(s: string, n: nat): (r: string)
    ensures r <= s
    ensures |r| == if |s| <= n then |s| else n
  {
    if |s| <= n then s else s[..n]
  }

  /** `pat` occurs in `s` starting at index `i`. */
  predicate OccursAt(s: string, pat: string, i: int)
  {
    0 <= i && i + |pat| <= |s| && s[i..i + |pat|] == pat
  }

  /**
   * `String::indexOf(pat, from)`: the first index at or after `from` where `pat` occurs,
   * or -1; a start index at or past the end gives -1.
   */
  function IndexOf(s: string, pat: string, from: nat): (r: int)
    ensures r == -1 || (from <= r < |s| && OccursAt(s, pat, r))
    ensures r != -1 ==> forall j :: from <= j < r ==> !OccursAt(s, pat, j)
    ensures r == -1 ==> from >= |s| || forall j :: from <= j ==> !OccursAt(s, pat, j)
    decreases |s| - from
  {
    if from >= |s| then -1
    else if OccursAt(s, pat, from) then from
    else IndexOf(s, pat, from + 1)
  }

  /** `IndexOf` finds an occurrence when none comes earlier. */
  lemma IndexOfFirst(s: string, pat: string, from: nat, k: nat)
    requires from <= k < |s| && OccursAt(s, pat, k)
    requires forall j :: from <= j < k ==> !OccursAt(s, pat, j)
    ensures IndexOf(s, pat, from) == k
  {
  }

  /** `IndexOf` finds an occurrence when no earlier character starts the pattern. */
  lemma IndexOfByFirstChar(s: string, pat: string, from: nat, k: nat)
    requires |pat| > 0 && from <= k < |s| && OccursAt(s, pat, k)
    requires forall j :: from <= j < k ==> s[j] != pat[0]
    ensures IndexOf(s, pat, from) == k
  {
    forall j | from <= j < k
      ensures !OccursAt(s, pat, j)
    {
      if j + |pat| <= |s| {
        assert s[j..j + |pat|][0] == s[j];
      }
    }
    IndexOfFirst(s, pat, from, k);
  }

  /** `String::indexOf(pat) != -1`. */
  predicate Contains(s: string, pat: string)
  {
    IndexOf(s, pat, 0) != -1
  }

  /** A non-empty pattern is found exactly when it occurs somewhere. */
  lemma ContainsIff(s: string, pat: string)
    requires |pat| > 0
    ensures Contains(s, pat) <==> exists i :: OccursAt(s, pat, i)
  {
    if exists i :: OccursAt(s, pat, i) {
      var i :| OccursAt(s, pat, i);
      assert 0 <= i < |s|;
    }
  }

  /** `String::endsWith(suffix)`. */
  predicate EndsWith(s: string, suffix: string)
  {
    |suffix| <= |s| && s[|s| - |suffix|..] == suffix
  }

  /**
   * `String::substring(left, right)`: the bounds are swapped when out of order, a start at
   * or past the end gives the empty string, and the end is clamped to the length.
   */
  function Substring(s: string, left: nat, right: nat): (r: string)
    ensures left <= right <= |s| ==> r == s[left..right]
    ensures |r| <= |s|
  {
    var lo := if left > right then right else left;
    var hi := if left > right then left else right;
    if lo >= |s| then "" else s[lo..if hi > |s| then |s| else hi]
  }

  /** `String::substring(left)`: everything from `left` on. */
  function SubstringFrom(s: string, left: nat): (r: string)
    ensures left <= |s| ==> r == s[left..]
    ensures left > |s| ==> r == ""
  {
    Substring(s, left, |s|)
  }

  /** ASCII lower-casing of one character, as `tolower` in the C locale. */
  function LowerChar(c: char): char
  {
    if 'A' <= c <= 'Z' then (c as int - 'A' as int + 'a' as int) as char else c
  }

  /** `String::toLowerCase()`. */
  function ToLower(s: string): (r: string)
    ensures |r| == |s|
    ensures forall i :: 0 <= i < |s| ==> r[i] == LowerChar(s[i])
  {
    if |s| == 0 then "" else [LowerChar(s[0])] + ToLower(s[1..])
  }

  /** `isspace` in the C locale. */
  predicate IsSpace(c: char)
  {
    c == ' ' || c == '\t' || c == '\n' || c == '\r' || c == '\U{000B}' || c == '\U{000C}'
  }

  /** The value of `c` as a digit in bases up to 16, or 16 when it is not one. */
  function DigitValue(c: char): (r: nat)
    ensures r <= 16
  {
    if '0' <= c <= '9' then c as int - '0' as int
    else if 'a' <= c <= 'f' then c as int - 'a' as int + 10
    else if 'A' <= c <= 'F' then c as int - 'A' as int + 10
    else 16
  }

  predicate IsDigitIn(c: char, base: nat)
  {
    DigitValue(c) < base
  }

  /** A digit is neither white space nor a sign. */
  lemma DigitIsNotSpaceOrSign(c: char)
    requires DigitValue(c) < 16
    ensures !IsSpace(c) && c != '-' && c != '+'
  {
  }

  /** Skips leading white space, as `strtol` does. */
  function DropSpaces(s: string): (r: string)
    ensures |r| <= |s|
    ensures |r| == 0 || !IsSpace(r[0])
  {
    if |s| > 0 && IsSpace(s[0]) then DropSpaces(s[1..]) else s
  }

  /** The number of leading characters of `s` that are digits in `base`. */
  function DigitRun(s: string, base: nat): (n: nat)
    ensures n <= |s|
    ensures forall i :: 0 <= i < n ==> IsDigitIn(s[i], base)
    ensures n < |s| ==> !IsDigitIn(s[n], base)
  {
    if |s| > 0 && IsDigitIn(s[0], base) then 1 + DigitRun(s[1..], base) else 0
  }

  /** The value of a run of digits, most significant first. */
  function ValueOf(d: string, base: nat): nat
  {
    if |d| == 0 then 0 else ValueOf(d[..|d| - 1], base) * base + DigitValue(d[|d| - 1]) % 16
  }

  /** Clamps to the range of a 32-bit `long`, as `strtol` does on overflow. */
  function Saturate(v: int): (r: int)
    ensures LONG_MIN <= r <= LONG_MAX
    ensures LONG_MIN <= v <= LONG_MAX ==> r == v
  {
    if v < LONG_MIN then LONG_MIN else if v > LONG_MAX then LONG_MAX else v
  }

  /**
   * newlib `strtol(s, NULL, base)` for base 10 or 16: white space, an optional sign, for
   * base 16 an optional `0x`/`0X`, then the longest run of digits; no digits give 0.
   */
  function ParseLong(s: string, base: nat): (r: int)
    requires base == 10 || base == 16
    ensures LONG_MIN <= r <= LONG_MAX
  {
    var t := DropSpaces(s);
    var neg := |t| > 0 && t[0] == '-';
    var v: int := ValueOf(DigitsAfterSign(t, base), base);
    Saturate(if neg then -v else v)
  }

  /** The digits `strtol` reads after the white space: past a sign and, in base 16, a `0x`. */
  function DigitsAfterSign(t: string, base: nat): string
  {
    var u := if |t| > 0 && (t[0] == '-' || t[0] == '+') then t[1..] else t;
    var w := if base == 16 && |u| >= 2 && u[0] == '0' && (u[1] == 'x' || u[1] == 'X') then u[2..] else u;
    w[..DigitRun(w, base)]
  }

  /** `String::toInt()` and `atoi`: decimal `strtol`. */
  function ToInt(s: string): int
  {
    ParseLong(s, 10)
  }

  /** The character of digit `d`, lower case for the hexadecimal ones. */
  function DigitChar(d: nat): (c: char)
    requires d < 16
    ensures DigitValue(c) == d
  {
    if d < 10 then ('0' as int + d) as char else ('a' as int + d - 10) as char
  }

  /** The numeral of `n` in `base`, without leading zeros (`%d`, `%x`). */
  function Numeral(n: nat, base: nat): (s: string)
    requires base == 10 || base == 16
    ensures |s| > 0
    ensures forall i :: 0 <= i < |s| ==> IsDigitIn(s[i], base)
    ensures n > 0 ==> s[0] != '0'
    ensures n == 0 ==> s == "0"
    decreases n
  {
    if n < base then [DigitChar(n)] else Numeral(n / base, base) + [DigitChar(n % base)]
  }

  /** Appending one digit multiplies the value so far by the base and adds the digit. */
  lemma ValueOfSnoc(p: string, c: char, base: nat)
    ensures ValueOf(p + [c], base) == ValueOf(p, base) * base + DigitValue(c) % 16
  {
    assert (p + [c])[..|p + [c]| - 1] == p;
  }

  /** Euclidean division by the base peels off the last digit. */
  lemma DivideByBase(n: nat, base: nat)
    requires base == 10 || base == 16
    requires n >= base
    ensures n / base < n && n % base < base
    ensures n == n / base * base + n % base
  {
  }

  /** A numeral of a number at least the base is the numeral of the quotient and one digit. */
  lemma NumeralStep(n: nat, base: nat)
    requires base == 10 || base == 16
    requires n >= base
    ensures Numeral(n, base) == Numeral(n / base, base) + [DigitChar(n % base)]
  {
  }

  /** Reading a numeral back gives the number it was written from. */
  lemma {:induction false} ValueOfNumeral(n: nat, base: nat)
    requires base == 10 || base == 16
    ensures ValueOf(Numeral(n, base), base) == n
    decreases n
  {
    if n < base {
      ValueOfOneDigit(n, base);
    } else {
      DivideByBase(n, base);
      ValueOfNumeral(n / base, base);
      ValueOfNextDigit(n, base);
    }
  }

  lemma ValueOfOneDigit(n: nat, base: nat)
    requires base == 10 || base == 16
    requires n < base
    ensures ValueOf(Numeral(n, base), base) == n
  {
    assert Numeral(n, base) == [] + [DigitChar(n)];
    ValueOfSnoc([], DigitChar(n), base);
  }

  lemma ValueOfNextDigit(n: nat, base: nat)
    requires base == 10 || base == 16
    requires n >= base
    requires ValueOf(Numeral(n / base, base), base) == n / base
    ensures ValueOf(Numeral(n, base), base) == n
  {
    NumeralSnocValue(n, base);
    DivideByBase(n, base);
    Recombine(ValueOf(Numeral(n / base, base), base), n / base, base, n % base, n);
  }

  /** The value of a numeral is the value of its quotient's numeral shifted by one digit. */
  lemma NumeralSnocValue(n: nat, base: nat)
    requires base == 10 || base == 16
    requires n >= base
    ensures ValueOf(Numeral(n, base), base) == ValueOf(Numeral(n / base, base), base) * base + n % base
  {
    DivideByBase(n, base);
    NumeralStep(n, base);
    ValueOfSnoc(Numeral(n / base, base), DigitChar(n % base), base);
  }

  lemma Recombine(v: int, q: int, base: int, d: int, n: int)
    requires v == q && n == q * base + d
    ensures v * base + d == n
  {
  }

  /** A character that ends a numeral for `ParseLong` (it is neither a digit nor an `x`). */
  predicate EndsNumeral(rest: string)
  {
    |rest| == 0 || (DigitValue(rest[0]) == 16 && rest[0] != 'x' && rest[0] != 'X')
  }

  /** `strtol` reads back any numeral within range, whatever non-digit text follows it. */
  lemma ParseNumeral(n: nat, base: nat, rest: string)
    requires base == 10 || base == 16
    requires n <= LONG_MAX
    requires EndsNumeral(rest)
    ensures ParseLong(Numeral(n, base) + rest, base) == n
  {
    var s := Numeral(n, base) + rest;
    NumeralDigits(n, base, rest);
    DigitIsNotSpaceOrSign(s[0]);
    assert DropSpaces(s) == s;
    ValueOfNumeral(n, base);
  }

  /** `String::toInt` reads back a decimal numeral within range followed by non-digits. */
  lemma ToIntNumeral(s: string, n: nat, rest: string)
    requires n <= LONG_MAX && EndsNumeral(rest)
    requires s == Numeral(n, 10) + rest
    ensures ToInt(s) == n
  {
    ParseNumeral(n, 10, rest);
  }

  /** `strtol` takes exactly the numeral's digits from a numeral followed by `rest`. */
  lemma NumeralDigits(n: nat, base: nat, rest: string)
    requires base == 10 || base == 16
    requires EndsNumeral(rest)
    ensures DigitValue((Numeral(n, base) + rest)[0]) < 16
    ensures DigitsAfterSign(Numeral(n, base) + rest, base) == Numeral(n, base)
  {
    var d := Numeral(n, base);
    var s := d + rest;
    assert s[0] == d[0];
    DigitIsNotSpaceOrSign(s[0]);
    if base == 16 && |s| >= 2 && s[0] == '0' {
      assert n == 0 && d == "0";
      assert s[1] == rest[0];
    }
    DigitRunOfNumeral(d, base, rest);
    assert s[..|d|] == d;
  }

  lemma {:induction false} DigitRunOfNumeral(d: string, base: nat, rest: string)
    requires forall i :: 0 <= i < |d| ==> IsDigitIn(d[i], base)
    requires EndsNumeral(rest)
    requires base <= 16
    ensures DigitRun(d + rest, base) == |d|
  {
    if |d| > 0 {
      assert (d + rest)[1..] == d[1..] + rest;
      DigitRunOfNumeral(d[1..], base, rest);
    }
  }

  /**
   * The pass `String::replace(find, repl)` makes when `repl` is not longer than `find`:
   * every occurrence of `find`, scanning left to right without overlaps, is replaced by `repl`.
   */
  function ReplaceAll(s: string, find: string, repl: string): string
    requires |find| > 0
    decreases |s|
  {
    if |s| < |find| then s
    else if s[..|find|] == find then repl + ReplaceAll(s[|find|..], find, repl)
    else [s[0]] + ReplaceAll(s[1..], find, repl)
  }

  /**
   * `String::replace(find, repl)` of the ESP32 Arduino core: nothing changes for an empty
   * string or pattern; a replacement no longer than the pattern is one left-to-right pass;
   * a longer one changes nothing when the pattern does not occur, and otherwise replaces
   * from the right, starting with the last occurrence.
   */
  function StringReplace(s: string, find: string, repl: string): string
  {
    if |s| == 0 || |find| == 0 then s
    else if |repl| <= |find| then ReplaceAll(s, find, repl)
    else if !Contains(s, find) then s
    else ReplaceFromRight(s, find, repl, |s| - 1)
  }

  /**
   * The right-to-left pass: the last occurrence starting at or before `index` (found with
   * `lastIndexOf`, overlapping occurrences included) is replaced, and the search goes on
   * from the index just below it, in the text as changed so far.
   */
  function ReplaceFromRight(s: string, find: string, repl: string, index: int): string
    requires |find| > 0
    decreases index + 1
  {
    if index < 0 then s
    else
      var k := LastIndexOf(s, find, index);
      LastIndexOfFinds(s, find, index);
      if k < 0 then s
      else ReplaceFromRight(s[..k] + repl + s[k + |find|..], find, repl, k - 1)
  }

  /** A replacement longer than a pattern that occurs is made by the right-to-left pass. */
  lemma StringReplaceFromRight(s: string, find: string, repl: string)
    requires 0 < |find| < |repl| && Contains(s, find)
    ensures StringReplace(s, find, repl) == ReplaceFromRight(s, find, repl, |s| - 1)
  {
  }

  /** One step of the right-to-left pass, at the occurrence `lastIndexOf` finds. */
  lemma FromRightStep(s: string, find: string, repl: string, index: nat, k: nat)
    requires |find| > 0 && LastIndexOf(s, find, index) == k
    ensures OccursAt(s, find, k)
    ensures ReplaceFromRight(s, find, repl, index)
         == ReplaceFromRight(s[..k] + repl + s[k + |find|..], find, repl, k - 1)
  {
    LastIndexOfFinds(s, find, index);
  }

  /** A longer replacement first replaces the last occurrence of the pattern. */
  lemma FirstReplacedFromRight(s: string, find: string, repl: string, k: nat)
    requires 0 < |find| < |repl| && OccursAt(s, find, k)
    requires forall j :: k < j ==> !OccursAt(s, find, j)
    ensures StringReplace(s, find, repl)
         == ReplaceFromRight(s[..k] + repl + s[k + |find|..], find, repl, k - 1)
  {
    calc {
      StringReplace(s, find, repl);
    == { ContainsIff(s, find); StringReplaceFromRight(s, find, repl); }
      ReplaceFromRight(s, find, repl, |s| - 1);
    == { LastOccurrenceFound(s, find, k); FromRightStep(s, find, repl, |s| - 1, k); }
      ReplaceFromRight(s[..k] + repl + s[k + |find|..], find, repl, k - 1);
    }
  }

  /**
   * `String::lastIndexOf(find, from)`: the last start of `find` at or before `from`, or -1
   * (`LastIndexOfFinds` states this).
   */
  function LastIndexOf(s: string, find: string, from: nat): int
  {
    if |find| == 0 || |s| == 0 || |find| > |s| then -1
    else LastAt(s, find, if from >= |s| then |s| - 1 else from)
  }

  /** The last start of `find` at or before `i`, or -1. */
  function LastAt(s: string, find: string, i: int): int
    decreases i + 1
  {
    if i < 0 then -1 else if OccursAt(s, find, i) then i else LastAt(s, find, i - 1)
  }

  /**
   * `lastIndexOf` gives -1 or an occurrence at or before `from`, and no occurrence of a
   * non-empty pattern starts after it up to `from`.
   */
  lemma LastIndexOfFinds(s: string, find: string, from: nat)
    ensures var r := LastIndexOf(s, find, from);
      (r == -1 || (0 <= r <= from && OccursAt(s, find, r))) &&
      (|find| > 0 ==> forall j :: r < j <= from ==> !OccursAt(s, find, j))
  {
    if !(|find| == 0 || |s| == 0 || |find| > |s|) {
      LastAtFinds(s, find, if from >= |s| then |s| - 1 else from);
    }
  }

  /** `LastAt` gives -1 or an occurrence at or before `i`, with none after it up to `i`. */
  lemma {:induction false} LastAtFinds(s: string, find: string, i: int)
    ensures var r := LastAt(s, find, i);
      (r == -1 || (0 <= r <= i && OccursAt(s, find, r))) &&
      forall j :: r < j <= i ==> !OccursAt(s, find, j)
    decreases i + 1
  {
    if i >= 0 && !OccursAt(s, find, i) {
      LastAtFinds(s, find, i - 1);
    }
  }

  /** Text in which `find` occurs nowhere comes back from `String::replace` unchanged, whichever pass it takes. */
  lemma StringReplaceWithoutOccurrence(s: string, find: string, repl: string)
    requires forall i :: !OccursAt(s, find, i)
    ensures StringReplace(s, find, repl) == s
  {
    if |s| > 0 && |find| > 0 {
      if |repl| <= |find| {
        ReplaceAllWithoutOccurrence(s, find, repl);
      } else {
        ContainsIff(s, find);
      }
    }
  }

  /**
   * A longer replacement keeps the text after the last occurrence of the pattern: every
   * later step replaces an occurrence that starts before the previous one, and so ends
   * before the text that followed it.
   */
  lemma LongerReplaceKeepsTail(a: string, find: string, repl: string, b: string)
    requires 0 < |find| < |repl|
    requires forall j :: |a| < j ==> !OccursAt(a + find + b, find, j)
    ensures EndsWith(StringReplace(a + find + b, find, repl), b)
    ensures |StringReplace(a + find + b, find, repl)| >= |a| + |repl| + |b|
  {
    var s := a + find + b;
    assert OccursAt(s, find, |a|) by {
      assert s[|a|..|a| + |find|] == find;
    }
    FirstReplacedFromRight(s, find, repl, |a|);
    assert s[..|a|] + repl + s[|a| + |find|..] == (a + repl) + b by {
      assert s[..|a|] == a && s[|a| + |find|..] == b;
    }
    FromRightKeepsTail(a + repl, b, find, repl, |a| - 1);
  }

  /** `lastIndexOf` from the end finds an occurrence after which there is none. */
  lemma LastOccurrenceFound(s: string, find: string, k: nat)
    requires |find| > 0 && OccursAt(s, find, k)
    requires forall j :: k < j ==> !OccursAt(s, find, j)
    ensures LastIndexOf(s, find, |s| - 1) == k
  {
    LastIndexOfFinds(s, find, |s| - 1);
  }

  /** `ReplaceFromRight` on `x + b`, searching only where an occurrence ends inside `x`, keeps `b`. */
  lemma {:induction false} FromRightKeepsTail(x: string, b: string, find: string, repl: string, index: int)
    requires 0 < |find| < |repl|
    requires index + |find| <= |x|
    ensures EndsWith(ReplaceFromRight(x + b, find, repl, index), b)
    ensures |ReplaceFromRight(x + b, find, repl, index)| >= |x| + |b|
    decreases index + 1
  {
    var s := x + b;
    if index >= 0 {
      var k := LastIndexOf(s, find, index);
      LastIndexOfFinds(s, find, index);
      if k >= 0 {
        var x' := x[..k] + repl + x[k + |find|..];
        assert s[..k] + repl + s[k + |find|..] == x' + b by {
          assert s[..k] == x[..k];
          assert s[k + |find|..] == x[k + |find|..] + b;
        }
        FromRightKeepsTail(x', b, find, repl, k - 1);
      }
    }
    if index < 0 || LastIndexOf(s, find, index) < 0 {
      assert s[|s| - |b|..] == b;
    }
  }

  /**
   * On overlapping occurrences `String::replace` with a longer replacement takes the last:
   * in `%m%m%` (for instance `%TOKEN%TOKEN%`), with `m` free of `%`, a replacement longer
   * than the pattern `%m%` and not starting with `%` replaces the second occurrence.
   */
  lemma OverlapReplacedFromRight(m: string, t: string)
    requires '%' !in m && |t| > |m| + 2 && t[0] != '%'
    ensures StringReplace("%" + m + "%" + m + "%", "%" + m + "%", t) == "%" + m + t
  {
    var f := "%" + m + "%";
    var s := "%" + m + "%" + m + "%";
    var k := |m| + 1;
    assert OccursAt(s, f, k) by {
      assert s == ("%" + m) + f;
    }
    calc {
      StringReplace(s, f, t);
    == { FirstReplacedFromRight(s, f, t, k); }
      ReplaceFromRight(s[..k] + t + s[k + |f|..], f, t, k - 1);
    == { assert s[..k] + t + s[k + |f|..] == "%" + m + t by {
           assert s[..k] == "%" + m;
           assert s[k + |f|..] == [];
         }
       }
      ReplaceFromRight("%" + m + t, f, t, |m|);
    == { NoPatternBeforeReplacement(m, t); FromRightWithoutOccurrence("%" + m + t, f, t, |m|); }
      "%" + m + t;
    }
  }

  /** `%m` followed by a text not starting with `%` holds no `%m%` at or before `|m|`. */
  lemma NoPatternBeforeReplacement(m: string, t: string)
    requires '%' !in m && |t| > 0 && t[0] != '%'
    ensures forall j :: 0 <= j <= |m| ==> !OccursAt("%" + m + t, "%" + m + "%", j)
  {
    var f := "%" + m + "%";
    var s' := "%" + m + t;
    forall j | 0 <= j <= |m|
      ensures !OccursAt(s', f, j)
    {
      if j == 0 {
        assert s'[..|f|][|m| + 1] == t[0];
      } else if j + |f| <= |s'| {
        assert s'[j] == m[j - 1];
        assert s'[j..j + |f|][0] == s'[j];
      }
    }
  }

  /**
   * The left-to-right pass on the same text replaces the first occurrence, and what is left
   * after it is too short to hold another.
   */
  lemma OverlapReplacedLeftToRight(m: string, t: string)
    ensures ReplaceAll("%" + m + "%" + m + "%", "%" + m + "%", t) == t + m + "%"
  {
    var f := "%" + m + "%";
    var s := "%" + m + "%" + m + "%";
    assert s[..|f|] == f && s[|f|..] == m + "%";
  }

  /** The right-to-left pass changes nothing when no occurrence starts at or before `index`. */
  lemma FromRightWithoutOccurrence(s: string, find: string, repl: string, index: nat)
    requires |find| > 0
    requires forall j :: 0 <= j <= index ==> !OccursAt(s, find, j)
    ensures ReplaceFromRight(s, find, repl, index) == s
  {
    LastIndexOfFinds(s, find, index);
  }

  /** Text in which `find` occurs nowhere comes back from `ReplaceAll` unchanged. */
  lemma {:induction false} ReplaceAllWithoutOccurrence(s: string, find: string, repl: string)
    requires |find| > 0
    requires forall i :: !OccursAt(s, find, i)
    ensures ReplaceAll(s, find, repl) == s
    decreases |s|
  {
    if |s| >= |find| {
      assert !OccursAt(s, find, 0);
      forall i | OccursAt(s[1..], find, i)
        ensures OccursAt(s, find, i + 1)
      {
        assert s[1..][i..i + |find|] == s[i + 1..i + 1 + |find|];
      }
      ReplaceAllWithoutOccurrence(s[1..], find, repl);
      assert [s[0]] + s[1..] == s;
    }
  }
}
