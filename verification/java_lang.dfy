/**
 * The pieces of the Java platform that the single-sign-on code leans on,
 * written out over Dafny values: nullable results, 64- and 32-bit integer
 * arithmetic, `Long.parseLong`, `Long.toString`, `String.split`,
 * `String.trim`, `String.equalsIgnoreCase` and `String.compareTo`.
 */
module JavaLang {

  /** A Java reference that may be null: `None` stands for null. */
  datatype Option<+T> = None | Some(value: T)

  /** `map.get(key)`: null when the key is absent. */
  function Lookup<K, V>(m: map<K, V>, k: K): (r: Option<V>)
    ensures r.Some? <==> k in m
    ensures r.Some? ==> r.value == m[k]
  {
    if k in m then Some(m[k]) else None
  }

  // ---------------------------------------------------------------------
  // Fixed-width integers
  // ---------------------------------------------------------------------

  const LONG_MIN: int := -0x8000_0000_0000_0000
  const LONG_MAX: int := 0x7FFF_FFFF_FFFF_FFFF
  const INT_MIN: int := -0x8000_0000
  const INT_MAX: int := 0x7FFF_FFFF

  predicate IsLong(x: int) { LONG_MIN <= x <= LONG_MAX }
  predicate IsInt(x: int) { INT_MIN <= x <= INT_MAX }

  /** The value a Java `long` holds after an operation whose exact result is `x`. */
  function WrapLong(x: int): (r: int)
    ensures IsLong(r)
    ensures IsLong(x) ==> r == x
    ensures (x - r) % 0x1_0000_0000_0000_0000 == 0
  {
    var m := (x - LONG_MIN) % 0x1_0000_0000_0000_0000;
    assert x - LONG_MIN == 0x1_0000_0000_0000_0000 * ((x - LONG_MIN) / 0x1_0000_0000_0000_0000) + m;
    m + LONG_MIN
  }

  /** The value a Java `int` holds after an operation whose exact result is `x`. */
  function WrapInt(x: int): (r: int)
    ensures IsInt(r)
    ensures IsInt(x) ==> r == x
    ensures (x - r) % 0x1_0000_0000 == 0
  {
    var m := (x - INT_MIN) % 0x1_0000_0000;
    assert x - INT_MIN == 0x1_0000_0000 * ((x - INT_MIN) / 0x1_0000_0000) + m;
    m + INT_MIN
  }

  /** Wrapping after every step of a sum gives the same `int` as wrapping once at the end. */
  lemma WrapIntAdd(a: int, b: int)
    ensures WrapInt(WrapInt(a) + b) == WrapInt(a + b)
  {
    var k := (a - WrapInt(a)) / 0x1_0000_0000;
    assert a == WrapInt(a) + k * 0x1_0000_0000;
    WrapIntShift(WrapInt(a) + b, k);
  }

  lemma WrapIntShift(x: int, k: int)
    ensures WrapInt(x + k * 0x1_0000_0000) == WrapInt(x)
  {
    var y := x + k * 0x1_0000_0000;
    var p := (x - INT_MIN) % 0x1_0000_0000;
    var q := (y - INT_MIN) % 0x1_0000_0000;
    var dp := (x - INT_MIN) / 0x1_0000_0000;
    var dq := (y - INT_MIN) / 0x1_0000_0000;
    assert x - INT_MIN == dp * 0x1_0000_0000 + p && 0 <= p < 0x1_0000_0000;
    assert y - INT_MIN == dq * 0x1_0000_0000 + q && 0 <= q < 0x1_0000_0000;
    assert p - q == (dq - dp - k) * 0x1_0000_0000;
  }

  /** `Math.abs(long)`: the magnitude, except that `Long.MIN_VALUE` stays negative. */
  function AbsLong(x: int): (r: int)
    requires IsLong(x)
    ensures IsLong(r)
    ensures x != LONG_MIN ==> r >= 0 && (r == x || r == -x)
    ensures x == LONG_MIN ==> r == LONG_MIN
  {
    if x < 0 then WrapLong(-x) else x
  }

  // ---------------------------------------------------------------------
  // Decimal text of integers
  // ---------------------------------------------------------------------

  predicate IsDigit(c: char) { '0' <= c <= '9' }

  predicate AllDigits(s: string) { forall i :: 0 <= i < |s| ==> IsDigit(s[i]) }

  function DigitChar(d: nat): (c: char)
    requires d < 10
    ensures IsDigit(c) && c as int - '0' as int == d
  {
    ('0' as int + d) as char
  }

  /** The decimal digits of `n`, most significant first, without leading zeros. */
  function NatToDigits(n: nat): (r: string)
    decreases n
  {
    if n < 10 then [DigitChar(n)] else NatToDigits(n / 10) + [DigitChar(n % 10)]
  }

  /** `Long.toString`, `Integer.toString` and `String.valueOf(long)`. */
  function LongToString(x: int): string
  {
    if x < 0 then "-" + NatToDigits(-x) else NatToDigits(x)
  }

  /** The numeric value of a string of decimal digits. */
  function DigitsValue(s: string): nat
    requires AllDigits(s)
  {
    if s == [] then 0 else DigitsValue(s[..|s| - 1]) * 10 + (s[|s| - 1] as int - '0' as int)
  }

  /**
   * `Long.parseLong`: an optional sign, at least one digit, and a value that
   * fits in a `long`; anything else (null included) is a NumberFormatException.
   */
  function ParseLong(s: Option<string>): (r: Option<int>)
    ensures r.Some? ==> IsLong(r.value)
    ensures r.Some? ==> s.Some? && |s.value| > 0
  {
    match s
    case None => None
    case Some(t) =>
      if |t| == 0 then None
      else
        var digits := if t[0] == '-' || t[0] == '+' then t[1..] else t;
        if |digits| == 0 || !AllDigits(digits) then None
        else
          var n: int := DigitsValue(digits);
          var v := if t[0] == '-' then -n else n;
          if IsLong(v) then Some(v) else None
  }

  lemma {:induction false} NatToDigitsShape(n: nat)
    ensures |NatToDigits(n)| > 0 && AllDigits(NatToDigits(n))
    ensures DigitsValue(NatToDigits(n)) == n
    decreases n
  {
    if n >= 10 {
      NatToDigitsShape(n / 10);
      var r := NatToDigits(n);
      assert r[..|r| - 1] == NatToDigits(n / 10);
    }
  }

  /** Parsing the decimal text of any `long` gives that `long` back. */
  lemma ParseLongToString(x: int)
    requires IsLong(x)
    ensures ParseLong(Some(LongToString(x))) == Some(x)
  {
    if x < 0 {
      NatToDigitsShape(-x);
      assert ("-" + NatToDigits(-x))[1..] == NatToDigits(-x);
    } else {
      NatToDigitsShape(x);
    }
  }

  /** `String.valueOf(x).length()`: digit count plus one for a minus sign. */
  function DecimalLength(x: int): (r: nat)
    ensures r == |LongToString(x)|
    ensures r >= 1
  {
    NatToDigitsShape(if x < 0 then -x else x);
    |LongToString(x)|
  }

  function Pow10(k: nat): (r: nat)
    ensures r >= 1
  {
    if k == 0 then 1 else 10 * Pow10(k - 1)
  }

  /** A natural number has exactly `k` digits when it lies in [10^(k-1), 10^k). */
  lemma {:induction false} NatToDigitsLength(n: nat, k: nat)
    requires 1 <= k
    requires (k == 1 || Pow10(k - 1) <= n) && n < Pow10(k)
    ensures |NatToDigits(n)| == k
    decreases k
  {
    if k == 1 {
      assert n < 10;
    } else {
      assert n >= 10;
      assert Pow10(k - 1) == 10 * Pow10(k - 2);
      if k > 2 {
        assert Pow10(k - 2) <= n / 10;
      }
      NatToDigitsLength(n / 10, k - 1);
    }
  }

  // ---------------------------------------------------------------------
  // String operations
  // ---------------------------------------------------------------------

  /** `String.trim`: drop every character up to U+0020 from both ends. */
  function Trim(s: string): (r: string)
    ensures |r| <= |s|
    ensures r == [] || (r[0] > ' ' && r[|r| - 1] > ' ')
  {
    TrimEnd(TrimStart(s))
  }

  function TrimStart(s: string): (r: string)
    ensures |r| <= |s|
    ensures r == [] || r[0] > ' '
    ensures r == s[|s| - |r|..]
    ensures forall i :: 0 <= i < |s| - |r| ==> s[i] <= ' '
  {
    if |s| > 0 && s[0] <= ' ' then TrimStart(s[1..]) else s
  }

  function TrimEnd(s: string): (r: string)
    ensures |r| <= |s|
    ensures r == [] || r[|r| - 1] > ' '
    ensures r == s[..|r|]
    ensures forall i :: |r| <= i < |s| ==> s[i] <= ' '
  {
    if |s| > 0 && s[|s| - 1] <= ' ' then TrimEnd(s[..|s| - 1]) else s
  }

  /** Every piece between separators, empty ones included (a regex split with a negative limit). */
  function SplitAll(s: string, sep: char): (r: seq<string>)
    ensures |r| >= 1
    ensures forall i :: 0 <= i < |r| ==> sep !in r[i]
    ensures sep !in s ==> r == [s]
    decreases |s|
  {
    if |s| == 0 then [""]
    else
      var rest := SplitAll(s[1..], sep);
      assert s == [s[0]] + s[1..];
      if s[0] == sep then [""] + rest
      else [[s[0]] + rest[0]] + rest[1..]
  }

  /** The inverse of splitting: pieces glued back with the separator between them. */
  function Join(pieces: seq<string>, sep: char): string
  {
    if |pieces| == 0 then ""
    else if |pieces| == 1 then pieces[0]
    else pieces[0] + [sep] + Join(pieces[1..], sep)
  }

  function DropTrailingEmpty(pieces: seq<string>): (r: seq<string>)
    ensures r <= pieces
    ensures |r| == 0 || r[|r| - 1] != ""
    ensures forall i :: |r| <= i < |pieces| ==> pieces[i] == ""
  {
    if |pieces| > 0 && pieces[|pieces| - 1] == "" then DropTrailingEmpty(pieces[..|pieces| - 1])
    else pieces
  }

  /**
   * `s.split(sep)` with Java's default limit: a string without the separator
   * gives itself (so "" gives [""]); otherwise every piece, with trailing
   * empty pieces removed.
   */
  function JavaSplit(s: string, sep: char): (r: seq<string>)
    ensures forall i :: 0 <= i < |r| ==> sep !in r[i]
    ensures sep !in s ==> r == [s]
    ensures sep in s ==> |r| == 0 || r[|r| - 1] != ""
  {
    if sep !in s then [s] else DropTrailingEmpty(SplitAll(s, sep))
  }

  lemma {:induction false} JoinSplitAll(s: string, sep: char)
    ensures Join(SplitAll(s, sep), sep) == s
    decreases |s|
  {
    if |s| > 0 {
      JoinSplitAll(s[1..], sep);
      var rest := SplitAll(s[1..], sep);
      if s[0] == sep {
        assert s == [s[0]] + s[1..];
      } else {
        var r := SplitAll(s, sep);
        assert r[1..] == rest[1..];
        if |rest| == 1 {
          assert s == [s[0]] + rest[0];
        } else {
          assert Join(rest, sep) == rest[0] + [sep] + Join(rest[1..], sep);
          assert s == [s[0]] + s[1..];
        }
      }
    }
  }

  lemma {:induction false} JoinDropTrailing(pieces: seq<string>, sep: char)
    requires |pieces| >= 1
    ensures var kept := DropTrailingEmpty(pieces);
      Join(pieces, sep) == Join(kept, sep) + (if |kept| == 0 then Repeat(sep, |pieces| - 1) else Repeat(sep, |pieces| - |kept|))
    decreases |pieces|
  {
    var n := |pieces|;
    if pieces[n - 1] == "" {
      if n == 1 {
        assert DropTrailingEmpty(pieces) == [];
      } else {
        var front := pieces[..n - 1];
        assert front + [""] == pieces;
        assert DropTrailingEmpty(pieces) == DropTrailingEmpty(front);
        JoinDropTrailing(front, sep);
        JoinSnoc(front, "", sep);
        RepeatSnoc(sep, |front| - |DropTrailingEmpty(front)|);
        if |DropTrailingEmpty(front)| == 0 {
          RepeatSnoc(sep, |front| - 1);
        }
      }
    }
  }

  lemma RepeatSnoc(c: char, n: nat)
    ensures Repeat(c, n) + [c] == Repeat(c, n + 1)
  {
  }

  lemma {:induction false} JoinSnoc(pieces: seq<string>, last: string, sep: char)
    requires |pieces| >= 1
    ensures Join(pieces + [last], sep) == Join(pieces, sep) + [sep] + last
    decreases |pieces|
  {
    if |pieces| == 1 {
      assert (pieces + [last])[1..] == [last];
    } else {
      JoinSnoc(pieces[1..], last, sep);
      assert (pieces + [last])[1..] == pieces[1..] + [last];
    }
  }

  function Repeat(c: char, n: nat): (r: string)
    ensures |r| == n && forall i :: 0 <= i < n ==> r[i] == c
  {
    if n == 0 then "" else [c] + Repeat(c, n - 1)
  }

  /**
   * What `JavaSplit` loses is only trailing separators: gluing the pieces
   * back gives the input up to a run of separators at its end.
   */
  lemma JavaSplitJoin(s: string, sep: char)
    ensures var j := Join(JavaSplit(s, sep), sep);
      j <= s && forall i :: |j| <= i < |s| ==> s[i] == sep
  {
    if sep in s {
      JoinSplitAll(s, sep);
      JoinDropTrailing(SplitAll(s, sep), sep);
    }
  }

  // ---------------------------------------------------------------------
  // Case-insensitive comparison and ordering
  // ---------------------------------------------------------------------

  function ToUpperAscii(c: char): char
  {
    if 'a' <= c <= 'z' then (c as int - 32) as char else c
  }

  function ToLowerAscii(c: char): char
  {
    if 'A' <= c <= 'Z' then (c as int + 32) as char else c
  }

  /** Java's per-character rule in `regionMatches(ignoreCase)`, for ASCII case mapping. */
  predicate CharsMatchIgnoreCase(a: char, b: char)
  {
    a == b || ToUpperAscii(a) == ToUpperAscii(b) || ToLowerAscii(ToUpperAscii(a)) == ToLowerAscii(ToUpperAscii(b))
  }

  /** `String.equalsIgnoreCase` for a non-null argument. */
  predicate EqualsIgnoreCase(a: string, b: string)
  {
    |a| == |b| && forall i :: 0 <= i < |a| ==> CharsMatchIgnoreCase(a[i], b[i])
  }

  function LowerAscii(s: string): (r: string)
    ensures |r| == |s| && forall i :: 0 <= i < |s| ==> r[i] == ToLowerAscii(s[i])
  {
    if s == [] then [] else [ToLowerAscii(s[0])] + LowerAscii(s[1..])
  }

  /** For ASCII case mapping, two characters match ignoring case exactly when their lower cases agree. */
  lemma CharMatchIffSameLower(a: char, b: char)
    ensures CharsMatchIgnoreCase(a, b) <==> ToLowerAscii(a) == ToLowerAscii(b)
  {
  }

  /** Java's character-by-character rule agrees with comparing lower-cased copies. */
  lemma EqualsIgnoreCaseIffSameLower(a: string, b: string)
    ensures EqualsIgnoreCase(a, b) <==> LowerAscii(a) == LowerAscii(b)
  {
    if |a| == |b| {
      forall i | 0 <= i < |a| ensures CharsMatchIgnoreCase(a[i], b[i]) <==> LowerAscii(a)[i] == LowerAscii(b)[i] {
        CharMatchIffSameLower(a[i], b[i]);
      }
    }
  }

  /** `a.compareTo(b) < 0`: lexicographic by character, a proper prefix first. */
  predicate StrLess(a: string, b: string)
  {
    if |a| == 0 then |b| > 0
    else if |b| == 0 then false
    else if a[0] != b[0] then a[0] < b[0]
    else StrLess(a[1..], b[1..])
  }

  lemma {:induction false} StrLessIrreflexive(a: string)
    ensures !StrLess(a, a)
    decreases |a|
  {
    if |a| > 0 { StrLessIrreflexive(a[1..]); }
  }

  lemma {:induction false} StrLessAsymmetric(a: string, b: string)
    ensures StrLess(a, b) ==> !StrLess(b, a)
    decreases |a|
  {
    if |a| > 0 && |b| > 0 && a[0] == b[0] { StrLessAsymmetric(a[1..], b[1..]); }
  }

  lemma {:induction false} StrLessTransitive(a: string, b: string, c: string)
    requires StrLess(a, b) && StrLess(b, c)
    ensures StrLess(a, c)
    decreases |a|
  {
    if |a| > 0 && a[0] == b[0] && b[0] == c[0] {
      StrLessTransitive(a[1..], b[1..], c[1..]);
    }
  }

  lemma {:induction false} StrLessTotal(a: string, b: string)
    requires a != b
    ensures StrLess(a, b) || StrLess(b, a)
    decreases |a|
  {
    if |a| > 0 && |b| > 0 && a[0] == b[0] {
      assert a == [a[0]] + a[1..] && b == [b[0]] + b[1..];
      StrLessTotal(a[1..], b[1..]);
    }
  }
}
