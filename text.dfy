/**
 * Character and string helpers with the meaning the Rust standard library and
 * the parser-combinator library give them: Unicode whitespace (`char::is_whitespace`,
 * used by `str::trim`), the four "multispace" characters, substring search and
 * decimal formatting of integers (`to_string`, `{:0>2}`, `{:04}`, `{:+05}`).
 */
module Text {

  // ---------------------------------------------------------------------------
  // Whitespace
  // ---------------------------------------------------------------------------

  /** Unicode White_Space, the set `char::is_whitespace` tests. */
  predicate IsWhitespace(c: char)
  {
    || c == ' ' || c == '\t' || c == '\n' || c == '\r'
    || c == '\U{B}' || c == '\U{C}' || c == '\U{85}' || c == '\U{A0}'
    || c == '\U{1680}' || ('\U{2000}' <= c <= '\U{200A}')
    || c == '\U{2028}' || c == '\U{2029}' || c == '\U{202F}' || c == '\U{205F}' || c == '\U{3000}'
  }

  /** The characters `multispace0` consumes: space, tab, carriage return, line feed. */
  predicate IsMultispace(c: char)
  {
    c == ' ' || c == '\t' || c == '\r' || c == '\n'
  }

  predicate AllMultispace(s: string)
  {
    forall i :: 0 <= i < |s| ==> IsMultispace(s[i])
  }

  /** `multispace0`: drop the longest prefix made of multispace characters. */
  function SkipMultispace(s: string): (r: string)
    ensures |r| <= |s|
  {
    if |s| > 0 && IsMultispace(s[0]) then SkipMultispace(s[1..]) else s
  }

  /** What `multispace0` drops is multispace, and what it leaves is the rest of the text. */
  lemma {:induction false} SkipMultispaceSplit(s: string)
    ensures var r := SkipMultispace(s);
            && r == s[|s| - |r|..]
            && AllMultispace(s[..|s| - |r|])
            && (r == [] || !IsMultispace(r[0]))
  {
    if |s| > 0 && IsMultispace(s[0]) {
      SkipMultispaceSplit(s[1..]);
      var r := SkipMultispace(s);
      assert s[1..][..|s[1..]| - |r|] == s[1..|s| - |r|];
    }
  }

  lemma SkipMultispaceIdempotent(s: string)
    ensures SkipMultispace(SkipMultispace(s)) == SkipMultispace(s)
  {
    SkipMultispaceSplit(s);
  }

  /** Whitespace in front of a text does not change what `multispace0` leaves. */
  lemma {:induction false} SkipMultispaceAbsorbs(w: string, s: string)
    requires AllMultispace(w)
    ensures SkipMultispace(w + s) == SkipMultispace(s)
  {
    if w != [] {
      assert (w + s)[0] == w[0] && (w + s)[1..] == w[1..] + s;
      assert IsMultispace(w[0]);
      assert SkipMultispace(w + s) == SkipMultispace(w[1..] + s);
      SkipMultispaceAbsorbs(w[1..], s);
    } else {
      assert w + s == s;
    }
  }

  /** `str::trim_start`. */
  function TrimStart(s: string): (r: string)
    ensures |r| <= |s|
  {
    if |s| > 0 && IsWhitespace(s[0]) then TrimStart(s[1..]) else s
  }

  /** `str::trim_end`. */
  function TrimEnd(s: string): (r: string)
    ensures |r| <= |s|
  {
    if |s| > 0 && IsWhitespace(s[|s| - 1]) then TrimEnd(s[..|s| - 1]) else s
  }

  lemma DigitIsNotSpace(c: char)
    requires '0' <= c <= '9'
    ensures !IsWhitespace(c) && !IsMultispace(c)
  {
  }

  lemma TrimKeeps(s: string)
    requires s != [] && !IsWhitespace(s[0]) && !IsWhitespace(s[|s| - 1])
    ensures TrimStart(s) == s && TrimEnd(s) == s && Trim(s) == s
  {
  }

  /** `str::trim`: whitespace removed at both ends. */
  function Trim(s: string): string
  {
    TrimEnd(TrimStart(s))
  }

  lemma {:induction false} TrimStartSplit(s: string)
    ensures var r := TrimStart(s);
            && r == s[|s| - |r|..]
            && (forall i :: 0 <= i < |s| - |r| ==> IsWhitespace(s[i]))
            && (r == [] || !IsWhitespace(r[0]))
  {
    if |s| > 0 && IsWhitespace(s[0]) {
      TrimStartSplit(s[1..]);
    }
  }

  lemma {:induction false} TrimEndSplit(s: string)
    ensures var r := TrimEnd(s);
            && r == s[..|r|]
            && (forall i :: |r| <= i < |s| ==> IsWhitespace(s[i]))
            && (r == [] || !IsWhitespace(r[|r| - 1]))
  {
    if |s| > 0 && IsWhitespace(s[|s| - 1]) {
      TrimEndSplit(s[..|s| - 1]);
    }
  }

  /** A trimmed text neither starts nor ends with whitespace. */
  lemma TrimEnds(s: string)
    ensures var r := Trim(s); r == [] || (!IsWhitespace(r[0]) && !IsWhitespace(r[|r| - 1]))
  {
    TrimStartSplit(s);
    var t := TrimStart(s);
    TrimEndSplit(t);
    var r := TrimEnd(t);
    if r != [] {
      assert r[0] == t[0];
    }
  }

  /** Trimming removes exactly the surrounding whitespace: the result is a slice of s. */
  lemma TrimSlice(s: string)
    ensures exists i, j :: 0 <= i <= j <= |s| && Trim(s) == s[i..j]
               && (forall k :: 0 <= k < i ==> IsWhitespace(s[k]))
               && (forall k :: j <= k < |s| ==> IsWhitespace(s[k]))
  {
    TrimStartSplit(s);
    var t := TrimStart(s);
    TrimEndSplit(t);
    var i := |s| - |t|;
    var j := i + |TrimEnd(t)|;
    assert Trim(s) == s[i..j];
  }

  lemma {:induction false} TrimStartAbsorbs(w: string, s: string)
    requires AllMultispace(w)
    ensures TrimStart(w + s) == TrimStart(s)
  {
    if w != [] {
      assert (w + s)[0] == w[0] && (w + s)[1..] == w[1..] + s;
      assert IsWhitespace(w[0]) by { assert IsMultispace(w[0]); }
      assert TrimStart(w + s) == TrimStart(w[1..] + s);
      TrimStartAbsorbs(w[1..], s);
    } else {
      assert w + s == s;
    }
  }

  lemma {:induction false} TrimEndAbsorbs(s: string, w: string)
    requires AllMultispace(w)
    ensures TrimEnd(s + w) == TrimEnd(s)
  {
    if w != [] {
      var w' := w[..|w| - 1];
      assert (s + w)[|s + w| - 1] == w[|w| - 1];
      assert (s + w)[..|s + w| - 1] == s + w';
      assert IsWhitespace(w[|w| - 1]) by { assert IsMultispace(w[|w| - 1]); }
      assert TrimEnd(s + w) == TrimEnd(s + w');
      TrimEndAbsorbs(s, w');
    } else {
      assert s + w == s;
    }
  }

  lemma TrimStartIdempotent(s: string)
    ensures TrimStart(TrimStart(s)) == TrimStart(s)
  {
  }

  /** Multispace around a text does not change its trimmed form. */
  lemma TrimAbsorbs(w1: string, s: string, w2: string)
    requires AllMultispace(w1) && AllMultispace(w2)
    ensures Trim(w1 + s + w2) == Trim(s)
  {
    TrimStartAbsorbs(w1, s + w2);
    assert w1 + s + w2 == w1 + (s + w2);
    var t := TrimStart(s);
    if t == [] {
      TrimStartEmpty(s, w2);
      TrimStartAbsorbs(w2, []);
      assert w2 + [] == w2;
    } else {
      TrimStartAppend(s, w2);
      TrimEndAbsorbs(t, w2);
    }
  }

  lemma {:induction false} TrimStartEmpty(s: string, w: string)
    requires TrimStart(s) == []
    ensures TrimStart(s + w) == TrimStart(w)
  {
    if s != [] {
      assert (s + w)[0] == s[0] && (s + w)[1..] == s[1..] + w;
      TrimStartEmpty(s[1..], w);
    } else {
      assert s + w == w;
    }
  }

  lemma {:induction false} TrimStartAppend(s: string, w: string)
    requires AllMultispace(w)
    requires TrimStart(s) != [] || w == []
    ensures TrimStart(s + w) == TrimStart(s) + w
  {
    if |s| > 0 && IsWhitespace(s[0]) {
      assert (s + w)[1..] == s[1..] + w;
      TrimStartAppend(s[1..], w);
    }
  }

  // ---------------------------------------------------------------------------
  // Searching
  // ---------------------------------------------------------------------------

  /** Position of the first occurrence of c in s, or |s| when there is none. */
  function FindChar(s: string, c: char): (i: nat)
    ensures i <= |s|
  {
    if |s| == 0 then 0
    else if s[0] == c then 0
    else 1 + FindChar(s[1..], c)
  }

  /** FindChar finds the first occurrence, or reports |s| when c does not occur. */
  lemma {:induction false} FindCharFirst(s: string, c: char)
    ensures var i := FindChar(s, c);
            && (i < |s| ==> s[i] == c)
            && (forall k :: 0 <= k < i ==> s[k] != c)
  {
    if |s| > 0 && s[0] != c {
      FindCharFirst(s[1..], c);
    }
  }

  /** FindChar reports |s| exactly when c does not occur in s. */
  lemma {:induction false} FindCharAbsent(s: string, c: char)
    ensures FindChar(s, c) == |s| <==> c !in s
  {
    if |s| > 0 && s[0] != c {
      FindCharAbsent(s[1..], c);
      assert s == [s[0]] + s[1..];
    }
  }

  /** Searching a concatenation whose first part lacks c goes on into the second part. */
  lemma {:induction false} FindCharAppend(p: string, q: string, c: char)
    requires FindChar(p, c) == |p|
    ensures FindChar(p + q, c) == |p| + FindChar(q, c)
  {
    if p == [] {
      assert p + q == q;
    } else {
      assert (p + q)[0] == p[0] && (p + q)[1..] == p[1..] + q;
      FindCharAppend(p[1..], q, c);
    }
  }

  /** `str::contains` for a string pattern: sub occurs somewhere in s. */
  predicate Contains(s: string, sub: string)
  {
    exists i :: 0 <= i <= |s| - |sub| && OccursAt(s, sub, i)
  }

  predicate OccursAt(s: string, sub: string, i: int)
    requires 0 <= i <= |s| - |sub|
  {
    s[i..i + |sub|] == sub
  }

  lemma ContainsEmpty(s: string)
    ensures Contains(s, "")
  {
    assert OccursAt(s, "", 0);
  }

  // ---------------------------------------------------------------------------
  // Decimal formatting
  // ---------------------------------------------------------------------------

  function DigitChar(d: int): (c: char)
    requires 0 <= d < 10
    ensures '0' <= c <= '9'
  {
    ['0', '1', '2', '3', '4', '5', '6', '7', '8', '9'][d]
  }

  predicate IsDigit(c: char)
  {
    '0' <= c <= '9'
  }

  predicate AllDigits(s: string)
  {
    forall i :: 0 <= i < |s| ==> IsDigit(s[i])
  }

  function DigitValue(c: char): (d: nat)
    requires IsDigit(c)
    ensures d < 10
  {
    (c as int) - ('0' as int)
  }

  /** The number a string of decimal digits denotes (leading zeros allowed). */
  function DecimalValue(s: string): (n: nat)
    requires AllDigits(s)
  {
    if s == [] then 0 else 10 * DecimalValue(s[..|s| - 1]) + DigitValue(s[|s| - 1])
  }

  /** `to_string` of an unsigned integer: shortest decimal form, no sign. */
  function NatToString(n: nat): (s: string)
    ensures 0 < |s| && AllDigits(s)
    ensures DecimalValue(s) == n
  {
    if n < 10 then [DigitChar(n)]
    else
      var s := NatToString(n / 10) + [DigitChar(n % 10)];
      assert s[..|s| - 1] == NatToString(n / 10);
      s
  }

  /** `to_string` of a signed integer: a minus sign for negatives. */
  function IntToString(i: int): (s: string)
    ensures 0 < |s|
  {
    if i < 0 then "-" + NatToString(-i) else NatToString(i)
  }

  /** The sign is visible in the first character. */
  lemma IntToStringSign(i: int)
    ensures IntToString(i)[0] == '-' <==> i < 0
  {
    if i >= 0 {
      assert IsDigit(NatToString(i)[0]);
    }
  }

  lemma IntToStringInjective(i: int, j: int)
    requires IntToString(i) == IntToString(j)
    ensures i == j
  {
    IntToStringSign(i);
    IntToStringSign(j);
    if i < 0 {
      assert NatToString(-i) == IntToString(i)[1..];
      assert NatToString(-j) == IntToString(j)[1..];
    }
  }

  function Zeros(n: nat): (s: string)
    ensures |s| == n && forall i :: 0 <= i < n ==> s[i] == '0'
  {
    if n == 0 then [] else Zeros(n - 1) + ['0']
  }

  /** `{:0>w}`: left-padded with zeros to at least w characters. */
  function ZeroPad(s: string, w: nat): (r: string)
    ensures |r| == if |s| < w then w else |s|
    ensures r[|r| - |s|..] == s
  {
    if |s| < w then Zeros(w - |s|) + s else s
  }

  lemma {:induction false} DecimalValueLeadingZeros(z: string, s: string)
    requires AllDigits(s) && forall i :: 0 <= i < |z| ==> z[i] == '0'
    ensures AllDigits(z + s) && DecimalValue(z + s) == DecimalValue(s)
  {
    if s == [] {
      assert z + s == z;
      ZerosValue(z);
    } else {
      var s' := s[..|s| - 1];
      assert (z + s)[..|z + s| - 1] == z + s';
      DecimalValueLeadingZeros(z, s');
    }
  }

  lemma {:induction false} ZerosValue(z: string)
    requires forall i :: 0 <= i < |z| ==> z[i] == '0'
    ensures AllDigits(z) && DecimalValue(z) == 0
  {
    if z != [] {
      ZerosValue(z[..|z| - 1]);
    }
  }

  /** A number written with zero padding still denotes that number. */
  lemma PaddedValue(n: nat, w: nat)
    ensures AllDigits(ZeroPad(NatToString(n), w))
    ensures DecimalValue(ZeroPad(NatToString(n), w)) == n
  {
    var s := NatToString(n);
    if |s| < w {
      DecimalValueLeadingZeros(Zeros(w - |s|), s);
    }
  }

  lemma NatToStringInjective(m: nat, n: nat)
    requires NatToString(m) == NatToString(n)
    ensures m == n
  {
  }

  lemma {:induction false} NatToStringLength(n: nat, k: nat)
    requires n < Pow10(k)
    ensures |NatToString(n)| <= if k == 0 then 1 else k
  {
    if n >= 10 {
      NatToStringLength(n / 10, k - 1);
    }
  }

  function Pow10(k: nat): (p: nat)
    ensures p >= 1
  {
    if k == 0 then 1 else 10 * Pow10(k - 1)
  }

  /** Numbers from 10^k up to 10^(k+1) - 1 take exactly k + 1 characters. */
  lemma {:induction false} NatToStringLengthExact(n: nat, k: nat)
    requires Pow10(k) <= n < 10 * Pow10(k)
    ensures |NatToString(n)| == k + 1
  {
    if k > 0 {
      NatToStringLengthExact(n / 10, k - 1);
    }
  }

  /** Four-digit numbers take exactly four characters. */
  lemma NatToStringFourDigits(n: nat)
    requires 1000 <= n <= 9999
    ensures |NatToString(n)| == 4
  {
    assert Pow10(3) == 1000;
    NatToStringLengthExact(n, 3);
  }

  /**
   * A string made of a head, a separator that is not a digit, and a run of
   * digits splits back into that head and that run in only one way.
   */
  lemma SplitBeforeDigits(a1: string, b1: string, a2: string, b2: string, c: char)
    requires AllDigits(b1) && AllDigits(b2) && !IsDigit(c)
    requires a1 + [c] + b1 == a2 + [c] + b2
    ensures a1 == a2 && b1 == b2
  {
    DigitRunNoLonger(a1, b1, a2, b2, c);
    DigitRunNoLonger(a2, b2, a1, b1, c);
    SplitAtLength(a1 + [c], b1, a2 + [c], b2);
    SplitAtLength(a1, [c], a2, [c]);
  }

  lemma DigitRunNoLonger(a1: string, b1: string, a2: string, b2: string, c: char)
    requires AllDigits(b2) && !IsDigit(c)
    requires a1 + [c] + b1 == a2 + [c] + b2
    ensures |b2| <= |b1|
  {
    if |b1| < |b2| {
      SeparatorPosition(a1, b1, a2, b2, c);
      assert false;
    }
  }

  lemma SeparatorPosition(a1: string, b1: string, a2: string, b2: string, c: char)
    requires a1 + [c] + b1 == a2 + [c] + b2 && |a2| < |a1|
    ensures b2[|a1| - |a2| - 1] == c
  {
    assert (a1 + [c] + b1)[|a1|] == c;
    assert (a2 + [c] + b2)[|a1|] == b2[|a1| - |a2| - 1];
  }

  /** Two strings with heads of the same length are equal part by part. */
  lemma SplitAtLength(a1: string, b1: string, a2: string, b2: string)
    requires |a1| == |a2| && a1 + b1 == a2 + b2
    ensures a1 == a2 && b1 == b2
  {
    assert a1 == (a1 + b1)[..|a1|];
    assert a2 == (a2 + b2)[..|a2|];
    assert b1 == (a1 + b1)[|a1|..];
    assert b2 == (a2 + b2)[|a2|..];
  }
}
