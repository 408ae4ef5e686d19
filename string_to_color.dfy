/**
 * The colour of a label (`stringToColor`): the hue is the sum of the
 * string's UTF-16 code units modulo 360, saturation 50% and lightness 60%,
 * written as CSS `hsl(...)` text.
 */
module Colors {
  import opened Text

  /** A UTF-16 code unit, as `charCodeAt` returns it. */
  type CodeUnit = u: int | 0 <= u < 0x1_0000

  /** The sum of the code units; it grows by at most 0xFFFF per unit. */
  function Sum(str: seq<CodeUnit>): (n: nat)
    ensures n <= 0xFFFF * |str|
  {
    if str == [] then 0 else Sum(str[..|str| - 1]) + str[|str| - 1]
  }

  /** The hue of a string: always one of 0 .. 359. */
  function Hue(str: seq<CodeUnit>): (h: nat)
    ensures h < 360
  {
    Sum(str) % 360
  }

  /** The CSS text `hsl(h, s%, l%)`. */
  function HslText(h: int, s: int, l: int): string
  {
    "hsl(" + IntToString(h) + (", " + IntToString(s) + "%, " + IntToString(l) + "%)")
  }

  /** The loop of `stringToHslColor`: add every code unit to `total`. */
  method Total(str: seq<CodeUnit>) returns (total: nat)
    ensures total == Sum(str)
  {
    total := 0;
    for i := 0 to |str|
      invariant total == Sum(str[..i])
    {
      assert str[..i + 1][..i] == str[..i];
      total := total + str[i];
    }
    assert str[..|str|] == str;
  }

  /** `stringToHslColor(str, s, l)`. */
  method StringToHslColor(str: seq<CodeUnit>, s: int, l: int) returns (r: string)
    ensures r == HslText(Hue(str), s, l)
  {
    var total := Total(str);
    var h := total % 360;
    r := "hsl(" + IntToString(h) + (", " + IntToString(s) + "%, " + IntToString(l) + "%)");
  }

  /** `stringToColor(str)`: saturation 50, lightness 60. */
  method StringToColor(str: seq<CodeUnit>) returns (r: string)
    ensures r == HslText(Hue(str), 50, 60)
  {
    r := StringToHslColor(str, 50, 60);
  }

  // ---------------------------------------------------------------------------
  // Properties
  // ---------------------------------------------------------------------------

  /** The empty string has hue 0. */
  lemma EmptyColor()
    ensures Hue([]) == 0
    ensures HslText(Hue([]), 50, 60) == "hsl(0, 50%, 60%)"
  {
    TwoDigits(5);
    TwoDigits(6);
    assert IntToString(0) == "0";
    assert HslText(0, 50, 60) == "hsl(" + "0" + (", " + "50" + "%, " + "60" + "%)");
  }

  /** Ten times a digit from 1 to 9 is written as that digit and a zero. */
  lemma TwoDigits(d: nat)
    requires 1 <= d <= 9
    ensures IntToString(10 * d) == [DigitChar(d), '0']
  {
    var n := 10 * d;
    assert n / 10 == d && n % 10 == 0;
    assert NatToString(n) == NatToString(d) + [DigitChar(0)];
  }

  /** The sum of a concatenation is the sum of the sums. */
  lemma {:induction false} SumAppend(a: seq<CodeUnit>, b: seq<CodeUnit>)
    ensures Sum(a + b) == Sum(a) + Sum(b)
    decreases |b|
  {
    if b == [] {
      assert a + b == a;
    } else {
      var init := b[..|b| - 1];
      assert (a + b)[..|a + b| - 1] == a + init;
      SumAppend(a, init);
    }
  }

  /** The hue of a concatenation is the sum of the hues, modulo 360. */
  lemma HueAppend(a: seq<CodeUnit>, b: seq<CodeUnit>)
    ensures Hue(a + b) == (Hue(a) + Hue(b)) % 360
  {
    SumAppend(a, b);
    var x, y := Sum(a), Sum(b);
    var qx, qy := x / 360, y / 360;
    assert x == 360 * qx + Hue(a) && y == 360 * qy + Hue(b);
    assert x + y == 360 * (qx + qy) + (Hue(a) + Hue(b));
    ModShift(Hue(a) + Hue(b), qx + qy);
  }

  lemma ModShift(r: nat, q: nat)
    ensures (360 * q + r) % 360 == r % 360
  {
    var k := r / 360;
    assert r == 360 * k + r % 360;
    assert 360 * q + r == 360 * (q + k) + r % 360;
  }

  /** Reordering the code units leaves the sum unchanged. */
  lemma {:induction false} SumPermutation(a: seq<CodeUnit>, b: seq<CodeUnit>)
    requires multiset(a) == multiset(b)
    ensures Sum(a) == Sum(b)
    decreases |a|
  {
    if a != [] {
      var x := a[|a| - 1];
      var init := a[..|a| - 1];
      assert a == init + [x];
      assert x in multiset(b);
      var j :| 0 <= j < |b| && b[j] == x;
      var rest := b[..j] + b[j + 1..];
      assert b == b[..j] + [x] + b[j + 1..];
      assert multiset(b) == multiset(b[..j]) + multiset{x} + multiset(b[j + 1..]);
      assert multiset(a) == multiset(init) + multiset{x};
      assert multiset(rest) == multiset(b[..j]) + multiset(b[j + 1..]);
      Cancel(multiset(init), multiset(rest), x);
      SumPermutation(init, rest);
      SumAppend(b[..j] + [x], b[j + 1..]);
      SumAppend(b[..j], [x]);
      SumAppend(b[..j], b[j + 1..]);
      assert Sum([x]) == x by {
        assert [x][..0] == [];
      }
    }
  }

  lemma Cancel(p: multiset<CodeUnit>, q: multiset<CodeUnit>, x: CodeUnit)
    requires p + multiset{x} == q + multiset{x}
    ensures p == q
  {
    forall y
      ensures p[y] == q[y]
    {
      assert (p + multiset{x})[y] == (q + multiset{x})[y];
    }
  }

  /** Strings that are permutations of each other get the same colour. */
  lemma PermutationSameColor(a: seq<CodeUnit>, b: seq<CodeUnit>, s: int, l: int)
    requires multiset(a) == multiset(b)
    ensures Hue(a) == Hue(b) && HslText(Hue(a), s, l) == HslText(Hue(b), s, l)
  {
    SumPermutation(a, b);
  }

  /** With the same saturation and lightness, two colours are equal exactly when their hues are. */
  lemma SameColorSameHue(h1: nat, h2: nat, s: int, l: int)
    ensures HslText(h1, s, l) == HslText(h2, s, l) <==> h1 == h2
  {
    if HslText(h1, s, l) == HslText(h2, s, l) {
      var tail := ", " + IntToString(s) + "%, " + IntToString(l) + "%)";
      var d1, d2 := IntToString(h1), IntToString(h2);
      SplitAtLength("hsl(" + d1, tail, "hsl(" + d2, tail);
      SplitAtLength("hsl(", d1, "hsl(", d2);
      IntToStringInjective(h1, h2);
    }
  }
}
