/**
 * String helpers that the Python code takes from `str`: `sep.join(xs)`,
 * `s.split(sep)` for a one-character separator, and decimal rendering of
 * integers as f-strings do it (`f"{n}"`, `f"{n:02d}"`).
 */
module Text {

  /** `sep.join(xs)` for a one-character separator. */
  function Join(sep: char, xs: seq<string>): string
    decreases |xs|
  {
    if |xs| == 0 then ""
    else if |xs| == 1 then xs[0]
    else xs[0] + [sep] + Join(sep, xs[1..])
  }

  /** `s.split(sep)` for a one-character separator: always at least one piece. */
  function Split(sep: char, s: string): (pieces: seq<string>)
    ensures |pieces| >= 1
    decreases |s|
  {
    if |s| == 0 then [""]
    else if s[0] == sep then [""] + Split(sep, s[1..])
    else
      var rest := Split(sep, s[1..]);
      [[s[0]] + rest[0]] + rest[1..]
  }

  /** No piece contains the separator. */
  predicate FreeOf(sep: char, xs: seq<string>)
  {
    forall i :: 0 <= i < |xs| ==> sep !in xs[i]
  }

  /** Splitting a separator-free prefix followed by the separator peels that prefix off. */
  lemma {:induction false} SplitPeel(sep: char, a: string, b: string)
    requires sep !in a
    ensures Split(sep, a + [sep] + b) == [a] + Split(sep, b)
    decreases |a|
  {
    if |a| == 0 {
      assert a + [sep] + b == [sep] + b;
      assert ([sep] + b)[1..] == b;
    } else {
      var s := a + [sep] + b;
      assert s[0] == a[0];
      assert s[1..] == a[1..] + [sep] + b;
      SplitPeel(sep, a[1..], b);
      assert [a[0]] + a[1..] == a;
    }
  }

  /** Splitting three separator-free lines ahead of the rest peels all three off. */
  lemma SplitPeel3(sep: char, a: string, b: string, c: string, rest: string)
    requires sep !in a && sep !in b && sep !in c
    ensures Split(sep, a + [sep] + b + [sep] + c + [sep] + rest) == [a, b, c] + Split(sep, rest)
  {
    var r3 := c + [sep] + rest;
    var r2 := b + [sep] + r3;
    var r1 := a + [sep] + r2;
    SplitPeel(sep, c, rest);
    SplitPeel(sep, b, r3);
    SplitPeel(sep, a, r2);
    assert Split(sep, r1) == [a, b, c] + Split(sep, rest);
    assert a + [sep] + b + [sep] + c + [sep] + rest == r1;
  }

  /** A separator-free string splits into itself. */
  lemma {:induction false} SplitWhole(sep: char, a: string)
    requires sep !in a
    ensures Split(sep, a) == [a]
    decreases |a|
  {
    if |a| > 0 {
      SplitWhole(sep, a[1..]);
      assert [a[0]] + a[1..] == a;
    }
  }

  /** Round trip: splitting the join of separator-free pieces gives the pieces back. */
  lemma {:induction false} SplitJoin(sep: char, xs: seq<string>)
    requires |xs| >= 1 && FreeOf(sep, xs)
    ensures Split(sep, Join(sep, xs)) == xs
    decreases |xs|
  {
    if |xs| == 1 {
      SplitWhole(sep, xs[0]);
    } else {
      assert FreeOf(sep, xs[1..]) by {
        forall i | 0 <= i < |xs[1..]| ensures sep !in xs[1..][i] {
          assert xs[1..][i] == xs[i + 1];
        }
      }
      SplitPeel(sep, xs[0], Join(sep, xs[1..]));
      SplitJoin(sep, xs[1..]);
      assert [xs[0]] + xs[1..] == xs;
    }
  }

  /** Joining one more piece appends the separator and the piece. */
  lemma {:induction false} JoinSnoc(sep: char, xs: seq<string>, x: string)
    requires |xs| >= 1
    ensures Join(sep, xs + [x]) == Join(sep, xs) + [sep] + x
    decreases |xs|
  {
    if |xs| == 1 {
      assert (xs + [x])[1..] == [x];
    } else {
      assert (xs + [x])[1..] == xs[1..] + [x];
      JoinSnoc(sep, xs[1..], x);
    }
  }

  /** Regrouping `[c] + j` followed by `[c] + x`. */
  lemma RegroupLines(c: char, j: string, x: string)
    ensures ([c] + j) + ([c] + x) == [c] + (j + [c] + x)
  {
  }

  /** A text that is a line break and joined lines stays so with one more line. */
  lemma JoinSnocLine(text: string, xs: seq<string>, x: string)
    requires |xs| >= 1 && text == "\n" + Join('\n', xs)
    ensures text + ("\n" + x) == "\n" + Join('\n', xs + [x])
  {
    JoinSnoc('\n', xs, x);
    RegroupLines('\n', Join('\n', xs), x);
  }

  /** Joining is injective on non-empty lists of separator-free pieces. */
  lemma JoinInjective(sep: char, xs: seq<string>, ys: seq<string>)
    requires |xs| >= 1 && FreeOf(sep, xs)
    requires |ys| >= 1 && FreeOf(sep, ys)
    ensures Join(sep, xs) == Join(sep, ys) <==> xs == ys
  {
    SplitJoin(sep, xs);
    SplitJoin(sep, ys);
  }

  /** The character of a decimal digit. */
  function DigitChar(d: nat): (c: char)
    requires d < 10
    ensures '0' <= c <= '9'
  {
    "0123456789"[d]
  }

  /** The value of a decimal digit character. */
  function DigitValue(c: char): nat
    requires '0' <= c <= '9'
  {
    (c as int) - ('0' as int)
  }

  predicate IsDigits(s: string)
  {
    forall i :: 0 <= i < |s| ==> '0' <= s[i] <= '9'
  }

  /** `f"{n}"` for a non-negative integer: decimal, no leading zeros. */
  function NatToString(n: nat): (s: string)
    ensures |s| >= 1 && IsDigits(s)
    ensures |s| > 1 ==> s[0] != '0'
    ensures n < 10 ==> |s| == 1
    ensures n < 100 ==> |s| <= 2
    decreases n
  {
    if n < 10 then [DigitChar(n)]
    else NatToString(n / 10) + [DigitChar(n % 10)]
  }

  /** Reads a string of decimal digits back as a number (leading zeros allowed). */
  function ParseNat(s: string): nat
    requires IsDigits(s)
    decreases |s|
  {
    if |s| == 0 then 0
    else ParseNat(s[..|s| - 1]) * 10 + DigitValue(s[|s| - 1])
  }

  /** Round trip: the decimal rendering of `n` reads back as `n`. */
  lemma {:induction false} ParseNatToString(n: nat)
    ensures ParseNat(NatToString(n)) == n
    decreases n
  {
    var s := NatToString(n);
    if n >= 10 {
      ParseNatToString(n / 10);
      assert s[..|s| - 1] == NatToString(n / 10);
      assert DigitValue(s[|s| - 1]) == n % 10 by {
        assert "0123456789"[n % 10] as int - '0' as int == n % 10;
      }
    } else {
      assert "0123456789"[n] as int - '0' as int == n;
    }
  }

  /** `f"{n:02d}"`: the decimal rendering zero-padded to at least two characters;
    * a negative number keeps its sign and is never shorter than two characters. */
  function Pad2(n: int): (s: string)
    ensures |s| >= 2
    ensures 0 <= n < 100 ==> |s| == 2
    ensures n >= 0 ==> IsDigits(s) && ParseNat(s) == n
    ensures n >= 0 ==> |s| == 2 || s[0] != '0'
    ensures n < 0 ==> s[0] == '-' && IsDigits(s[1..]) && ParseNat(s[1..]) == -n
  {
    if n < 0 then
      ParseNatToString(-n);
      assert ("-" + NatToString(-n))[1..] == NatToString(-n);
      "-" + NatToString(-n)
    else
      ParseNatToString(n);
      if n < 10 then
        assert ParseNat("0" + NatToString(n)) == n by {
          var t := "0" + NatToString(n);
          assert t[..1] == "0" && t[1] == NatToString(n)[0];
          assert ParseNat(t[..1]) == 0 by {
            assert t[..1][..0] == "";
          }
          assert ParseNat(NatToString(n)) == DigitValue(NatToString(n)[0]) by {
            assert NatToString(n)[..0] == "";
          }
        }
        "0" + NatToString(n)
      else NatToString(n)
  }
}
