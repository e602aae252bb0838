/**
  Spreadsheet column names: numbers written with the digits A to Z and no zero.
*/
module Columns {

  function Letter(i: int): char
    requires 0 <= i < 26
  {
    'A' + i as char
  }

  predicate IsName(s: string) {
    forall k | 0 <= k < |s| :: 'A' <= s[k] <= 'Z'
  }

  function Name(index: int): string
    decreases index + 1
  {
    if index < 0 then "" else Name(index / 26 - 1) + [Letter(index % 26)]
  }

  method ColumnName(index: int) returns (name: string)
    ensures name == Name(index)
  {
    name := "";
    var i := index;
    while i >= 0
      invariant Name(index) == Name(i) + name
      decreases i + 1
    {
      name := [Letter(i % 26)] + name;
      i := i / 26 - 1;
    }
  }

  /** The index a name stands for; -1 for the empty name. */
  function Number(name: string): int {
    if name == "" then -1
    else 26 * (Number(name[..|name| - 1]) + 1) + (name[|name| - 1] as int - 'A' as int)
  }

  lemma NumberBack(init: string, x: char)
    ensures Number(init + [x]) == 26 * (Number(init) + 1) + (x as int - 'A' as int)
  {
    assert (init + [x])[..|init|] == init;
  }

  lemma NameBack(init: string, i: int)
    requires 0 <= i < 26 && IsName(init)
    ensures IsName(init + [Letter(i)])
  {
  }

  lemma {:induction false} NumberOfName(index: int)
    requires index >= -1
    ensures Number(Name(index)) == index && IsName(Name(index)) && (index >= 0 <==> Name(index) != "")
    decreases index + 1
  {
    if index >= 0 {
      var q, r := index / 26, index % 26;
      NumberOfName(q - 1);
      NumberBack(Name(q - 1), Letter(r));
      NameBack(Name(q - 1), r);
      assert 26 * q + r == index;
    }
  }

  lemma {:induction false} NumberBounds(name: string)
    requires IsName(name)
    ensures Number(name) >= -1 && (name != "" <==> Number(name) >= 0)
  {
    if name != "" {
      NumberBounds(name[..|name| - 1]);
    }
  }

  /** What division gives back of a number written with a last digit. */
  lemma DigitsBack(q: int, d: int)
    requires q >= -1 && 0 <= d < 26
    ensures (26 * (q + 1) + d) / 26 - 1 == q && (26 * (q + 1) + d) % 26 == d
  {
  }

  lemma NameBackOf(q: int, d: int)
    requires q >= -1 && 0 <= d < 26
    ensures Name(26 * (q + 1) + d) == Name(q) + [Letter(d)]
  {
    DigitsBack(q, d);
  }

  lemma {:induction false} NameOfNumber(name: string)
    requires IsName(name)
    ensures Name(Number(name)) == name
  {
    if name != "" {
      var n := |name| - 1;
      var init, last := name[..n], name[n];
      var digit := last as int - 'A' as int;
      assert 0 <= digit < 26 && Letter(digit) == last;
      NumberBounds(init);
      NameOfNumber(init);
      NameBackOf(Number(init), digit);
      NumberBack(init, last);
      assert name == init + [last];
    }
  }

  /** The order of the letters from the front. */
  predicate Lexicographic(s: string, t: string)
    requires |s| == |t|
  {
    s != "" && (s[0] < t[0] || (s[0] == t[0] && Lexicographic(s[1..], t[1..])))
  }

  predicate Before(s: string, t: string) {
    |s| < |t| || (|s| == |t| && Lexicographic(s, t))
  }

  lemma {:induction false} LexicographicBack(s: string, t: string, a: char, b: char)
    requires |s| == |t|
    ensures Lexicographic(s + [a], t + [b]) <==> Lexicographic(s, t) || (s == t && a < b)
  {
    if s != "" {
      LexicographicBack(s[1..], t[1..], a, b);
      assert (s + [a])[1..] == s[1..] + [a] && (t + [b])[1..] == t[1..] + [b];
      assert s == t <==> s[0] == t[0] && s[1..] == t[1..] by {
        assert s == [s[0]] + s[1..] && t == [t[0]] + t[1..];
      }
    }
  }

  lemma {:induction false} ShorterIsSmaller(s: string, t: string)
    requires IsName(s) && IsName(t) && |s| < |t|
    ensures Number(s) < Number(t)
    decreases |s|
  {
    if s == "" {
      NumberBounds(t);
    } else {
      ShorterIsSmaller(s[..|s| - 1], t[..|t| - 1]);
    }
  }

  lemma {:induction false} SameLengthOrder(s: string, t: string)
    requires IsName(s) && IsName(t) && |s| == |t|
    ensures Number(s) < Number(t) <==> Lexicographic(s, t)
    ensures Number(s) == Number(t) <==> s == t
    decreases |s|
  {
    if s != "" {
      var n := |s| - 1;
      var x, y := s[n], t[n];
      assert s == s[..n] + [x] && t == t[..n] + [y];
      SameLengthOrder(s[..n], t[..n]);
      LexicographicBack(s[..n], t[..n], x, y);
      NumberBack(s[..n], x);
      NumberBack(t[..n], y);
      LastDigit(Number(s[..n]), x as int - 'A' as int, Number(t[..n]), y as int - 'A' as int);
    }
  }

  /** The last digit decides only between numbers that are alike before it. */
  lemma LastDigit(a: int, x: int, b: int, y: int)
    requires 0 <= x < 26 && 0 <= y < 26
    ensures 26 * (a + 1) + x < 26 * (b + 1) + y <==> a < b || (a == b && x < y)
    ensures 26 * (a + 1) + x == 26 * (b + 1) + y <==> a == b && x == y
  {
  }

  /** `columnName` is a bijection from the non-negative integers to the non-empty names, with `Number` as its inverse on
      both sides, and it is increasing: shorter names first, then lexicographic order. */
  lemma ColumnNamesAreABijection(i: nat, j: nat, name: string)
    requires IsName(name) && name != ""
    ensures Number(Name(i)) == i && Name(i) != "" && IsName(Name(i))
    ensures Number(name) >= 0 && Name(Number(name)) == name
    ensures i < j <==> Before(Name(i), Name(j))
    ensures i != j ==> Name(i) != Name(j)
  {
    NumberOfName(i);
    NumberOfName(j);
    NumberBounds(name);
    NameOfNumber(name);
    var s, t := Name(i), Name(j);
    if |s| < |t| {
      ShorterIsSmaller(s, t);
    } else if |t| < |s| {
      ShorterIsSmaller(t, s);
    } else {
      SameLengthOrder(s, t);
    }
  }
}
