/**
 * A1-style column letters (ECMA-376 Part 1, section 18.3.1.4, cell references) as logger/app.js
 * writes them (`columnName`) and reads them back (`columnLettersToIndex`). Column letters are
 * bijective base 26: the digits are `A` = 1 to `Z` = 26 and there is no zero digit.
 */
module LoggerColumns {
  predicate IsUpper(c: char) {
    'A' <= c <= 'Z'
  }

  predicate AllUpper(s: string) {
    forall i :: 0 <= i < |s| ==> IsUpper(s[i])
  }

  /** The bijective base-26 numeral of `n`; empty for 0. */
  function Letters(n: nat): (r: string)
    ensures (|r| == 0) == (n == 0)
    ensures AllUpper(r)
    decreases n
  {
    if n == 0 then "" else Letters((n - 1) / 26) + [(65 + (n - 1) % 26) as char]
  }

  /** The letters `columnName(index)` returns for the zero-based column `index`. */
  function ColumnLabel(index: nat): (r: string)
    ensures |r| >= 1 && AllUpper(r)
  {
    Letters(index + 1)
  }

  /** `columnName(index)`: the `while (num > 0)` loop, prepending one letter per step. */
  method ColumnName(index: nat) returns (name: string)
    ensures name == ColumnLabel(index)
  {
    name := "";
    var num: nat := index + 1;
    while num > 0
      invariant Letters(num) + name == Letters(index + 1)
      decreases num
    {
      var rem := (num - 1) % 26;
      assert Letters(num) == Letters((num - 1) / 26) + [(65 + rem) as char];
      name := [(65 + rem) as char] + name;
      num := (num - 1) / 26;
    }
    assert Letters(num) == "";
  }

  /** The number `index = index * 26 + (code - 64)` accumulates over the letters. */
  function LettersValue(s: string): int
    decreases |s|
  {
    if s == [] then 0 else LettersValue(s[..|s| - 1]) * 26 + (s[|s| - 1] as int - 64)
  }

  /** The value of well-formed letters is at least 1. */
  lemma {:induction false} LettersValuePositive(s: string)
    requires AllUpper(s) && s != []
    ensures LettersValue(s) >= 1
    decreases |s|
  {
    var init := s[..|s| - 1];
    if init != [] {
      LettersValuePositive(init);
    }
  }

  /** `columnLettersToIndex(letters)`: `Math.max(0, index - 1)`. */
  function ColumnIndexOf(letters: string): nat {
    var v := LettersValue(letters);
    if v - 1 > 0 then v - 1 else 0
  }

  /** `columnLettersToIndex(letters)`: the `for` loop over the character codes. */
  method ColumnLettersToIndex(letters: string) returns (index: nat)
    ensures index == ColumnIndexOf(letters)
  {
    var acc := 0;
    var i := 0;
    while i < |letters|
      invariant i <= |letters|
      invariant acc == LettersValue(letters[..i])
    {
      assert letters[..i + 1][..i] == letters[..i];
      acc := acc * 26 + (letters[i] as int - 64);
      i := i + 1;
    }
    assert letters[..i] == letters;
    index := if acc - 1 > 0 then acc - 1 else 0;
  }

  /** Reading a numeral back gives its number. */
  lemma {:induction false} LettersValueOfLetters(n: nat)
    ensures LettersValue(Letters(n)) == n
    decreases n
  {
    if n > 0 {
      var q := (n - 1) / 26;
      var s := Letters(n);
      assert s[..|s| - 1] == Letters(q);
      LettersValueOfLetters(q);
    }
  }

  /** Writing the number of uppercase letters gives the same letters. */
  lemma {:induction false} LettersOfLettersValue(s: string)
    requires AllUpper(s)
    ensures LettersValue(s) >= 0
    ensures Letters(LettersValue(s)) == s
    decreases |s|
  {
    if s != [] {
      var init := s[..|s| - 1];
      var d := s[|s| - 1] as int - 64;
      LettersOfLettersValue(init);
      var n := LettersValue(s);
      assert n == LettersValue(init) * 26 + d && 1 <= d <= 26;
      assert (n - 1) / 26 == LettersValue(init) && (n - 1) % 26 == d - 1;
      assert s == init + [s[|s| - 1]];
    }
  }

  /** `columnLettersToIndex` inverts `columnName` on every column index. */
  lemma {:induction false} ColumnIndexOfLabel(index: nat)
    ensures ColumnIndexOf(ColumnLabel(index)) == index
  {
    LettersValueOfLetters(index + 1);
  }

  /** `columnName` inverts `columnLettersToIndex` on every non-empty run of uppercase letters. */
  lemma {:induction false} ColumnLabelOfIndex(letters: string)
    requires AllUpper(letters) && letters != []
    ensures ColumnLabel(ColumnIndexOf(letters)) == letters
  {
    LettersValuePositive(letters);
    LettersOfLettersValue(letters);
  }

  /** Column names are one-to-one. */
  lemma {:induction false} ColumnLabelInjective(i: nat, j: nat)
    requires ColumnLabel(i) == ColumnLabel(j)
    ensures i == j
  {
    ColumnIndexOfLabel(i);
    ColumnIndexOfLabel(j);
  }

  /** The first and last columns of the one-, two- and three-letter ranges. */
  lemma {:induction false} ColumnLabelSamples()
    ensures ColumnLabel(0) == "A" && ColumnLabel(25) == "Z"
    ensures ColumnLabel(26) == "AA" && ColumnLabel(701) == "ZZ"
    ensures ColumnLabel(702) == "AAA"
  {
    assert Letters(1) == "A";
    assert Letters(26) == "Z";
    assert Letters(27) == Letters(1) + "A";
    assert Letters(702) == Letters(26) + "Z";
    assert Letters(703) == Letters(27) + "A";
  }
}
