/** Decimal numerals and lower case. */
module Texts {

  // ---- Numerals ----

  function DigitsOf(n: nat): string {
    if n < 10 then [n as char + '0'] else DigitsOf(n / 10) + [(n % 10) as char + '0']
  }

  /** What a text of digits stands for. */
  function ValueOf(s: string): int {
    if s == "" then 0 else 10 * ValueOf(s[..|s| - 1]) + (s[|s| - 1] as int - 48)
  }

  /** The one numeral of a number: digits only, no leading zero, and its value. */
  predicate IsNumeral(s: string, n: nat) {
    && s != "" && (forall i :: 0 <= i < |s| ==> 48 <= s[i] as int <= 57)
    && (n > 0 ==> s[0] != '0') && (n == 0 ==> |s| == 1) && ValueOf(s) == n
  }

  lemma {:induction false} DigitsOfIsNumeral(n: nat)
    ensures IsNumeral(DigitsOf(n), n)
  {
    var s := DigitsOf(n);
    if n < 10 {
      assert s[..0] == "";
    } else {
      DigitsOfIsNumeral(n / 10);
      assert s[..|s| - 1] == DigitsOf(n / 10);
    }
  }

  // ---- Lower case ----

  /** Lower case as far as it can yield an ASCII letter: besides A-Z that is the Kelvin sign. */
  function LowerChar(c: char): char {
    if 'A' <= c <= 'Z' then c + '\U{20}' else if c == '\U{212A}' then 'k' else c
  }

  function Lower(s: string): (r: string)
    ensures |r| == |s|
  {
    seq(|s|, i requires 0 <= i < |s| => LowerChar(s[i]))
  }

  /** A letter of a lower-case word, or its capital, whose code is 32 less; for a k also the Kelvin sign. */
  predicate SameLetter(w: char, c: char) {
    c == w || ('a' <= w <= 'z' && c as int == w as int - 32) || (w == 'k' && c as int == 0x212A)
  }

  predicate SameLetters(w: string, s: string) {
    |s| == |w| && forall i :: 0 <= i < |w| ==> SameLetter(w[i], s[i])
  }

  predicate NoCapitals(w: string) {
    forall i :: 0 <= i < |w| ==> !('A' <= w[i] <= 'Z') && w[i] != '\U{212A}'
  }

  /** A text has a word as its lower case exactly if it spells it in letters of any case. */
  lemma LowerIsSpelling(w: string, s: string)
    requires NoCapitals(w)
    ensures Lower(s) == w <==> SameLetters(w, s)
  {
    if SameLetters(w, s) {
      forall i | 0 <= i < |s| ensures Lower(s)[i] == w[i] { assert SameLetter(w[i], s[i]); }
    }
    if Lower(s) == w {
      forall i | 0 <= i < |w| ensures SameLetter(w[i], s[i]) { assert Lower(s)[i] == w[i]; }
    }
  }
}
