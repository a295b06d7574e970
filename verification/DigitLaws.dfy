/** Digits are what they look like: the digit table of number literals and the hex digits
    of escape sequences, against the characters. */
module DigitLaws {
  import opened Words
  import I = IntLiteral
  import E = EscapeSeq

  /** The byte of the character `i` places behind `c`. */
  function Byte(c: char, i: nat): u8 {
    (c as int + i) % 0x100
  }

  /** Decimal digits count from 0, letters of either case from 10. */
  lemma DigitsInOrder(i: nat)
    ensures i < 10 ==> I.DigitOf(Byte('0', i)) == i
    ensures i < 26 ==> I.DigitOf(Byte('a', i)) == I.DigitOf(Byte('A', i)) == 10 + i
  {
  }

  /** There are no other digits. */
  lemma OnlyDigits(c: u8)
    ensures I.DigitOf(c) < 36 <==> '0' <= c as char <= '9' || 'a' <= c as char <= 'z' || 'A' <= c as char <= 'Z'
  {
  }

  /** The hex digits of escapes and of separators are the digits of base 16, with the same
      values; letters and digits together are those of base 36. */
  lemma HexAgrees(c: u8)
    ensures E.IsHex(c) <==> I.DigitOf(c) < 16
    ensures E.IsHex(c) ==> E.FromHex(c) == I.DigitOf(c)
    ensures I.IsHex(c) <==> I.DigitOf(c) < 16
    ensures I.IsAlnum(c) <==> I.DigitOf(c) < 36
  {
  }

  /** Signs, the dot, the separator, the braces and the letter of escapes. */
  lemma Marks()
    ensures I.MINUS as char == '-' && I.PLUS as char == '+' && I.DOT as char == '.' && I.QUOTE as char == '\''
    ensures E.LOWER_U as char == 'u' && E.OPEN_BRACE as char == '{' && E.CLOSE_BRACE as char == '}'
  {
  }

  /* The text of number literals. */

  /** What stands before the digits: `0b`, `0o`, `0x` or nothing. */
  lemma PrefixLaw(text: I.Text)
    ensures I.Start(text) == if |text| >= 2 && text[0] as char == '0' && text[1] as char in {'b', 'o', 'x'} then 2 else 0
  {
  }

  /** The separators are taken out and nothing else is. */
  function WithoutQuotes(s: I.Text): I.Text {
    if s == [] then []
    else WithoutQuotes(s[..|s| - 1]) + if s[|s| - 1] as char == '\'' then [] else [s[|s| - 1]]
  }

  lemma {:induction false} FilterQuotes(s: I.Text)
    requires forall i | 0 <= i < |s| :: I.DigitOf(s[i]) < 36 || s[i] as char == '\''
    ensures I.Filter(s) == WithoutQuotes(s)
  {
    if s != [] {
      FilterQuotes(s[..|s| - 1]);
      HexAgrees(s[|s| - 1]);
    }
  }

  /** The digits of a number are its characters behind the prefix without the separators. */
  lemma DigitsLaw(text: I.Text, base: nat)
    requires I.IsBase(base) && I.IsNumber(text, base)
    ensures I.Start(text) <= |text| && I.DigitsOf(text) == WithoutQuotes(text[I.Start(text)..])
  {
    hide I.Filter, WithoutQuotes, I.DigitOf;
    var s := text[I.Start(text)..];
    assert text[I.Start(text)..|text|] == s;
    forall i | 0 <= i < |s| ensures I.DigitOf(s[i]) < 36 || s[i] as char == '\'' {
      assert s[i] == text[I.Start(text) + i];
    }
    FilterQuotes(s);
  }

  predicate BetweenDigits(text: I.Text, i: nat)
    requires i < |text|
  {
    0 < i < |text| - 1 && I.DigitOf(text[i - 1]) < 16 && I.DigitOf(text[i + 1]) < 16
  }

  /** Separators are well placed exactly when each stands between two digits. */
  lemma SeparatorLaw(text: I.Text)
    ensures !I.BadSeparator(text, |text|) <==>
              forall i: nat | I.Start(text) <= i < |text| && text[i] as char == '\'' :: BetweenDigits(text, i)
  {
    hide I.DigitOf;
    forall i: nat | I.Start(text) <= i < |text|
      ensures I.Misplaced(text, |text|, i) <==> text[i] as char == '\'' && !BetweenDigits(text, i)
    {
      if 0 < i < |text| - 1 {
        HexAgrees(text[i - 1]);
        HexAgrees(text[i + 1]);
      }
    }
    if I.BadSeparator(text, |text|) {
      var i: nat :| I.Start(text) <= i < |text| && I.Misplaced(text, |text|, i);
      assert text[i] as char == '\'' && !BetweenDigits(text, i);
    }
  }
}
