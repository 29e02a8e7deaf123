/** The letters and digits of ASCII, written out. */
module Alphabet {

  const LOWER := "abcdefghijklmnopqrstuvwxyz"
  const UPPER := "ABCDEFGHIJKLMNOPQRSTUVWXYZ"
  const DIGITS := "0123456789"

  lemma LowerAt(i: nat)
    requires i < 26
    ensures |LOWER| == 26 && LOWER[i] as int == 'a' as int + i
  {
  }

  lemma UpperAt(i: nat)
    requires i < 26
    ensures |UPPER| == 26 && UPPER[i] as int == 'A' as int + i
  {
  }

  lemma LowerIff(c: char)
    ensures c in LOWER <==> 'a' <= c <= 'z'
  {
    forall i | 0 <= i < |LOWER| ensures 'a' <= LOWER[i] <= 'z' {
      LowerAt(i);
    }
    if 'a' <= c <= 'z' {
      LowerAt(c as int - 'a' as int);
    }
  }

  lemma UpperIff(c: char)
    ensures c in UPPER <==> 'A' <= c <= 'Z'
  {
    forall i | 0 <= i < |UPPER| ensures 'A' <= UPPER[i] <= 'Z' {
      UpperAt(i);
    }
    if 'A' <= c <= 'Z' {
      UpperAt(c as int - 'A' as int);
    }
  }

  lemma DigitsIff(c: char)
    ensures c in DIGITS <==> '0' <= c <= '9'
  {
    assert DIGITS[0] == '0' && DIGITS[1] == '1' && DIGITS[2] == '2' && DIGITS[3] == '3' && DIGITS[4] == '4';
    assert DIGITS[5] == '5' && DIGITS[6] == '6' && DIGITS[7] == '7' && DIGITS[8] == '8' && DIGITS[9] == '9';
  }
}
