/**
 * The SKU disambiguation prefix: the n-th duplicate (counting from 0) of a
 * SKU is prefixed with a lower-case letter while the alphabet lasts, and with
 * a decimal number after that.
 */
module SkuPrefix {
  import opened Text

  const Alphabet: string := "abcdefghijklmnopqrstuvwxyz"

  predicate IsPrefixChar(c: char) {
    ('a' <= c <= 'z') || IsDigit(c)
  }

  /**
   * `getNextPrefix(count)`. The letter `alphabet[count]` is computed from
   * its character code; `PrefixIsLetter` proves it is the count-th letter of
   * `Alphabet`.
   */
  function GetNextPrefix(count: nat): (r: string)
    ensures |r| >= 1
    ensures forall i :: 0 <= i < |r| ==> IsPrefixChar(r[i])
  {
    if count < 26 then [('a' as int + count) as char] else NatToString(count - 26 + 1)
  }

  /** Below 26 the prefix is the count-th letter of the alphabet. */
  lemma PrefixIsLetter(n: nat)
    requires n < 26
    ensures GetNextPrefix(n) == [Alphabet[n]]
    ensures 'a' <= GetNextPrefix(n)[0] <= 'z'
  {
    assert forall k :: 0 <= k < 26 ==> Alphabet[k] == ('a' as int + k) as char;
  }

  /** From 26 on the prefix is the decimal number n - 25, with no leading zero. */
  lemma PrefixIsNumber(n: nat)
    requires n >= 26
    ensures forall i :: 0 <= i < |GetNextPrefix(n)| ==> IsDigit(GetNextPrefix(n)[i])
    ensures GetNextPrefix(n)[0] != '0'
    ensures DecimalValue(GetNextPrefix(n)) == n - 25
  {
    DecimalRoundTrip(n - 25);
    var r := NatToString(n - 25);
    if |r| == 1 {
      assert DecimalValue(r) == DigitValue(r[0]) by {
        assert r[..0] == [];
      }
    }
  }

  /** Different counts give different prefixes. */
  lemma PrefixInjective(m: nat, n: nat)
    requires GetNextPrefix(m) == GetNextPrefix(n)
    ensures m == n
  {
    if m < 26 && n < 26 {
      PrefixIsLetter(m);
      PrefixIsLetter(n);
    } else if m >= 26 && n >= 26 {
      PrefixIsNumber(m);
      PrefixIsNumber(n);
    } else if m < 26 {
      PrefixIsNumber(n);
    } else {
      PrefixIsNumber(m);
    }
  }

  /** A prefix contains no space, so trimming leaves it alone. */
  lemma PrefixHasNoSpace(n: nat)
    ensures forall i :: 0 <= i < |GetNextPrefix(n)| ==> !IsSpace(GetNextPrefix(n)[i])
  {
  }
}
