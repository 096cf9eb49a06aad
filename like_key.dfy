/** The string key under which a like is stored: the rating id and the user id
    in decimal, joined by a dash. The parser below is the key's inverse; it shows
    that distinct (rating, user) pairs never share a key, even for negative ids. */
module LikeKeys {
  import opened Wrappers

  predicate IsDigit(c: char)
  {
    '0' <= c <= '9'
  }

  predicate AllDigits(s: string)
  {
    forall i :: 0 <= i < |s| ==> IsDigit(s[i])
  }

  function DigitChar(d: nat): (c: char)
    requires d < 10
    ensures IsDigit(c) && c as int - '0' as int == d
  {
    ('0' as int + d) as char
  }

  function DigitValue(c: char): (d: nat)
    requires IsDigit(c)
    ensures d < 10 && DigitChar(d) == c
  {
    c as int - '0' as int
  }

  /** The decimal digits of n, most significant first, without leading zeros. */
  function NatToDecimal(n: nat): (s: string)
    ensures |s| > 0 && AllDigits(s)
    ensures |s| > 1 ==> s[0] != '0'
  {
    if n < 10 then [DigitChar(n)] else NatToDecimal(n / 10) + [DigitChar(n % 10)]
  }

  /** The value of a string of decimal digits. */
  function DecimalToNat(s: string): nat
    requires AllDigits(s)
  {
    if s == [] then 0 else DecimalToNat(s[..|s| - 1]) * 10 + DigitValue(s[|s| - 1])
  }

  lemma {:induction false} DecimalRoundTrip(n: nat)
    ensures DecimalToNat(NatToDecimal(n)) == n
  {
    if n >= 10 {
      var s := NatToDecimal(n);
      assert s[..|s| - 1] == NatToDecimal(n / 10);
      DecimalRoundTrip(n / 10);
    }
  }

  /** Int32.ToString() with '-' as the negative sign. */
  function FormatInt(n: int): (s: string)
    ensures |s| > 0
    ensures s[0] == '-' <==> n < 0
    ensures n < 0 ==> |s| > 1 && AllDigits(s[1..])
    ensures n >= 0 ==> AllDigits(s)
  {
    if n < 0 then "-" + NatToDecimal(-n) else NatToDecimal(n)
  }

  /** Reads back what FormatInt writes; None for anything else. */
  function ParseInt(s: string): Option<int>
  {
    if |s| > 1 && s[0] == '-' && AllDigits(s[1..]) then Some(-(DecimalToNat(s[1..]) as int))
    else if |s| > 0 && AllDigits(s) then Some(DecimalToNat(s))
    else None
  }

  lemma ParseFormatInt(n: int)
    ensures ParseInt(FormatInt(n)) == Some(n)
  {
    if n < 0 {
      assert FormatInt(n)[1..] == NatToDecimal(-n);
      DecimalRoundTrip(-n);
    } else {
      DecimalRoundTrip(n);
    }
  }

  /** The like key of MockRatingRepository.ToggleLike: rating id, '-', user id. */
  function LikeKey(ratingId: int, userId: int): (k: string)
    ensures |k| > |FormatInt(ratingId)| && k[|FormatInt(ratingId)|] == '-'
    ensures k[..|FormatInt(ratingId)|] == FormatInt(ratingId)
    ensures k[|FormatInt(ratingId)| + 1..] == FormatInt(userId)
  {
    FormatInt(ratingId) + "-" + FormatInt(userId)
  }

  /** The index of the first '-' in s at or after i, or |s| when there is none. */
  function DashFrom(s: string, i: nat): (j: nat)
    requires i <= |s|
    ensures i <= j <= |s|
    ensures j < |s| ==> s[j] == '-'
    ensures forall k :: i <= k < j ==> s[k] != '-'
    decreases |s| - i
  {
    if i == |s| || s[i] == '-' then i else DashFrom(s, i + 1)
  }

  /** Splits a key at the first dash that is not a leading minus sign. */
  function ParseLikeKey(k: string): Option<(int, int)>
  {
    var j := DashFrom(k, if |k| > 0 && k[0] == '-' then 1 else 0);
    if j == |k| then None
    else
      match (ParseInt(k[..j]), ParseInt(k[j + 1..]))
      case (Some(r), Some(u)) => Some((r, u))
      case _ => None
  }

  lemma ParseLikeKeyRoundTrip(ratingId: int, userId: int)
    ensures ParseLikeKey(LikeKey(ratingId, userId)) == Some((ratingId, userId))
  {
    var k := LikeKey(ratingId, userId);
    var f := FormatInt(ratingId);
    var start := if ratingId < 0 then 1 else 0;
    assert k[0] == f[0];
    forall i | start <= i < |f|
      ensures k[i] != '-'
    {
      assert k[i] == f[i];
      if ratingId < 0 {
        assert f[1..][i - 1] == f[i];
      }
    }
    assert DashFrom(k, start) == |f|;
    ParseFormatInt(ratingId);
    ParseFormatInt(userId);
  }

  /** Two likes share a key exactly when they are for the same rating and user. */
  lemma LikeKeyInjective(r1: int, u1: int, r2: int, u2: int)
    ensures LikeKey(r1, u1) == LikeKey(r2, u2) <==> r1 == r2 && u1 == u2
  {
    ParseLikeKeyRoundTrip(r1, u1);
    ParseLikeKeyRoundTrip(r2, u2);
  }
}
