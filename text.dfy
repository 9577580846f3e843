/**
 * Strings as the pages compare them: JavaScript's `<` / `>=` on strings (and
 * `localeCompare`, which this model reads as the same lexicographic order),
 * prefix tests, and zero-padded "HH:MM" time strings.
 */
module Text {

  /** JavaScript `a < b` on strings: lexicographic by character, a proper prefix first. */
  predicate Less(a: string, b: string)
    decreases |a|
  {
    if a == [] then b != []
    else if b == [] then false
    else if a[0] != b[0] then a[0] < b[0]
    else Less(a[1..], b[1..])
  }

  lemma {:induction false} LessIrreflexive(a: string)
    ensures !Less(a, a)
    decreases |a|
  {
    if a != [] {
      LessIrreflexive(a[1..]);
    }
  }

  lemma {:induction false} LessAsymmetric(a: string, b: string)
    ensures Less(a, b) ==> !Less(b, a)
    decreases |a|
  {
    if a != [] && b != [] && a[0] == b[0] {
      LessAsymmetric(a[1..], b[1..]);
    }
  }

  lemma {:induction false} LessTransitive(a: string, b: string, c: string)
    ensures Less(a, b) && Less(b, c) ==> Less(a, c)
    decreases |a|
  {
    if a != [] && b != [] && c != [] && a[0] == b[0] && b[0] == c[0] {
      LessTransitive(a[1..], b[1..], c[1..]);
    }
  }

  /** Distinct strings are always ordered one way or the other. */
  lemma {:induction false} LessTotal(a: string, b: string)
    ensures a != b ==> Less(a, b) || Less(b, a)
    decreases |a|
  {
    if a != [] && b != [] && a[0] == b[0] {
      LessTotal(a[1..], b[1..]);
      if a[1..] == b[1..] {
        assert a == [a[0]] + a[1..] && b == [b[0]] + b[1..];
      }
    }
  }

  /** "`a` does not sort after `b`": the order a store's ascending sort produces, a total preorder. */
  predicate NotAfter(a: string, b: string) {
    !Less(b, a)
  }

  lemma NotAfterTotalPreorder(a: string, b: string, c: string)
    ensures NotAfter(a, b) || NotAfter(b, a)
    ensures NotAfter(a, b) && NotAfter(b, c) ==> NotAfter(a, c)
  {
    LessAsymmetric(a, b);
    LessTotal(a, b);
    LessTransitive(c, a, b);
  }

  /**
   * `a.localeCompare(b)` reduced to its sign: negative when `a` sorts first,
   * zero for equal strings, positive when `b` sorts first.
   */
  function Compare(a: string, b: string): (r: int)
    ensures r < 0 <==> Less(a, b)
    ensures r == 0 <==> a == b
    ensures r > 0 <==> Less(b, a)
    ensures -1 <= r <= 1
  {
    LessIrreflexive(a);
    LessAsymmetric(a, b);
    LessTotal(a, b);
    if Less(a, b) then -1 else if a == b then 0 else 1
  }

  /** `s.startsWith(prefix)`. */
  predicate StartsWith(s: string, prefix: string) {
    |prefix| <= |s| && s[..|prefix|] == prefix
  }

  predicate IsDigit(c: char) {
    '0' <= c <= '9'
  }

  function DigitValue(c: char): (d: nat)
    requires IsDigit(c)
    ensures d <= 9
  {
    (c as int) - ('0' as int)
  }

  /** A zero-padded 24-hour "HH:MM" string, as an `<input type="time">` produces. */
  predicate IsTime(t: string) {
    && |t| == 5
    && IsDigit(t[0]) && IsDigit(t[1]) && t[2] == ':' && IsDigit(t[3]) && IsDigit(t[4])
    && 10 * DigitValue(t[0]) + DigitValue(t[1]) <= 23
    && DigitValue(t[3]) <= 5
  }

  /** Minutes since midnight of an "HH:MM" string. */
  function Minutes(t: string): (m: nat)
    requires IsTime(t)
    ensures m < 24 * 60
  {
    (10 * DigitValue(t[0]) + DigitValue(t[1])) * 60 + 10 * DigitValue(t[3]) + DigitValue(t[4])
  }

  /**
   * On zero-padded "HH:MM" strings the string order the pages use is the
   * chronological order.
   */
  lemma TimeOrderIsChronological(a: string, b: string)
    requires IsTime(a) && IsTime(b)
    ensures Less(a, b) <==> Minutes(a) < Minutes(b)
  {
    var a1, b1 := a[1..], b[1..];
    var a2, b2 := a1[1..], b1[1..];
    var a3, b3 := a2[1..], b2[1..];
    var a4, b4 := a3[1..], b3[1..];
    assert a1[0] == a[1] && a2[0] == a[2] && a3[0] == a[3] && a4[0] == a[4];
    assert b1[0] == b[1] && b2[0] == b[2] && b3[0] == b[3] && b4[0] == b[4];
    assert |a4| == 1 && |b4| == 1 && a4[1..] == [] && b4[1..] == [];
    if a[0] != b[0] {
    } else if a[1] != b[1] {
      assert Less(a, b) == Less(a1, b1);
    } else if a[3] != b[3] {
      assert Less(a, b) == Less(a1, b1) == Less(a2, b2) == Less(a3, b3);
    } else {
      assert Less(a, b) == Less(a1, b1) == Less(a2, b2) == Less(a3, b3) == Less(a4, b4);
    }
  }
}
