/**
 * The java.lang.String and java.lang.Integer operations the task tracker is
 * built from, over seq<char>: trim, indexOf, startsWith, contains,
 * toLowerCase, equalsIgnoreCase, Integer.parseInt and Integer.toString.
 * Letter case is folded for ASCII letters only.
 */
module Strings {
  import opened Options

  const MinInt: int := -0x8000_0000
  const MaxInt: int := 0x7fff_ffff

  /** A 32-bit Java int. */
  predicate IsInt32(n: int) { MinInt <= n <= MaxInt }

  /** Java int subtraction of one, which wraps Integer.MIN_VALUE to Integer.MAX_VALUE. */
  function Int32Dec(n: int): (r: int)
    requires IsInt32(n)
    ensures IsInt32(r)
    ensures n > MinInt ==> r == n - 1
    ensures n == MinInt ==> r == MaxInt
  {
    if n == MinInt then MaxInt else n - 1
  }

  /** Concatenation associates; the solver often needs to be told. */
  lemma ConcatAssociates<T>(a: seq<T>, b: seq<T>, c: seq<T>)
    ensures (a + b) + c == a + (b + c)
  {
  }

  // ---------------------------------------------------------------- trim

  /** String.trim() removes every leading and trailing character at or below U+0020. */
  predicate IsTrimSpace(c: char) { c <= ' ' }

  predicate AllTrimSpace(s: string) { forall k :: 0 <= k < |s| ==> IsTrimSpace(s[k]) }

  /** A string that trim() leaves as it is. */
  predicate IsTrimmed(s: string) {
    s == [] || (!IsTrimSpace(s[0]) && !IsTrimSpace(s[|s| - 1]))
  }

  /** The number of trim-space characters at the start of s. */
  function LeadingSpaces(s: string): (n: nat)
    ensures n <= |s|
    ensures AllTrimSpace(s[..n])
    ensures n < |s| ==> !IsTrimSpace(s[n])
  {
    if s == [] || !IsTrimSpace(s[0]) then 0 else 1 + LeadingSpaces(s[1..])
  }

  /** The number of trim-space characters at the end of s. */
  function TrailingSpaces(s: string): (n: nat)
    ensures n <= |s|
    ensures AllTrimSpace(s[|s| - n..])
    ensures n < |s| ==> !IsTrimSpace(s[|s| - 1 - n])
  {
    if s == [] || !IsTrimSpace(s[|s| - 1]) then 0 else 1 + TrailingSpaces(s[..|s| - 1])
  }

  /** s consists of r with only trim-space characters before and after it. */
  predicate PadsAt(s: string, r: string, lead: nat) {
    lead + |r| <= |s| && s[lead..lead + |r|] == r &&
    AllTrimSpace(s[..lead]) && AllTrimSpace(s[lead + |r|..])
  }

  /** String.trim(). */
  function Trim(s: string): (r: string)
    ensures IsTrimmed(r)
    ensures IsTrimmed(s) ==> r == s
  {
    var lead := LeadingSpaces(s);
    if lead == |s| then
      assert s[lead..] == [] && s[..lead] == s;
      []
    else
      var trail := TrailingSpaces(s);
      s[lead..|s| - trail]
  }

  /** What trim() removes: the trim-space characters before and after the result, and nothing else. */
  lemma TrimPads(s: string)
    ensures PadsAt(s, Trim(s), LeadingSpaces(s))
  {
    var lead := LeadingSpaces(s);
    if lead < |s| {
      var end := |s| - TrailingSpaces(s);
      forall k | end <= k < |s|
        ensures IsTrimSpace(s[k])
      {
        assert s[end..][k - end] == s[k];
      }
      assert lead < end;
      assert Trim(s) == s[lead..end];
    }
  }

  /** Trimming is idempotent. */
  lemma TrimIdempotent(s: string)
    ensures Trim(Trim(s)) == Trim(s)
  {
  }

  /** Trimming only ever removes characters: a trimmed result is a slice of its input. */
  lemma TrimIsSlice(s: string)
    ensures |Trim(s)| <= |s|
    ensures forall c :: c in Trim(s) ==> c in s
  {
    var r, lead := Trim(s), LeadingSpaces(s);
    TrimPads(s);
    forall c | c in r ensures c in s {
      var k :| 0 <= k < |r| && r[k] == c;
      assert s[lead..lead + |r|][k] == s[lead + k];
    }
  }

  lemma {:induction false} LeadingOfPadded(a: string, r: string)
    requires AllTrimSpace(a) && r != [] && !IsTrimSpace(r[0])
    ensures LeadingSpaces(a + r) == |a|
  {
    if a != [] {
      assert (a + r)[1..] == a[1..] + r;
      LeadingOfPadded(a[1..], r);
    } else {
      assert a + r == r;
    }
  }

  lemma {:induction false} TrailingOfPadded(r: string, b: string)
    requires AllTrimSpace(b) && r != [] && !IsTrimSpace(r[|r| - 1])
    ensures TrailingSpaces(r + b) == |b|
  {
    if b != [] {
      assert (r + b)[..|r + b| - 1] == r + b[..|b| - 1];
      TrailingOfPadded(r, b[..|b| - 1]);
    } else {
      assert r + b == r;
    }
  }

  lemma {:induction false} LeadingAllSpace(s: string)
    requires AllTrimSpace(s)
    ensures LeadingSpaces(s) == |s|
  {
    if s != [] {
      LeadingAllSpace(s[1..]);
    }
  }

  /** Trimming a string of trim-space characters only leaves nothing. */
  lemma TrimAllSpace(s: string)
    requires AllTrimSpace(s)
    ensures Trim(s) == []
  {
    LeadingAllSpace(s);
  }

  /** Trimming a string that is already trimmed, padded with trim-space characters, gives it back. */
  lemma TrimPadded(a: string, r: string, b: string)
    requires AllTrimSpace(a) && IsTrimmed(r) && r != [] && AllTrimSpace(b)
    ensures Trim(a + r + b) == r
  {
    var s := a + r + b;
    assert s == a + (r + b);
    LeadingOfPadded(a, r + b);
    TrailingOfPadded(a + r, b);
    assert s[|a|..|s| - |b|] == r;
  }

  // ---------------------------------------------------------------- search

  predicate StartsWith(s: string, prefix: string) {
    |prefix| <= |s| && s[..|prefix|] == prefix
  }

  predicate OccursAt(s: string, pat: string, k: int) {
    0 <= k && k + |pat| <= |s| && s[k..k + |pat|] == pat
  }

  /** The first occurrence of pat in s at or after from, or -1. */
  function IndexOfFrom(s: string, pat: string, from: nat): (r: int)
    ensures r == -1 || (from <= r && OccursAt(s, pat, r))
    ensures r == -1 ==> forall k :: from <= k ==> !OccursAt(s, pat, k)
    ensures r != -1 ==> forall k :: from <= k < r ==> !OccursAt(s, pat, k)
    decreases |s| - from
  {
    if from + |pat| > |s| then -1
    else if OccursAt(s, pat, from) then from
    else IndexOfFrom(s, pat, from + 1)
  }

  /** String.indexOf(pat): the position of the first occurrence of pat in s, or -1. */
  function IndexOf(s: string, pat: string): (r: int)
    ensures r == -1 || OccursAt(s, pat, r)
    ensures r == -1 <==> forall k :: !OccursAt(s, pat, k)
    ensures forall k :: 0 <= k < r ==> !OccursAt(s, pat, k)
  {
    IndexOfFrom(s, pat, 0)
  }

  /** A character that occurs in s is found by indexOf. */
  lemma CharIndex(s: string, c: char)
    requires c in s
    ensures IndexOf(s, [c]) >= 0
  {
    var k :| 0 <= k < |s| && s[k] == c;
    assert OccursAt(s, [c], k);
  }

  /** indexOf of a single character is the position of its first occurrence. */
  lemma FirstCharIndex(s: string, c: char, i: nat)
    requires i < |s| && s[i] == c && forall k :: 0 <= k < i ==> s[k] != c
    ensures IndexOf(s, [c]) == i
  {
    assert OccursAt(s, [c], i);
  }

  /** The text before the first occurrence of a character lacks it, and the character splits s there. */
  lemma BeforeFirstChar(s: string, c: char)
    requires IndexOf(s, [c]) >= 0
    ensures var i := IndexOf(s, [c]); c !in s[..i] && s == s[..i] + [c] + s[i + 1..]
  {
    var i := IndexOf(s, [c]);
    forall k | 0 <= k < i ensures s[k] != c {
      assert !OccursAt(s, [c], k) && s[k..k + 1] == [s[k]];
    }
    assert s[i..i + 1] == [c];
    assert s == s[..i] + s[i..i + 1] + s[i + 1..];
  }

  /** indexOf of a character that does not occur is -1. */
  lemma AbsentCharIndex(s: string, c: char)
    requires c !in s
    ensures IndexOf(s, [c]) == -1
  {
    forall k ensures !OccursAt(s, [c], k) {
      if 0 <= k && k + 1 <= |s| {
        assert s[k..k + 1][0] == s[k];
      }
    }
  }

  /** String.contains(sub), which Java defines as indexOf(sub) >= 0. */
  predicate Contains(s: string, sub: string) { IndexOf(s, sub) >= 0 }

  /** A slice of a string that does not contain pat does not contain it either. */
  lemma SliceLacks(s: string, pat: string, i: nat, j: nat)
    requires i <= j <= |s| && !Contains(s, pat)
    ensures !Contains(s[i..j], pat)
  {
    forall k ensures !OccursAt(s[i..j], pat, k) {
      if 0 <= k && k + |pat| <= j - i {
        var w, v := s[i..j][k..k + |pat|], s[i + k..i + k + |pat|];
        assert forall m :: 0 <= m < |pat| ==> w[m] == v[m];
        assert !OccursAt(s, pat, i + k);
      }
    }
  }

  /** Everything before the first occurrence of pat lacks it. */
  lemma PrefixBeforeFirstLacks(s: string, pat: string, n: nat)
    requires pat != [] && n <= |s| && (IndexOf(s, pat) == -1 || n <= IndexOf(s, pat))
    ensures !Contains(s[..n], pat)
  {
    forall k ensures !OccursAt(s[..n], pat, k) {
      if 0 <= k && k + |pat| <= n {
        assert s[..n][k..k + |pat|] == s[k..k + |pat|];
        assert !OccursAt(s, pat, k);
      }
    }
  }

  /** Trimming never introduces an occurrence. */
  lemma TrimLacks(s: string, pat: string)
    requires !Contains(s, pat)
    ensures !Contains(Trim(s), pat)
  {
    var lead := LeadingSpaces(s);
    TrimPads(s);
    SliceLacks(s, pat, lead, lead + |Trim(s)|);
  }

  /**
   * Two strings that lack a space-free pat, joined by one space, lack it:
   * every window across the join holds the space.
   */
  lemma JoinLacks(a: string, b: string, pat: string)
    requires ' ' !in pat && !Contains(a, pat) && !Contains(b, pat)
    ensures !Contains(a + " " + b, pat)
  {
    var s := a + " " + b;
    forall k | 0 <= k && k + |pat| <= |s| ensures !OccursAt(s, pat, k) {
      if k + |pat| <= |a| {
        assert s[k..k + |pat|] == a[k..k + |pat|];
        assert !OccursAt(a, pat, k);
      } else if k > |a| {
        var w, v := s[k..k + |pat|], b[k - |a| - 1..k - |a| - 1 + |pat|];
        assert forall m :: 0 <= m < |pat| ==> w[m] == v[m];
        assert !OccursAt(b, pat, k - |a| - 1);
      } else {
        assert s[k..k + |pat|][|a| - k] == ' ';
      }
    }
  }

  /** In a + " " + pat + c, where a lacks the space-free pat, the first pat is the one after the space. */
  lemma IndexAfterGap(a: string, pat: string, c: string)
    requires pat != [] && ' ' !in pat && !Contains(a, pat)
    ensures IndexOf(a + " " + pat + c, pat) == |a| + 1
  {
    var s := a + " " + pat + c;
    assert OccursAt(s, pat, |a| + 1) by {
      assert s[|a| + 1..|a| + 1 + |pat|] == pat;
    }
    forall k | 0 <= k < |a| + 1 ensures !OccursAt(s, pat, k) {
      if k + |pat| <= |a| {
        assert s[k..k + |pat|] == a[k..k + |pat|];
        assert !OccursAt(a, pat, k);
      } else if k + |pat| <= |s| {
        assert s[k..k + |pat|][|a| - k] == ' ';
      }
    }
  }

  // ---------------------------------------------------------------- case

  function ToLowerChar(c: char): char {
    if 'A' <= c <= 'Z' then (c as int - 'A' as int + 'a' as int) as char else c
  }

  /** String.toLowerCase(), for ASCII letters. */
  function ToLower(s: string): (r: string)
    ensures |r| == |s|
    ensures forall k :: 0 <= k < |s| ==> r[k] == ToLowerChar(s[k])
  {
    seq(|s|, k requires 0 <= k < |s| => ToLowerChar(s[k]))
  }

  /** String.equalsIgnoreCase(other), for ASCII letters. */
  predicate EqualsIgnoreCase(s: string, other: string) {
    ToLower(s) == ToLower(other)
  }

  /** "bye" compared without case is exactly the eight spellings bye, Bye, bYe, ..., BYE. */
  lemma EqualsIgnoreCaseBye(s: string)
    ensures EqualsIgnoreCase(s, "bye") <==>
      |s| == 3 && s[0] in "bB" && s[1] in "yY" && s[2] in "eE"
  {
    if EqualsIgnoreCase(s, "bye") {
      assert |s| == 3;
      assert ToLower(s)[0] == 'b' && ToLower(s)[1] == 'y' && ToLower(s)[2] == 'e';
    }
    if |s| == 3 && s[0] in "bB" && s[1] in "yY" && s[2] in "eE" {
      assert ToLower(s) == "bye" == ToLower("bye");
    }
  }

  // ---------------------------------------------------------------- numbers

  predicate IsDigit(c: char) { '0' <= c <= '9' }

  predicate AllDigits(s: string) { forall k :: 0 <= k < |s| ==> IsDigit(s[k]) }

  function DigitValue(c: char): nat
    requires IsDigit(c)
  {
    c as int - '0' as int
  }

  function DigitChar(d: nat): (c: char)
    requires d < 10
    ensures IsDigit(c) && DigitValue(c) == d
  {
    ('0' as int + d) as char
  }

  /** The decimal value of a string of digits, most significant first. */
  function DigitsValue(s: string): nat
    requires AllDigits(s)
  {
    if s == [] then 0 else DigitsValue(s[..|s| - 1]) * 10 + DigitValue(s[|s| - 1])
  }

  function Pow10(n: nat): (r: nat)
    ensures r >= 1
  {
    if n == 0 then 1 else 10 * Pow10(n - 1)
  }

  /** The value of w digits is below 10^w. */
  lemma {:induction false} DigitsValueBound(s: string)
    requires AllDigits(s)
    ensures DigitsValue(s) < Pow10(|s|)
  {
    if s != [] {
      DigitsValueBound(s[..|s| - 1]);
    }
  }

  /** Integer.toString(n) for n >= 0: the shortest decimal rendering. */
  function NatToString(n: nat): (r: string)
    ensures |r| >= 1 && AllDigits(r)
    ensures |r| > 1 ==> r[0] != '0'
  {
    if n < 10 then [DigitChar(n)] else NatToString(n / 10) + [DigitChar(n % 10)]
  }

  /** Reading back the decimal rendering of n gives n. */
  lemma {:induction false} NatToStringValue(n: nat)
    ensures DigitsValue(NatToString(n)) == n
  {
    if n >= 10 {
      var s := NatToString(n);
      assert s[..|s| - 1] == NatToString(n / 10);
      NatToStringValue(n / 10);
    }
  }

  /** A number below one hundred is written in at most two digits. */
  lemma NatToStringBelow100(n: nat)
    requires n < 100
    ensures |NatToString(n)| <= 2
  {
    if n >= 10 {
      assert NatToString(n / 10) == [DigitChar(n / 10)];
    }
  }

  /** The zero-padded rendering of n in exactly width digits, as a date pattern's dd or yyyy prints it. */
  function PaddedDigits(n: nat, width: nat): (r: string)
    ensures |r| == width && AllDigits(r)
  {
    if width == 0 then [] else PaddedDigits(n / 10, width - 1) + [DigitChar(n % 10)]
  }

  /** Two padded digits: the tens and the units. */
  lemma TwoDigits(n: nat)
    ensures PaddedDigits(n, 2) == [DigitChar(n / 10 % 10), DigitChar(n % 10)]
  {
  }

  /** Four padded digits: thousands, hundreds, tens and units. */
  lemma FourDigits(n: nat)
    ensures PaddedDigits(n, 4) ==
      [DigitChar(n / 10 / 10 / 10 % 10), DigitChar(n / 10 / 10 % 10), DigitChar(n / 10 % 10), DigitChar(n % 10)]
  {
    assert PaddedDigits(n / 10, 3) == PaddedDigits(n / 10 / 10, 2) + [DigitChar(n / 10 % 10)];
    TwoDigits(n / 10 / 10);
  }

  /** Appending a digit multiplies the value by ten and adds the digit. */
  lemma DigitsValueSnoc(a: string, c: char)
    requires AllDigits(a) && IsDigit(c)
    ensures AllDigits(a + [c]) && DigitsValue(a + [c]) == DigitsValue(a) * 10 + DigitValue(c)
  {
    assert (a + [c])[..|a|] == a;
  }

  /** Reading back a padded rendering gives the number, when it fits the width. */
  lemma {:induction false} PaddedDigitsValue(n: nat, width: nat)
    requires n < Pow10(width)
    ensures DigitsValue(PaddedDigits(n, width)) == n
  {
    if width > 0 {
      var q := n / 10;
      PaddedDigitsValue(q, width - 1);
      DigitsValueSnoc(PaddedDigits(q, width - 1), DigitChar(n % 10));
    }
  }

  /** Rendering the value of a digit string at its own width gives the string back, leading zeros included. */
  lemma {:induction false} PaddedOfDigits(s: string)
    requires AllDigits(s)
    ensures PaddedDigits(DigitsValue(s), |s|) == s
  {
    if s != [] {
      var init, c := s[..|s| - 1], s[|s| - 1];
      var n := DigitsValue(s);
      assert n == DigitsValue(init) * 10 + DigitValue(c);
      assert n / 10 == DigitsValue(init) && n % 10 == DigitValue(c);
      assert PaddedDigits(n, |s|) == PaddedDigits(n / 10, |init|) + [DigitChar(n % 10)];
      PaddedOfDigits(init);
      assert DigitChar(DigitValue(c)) == c;
      assert s == init + [c];
    }
  }

  /** The digits of a parseInt argument: everything after one leading '-' or '+'. */
  function Magnitude(s: string): (r: string)
    ensures |s| - 1 <= |r| <= |s| && r == s[|s| - |r|..]
  {
    if s != [] && (s[0] == '-' || s[0] == '+') then s[1..] else s
  }

  /**
   * Integer.parseInt(s): an optional sign and one or more ASCII decimal
   * digits; the value is negated after '-', and a value outside the int
   * range is refused, as the NumberFormatException does.
   */
  function ParseInt(s: string): (r: Option<int>)
    ensures r.Some? ==> IsInt32(r.value)
    ensures r.Some? ==> s != [] && Magnitude(s) != [] && AllDigits(Magnitude(s))
    ensures r.Some? ==> var m: int := DigitsValue(Magnitude(s)); r.value == if s[0] == '-' then -m else m
    ensures s != [] && Magnitude(s) != [] && AllDigits(Magnitude(s)) ==>
      (r.None? <==> if s[0] == '-' then DigitsValue(Magnitude(s)) > -MinInt else DigitsValue(Magnitude(s)) > MaxInt)
    ensures AllDigits(s) && s != [] && DigitsValue(s) <= MaxInt ==> r == Some(DigitsValue(s))
  {
    if s == [] then None
    else
      var digits := Magnitude(s);
      if digits == [] || !AllDigits(digits) then None
      else
        var magnitude := DigitsValue(digits);
        var v: int := if s[0] == '-' then 0 - magnitude else magnitude;
        if IsInt32(v) then Some(v) else None
  }

  /** Integer.toString(n) for every int n: a '-' before the digits of a negative n. */
  function IntToString(n: int): (r: string)
    ensures r != [] && (n < 0 <==> r[0] == '-')
  {
    if n < 0 then "-" + NatToString(-n) else NatToString(n)
  }

  /** Integer.parseInt reads back Integer.toString for every non-negative int. */
  lemma ParseIntOfNatToString(n: nat)
    requires n <= MaxInt
    ensures ParseInt(NatToString(n)) == Some(n)
  {
    NatToStringValue(n);
  }

  /** Integer.parseInt reads back Integer.toString for every int, negative ones included. */
  lemma ParseIntOfIntToString(n: int)
    requires IsInt32(n)
    ensures ParseInt(IntToString(n)) == Some(n)
  {
    if n < 0 {
      var s, t := IntToString(n), NatToString(-n);
      assert s == "-" + t && s[0] == '-' && s[1..] == t;
      assert Magnitude(s) == t;
      NatToStringValue(-n);
      assert ParseInt(s) == Some(0 - DigitsValue(t));
    } else {
      ParseIntOfNatToString(n);
    }
  }

  /** A digit string whose value exceeds Integer.MAX_VALUE is refused, as "99999999999" is. */
  lemma ParseIntOverflow(s: string)
    requires s != [] && AllDigits(s) && DigitsValue(s) > MaxInt
    ensures ParseInt(s) == None
  {
    assert Magnitude(s) == s;
  }
}
