/** Characters, strings and decimal numerals as Python's `str`, `re` and `int`
    treat them, restricted to what the retrieval engine relies on. Letters,
    digits and word characters are the ASCII ones; whitespace is the full set
    that `str.isspace()` accepts. */
module Text {
  import opened Wrappers

  /** `str.isspace()`: the whitespace of `\s`, `str.split()` and `str.strip()`. */
  predicate IsSpace(c: char) {
    var n := c as int;
    n == 0x20 || 0x09 <= n <= 0x0d || 0x1c <= n <= 0x1f || n == 0x85 || n == 0xa0
    || n == 0x1680 || 0x2000 <= n <= 0x200a || n == 0x2028 || n == 0x2029
    || n == 0x202f || n == 0x205f || n == 0x3000
  }

  predicate NotSpace(c: char) { !IsSpace(c) }

  predicate IsDigit(c: char) { '0' <= c <= '9' }

  predicate IsUpper(c: char) { 'A' <= c <= 'Z' }

  predicate IsLetter(c: char) { 'a' <= c <= 'z' || IsUpper(c) }

  /** The `\w` class: `\b` sits exactly between a word character and a non-word one. */
  predicate IsWordChar(c: char) { IsLetter(c) || IsDigit(c) || c == '_' }

  function LowerChar(c: char): (r: char)
    ensures !IsUpper(r)
    ensures IsLetter(r) == IsLetter(c) && IsDigit(r) == IsDigit(c) && IsSpace(r) == IsSpace(c)
    ensures !IsUpper(c) ==> r == c
  {
    if IsUpper(c) then (c as int + 32) as char else c
  }

  /** `str.lower()`: every upper-case letter replaced by its lower-case one, nothing else touched. */
  function Lower(s: string): (r: string)
    ensures |r| == |s|
    ensures forall i :: 0 <= i < |s| ==> r[i] == LowerChar(s[i])
  {
    seq(|s|, i requires 0 <= i < |s| => LowerChar(s[i]))
  }

  lemma LowerAppend(a: string, b: string)
    ensures Lower(a + b) == Lower(a) + Lower(b)
  {
    assert forall i :: 0 <= i < |a + b| ==> Lower(a + b)[i] == (Lower(a) + Lower(b))[i];
  }

  /** A string with no upper-case letter is its own lower-case form. */
  lemma LowerOfLower(s: string)
    requires forall c :: c in s ==> !IsUpper(c)
    ensures Lower(s) == s
  {
    assert forall i :: 0 <= i < |s| ==> s[i] in s;
  }

  predicate HasAt(s: string, i: nat, w: string) {
    i + |w| <= |s| && s[i..i + |w|] == w
  }

  /** Python's `w in s` for strings. */
  predicate Contains(s: string, w: string) {
    exists i :: 0 <= i <= |s| && HasAt(s, i, w)
  }

  predicate StartsWith(s: string, w: string) { HasAt(s, 0, w) }

  predicate EndsWith(s: string, w: string) {
    |w| <= |s| && s[|s| - |w|..] == w
  }

  /** The end of the run, starting at `i`, of characters `c` with `p(c) == want`. */
  function RunEnd(s: string, i: nat, p: char -> bool, want: bool): (j: nat)
    requires i <= |s|
    ensures i <= j <= |s|
    ensures forall k :: i <= k < j ==> p(s[k]) == want
    ensures j < |s| ==> p(s[j]) != want
    decreases |s| - i
  {
    if i < |s| && p(s[i]) == want then RunEnd(s, i + 1, p, want) else i
  }

  /** The run end is determined by the characters around it. */
  lemma {:induction false} RunEndIs(s: string, i: nat, j: nat, p: char -> bool, want: bool)
    requires i <= j <= |s|
    requires forall k :: i <= k < j ==> p(s[k]) == want
    requires j < |s| ==> p(s[j]) != want
    ensures RunEnd(s, i, p, want) == j
    decreases j - i
  {
    if i < j {
      RunEndIs(s, i + 1, j, p, want);
    }
  }

  function TrimStart(s: string): (r: string)
    ensures |r| <= |s| && r == s[|s| - |r|..]
    ensures r == [] || !IsSpace(r[0])
    ensures forall k :: 0 <= k < |s| - |r| ==> IsSpace(s[k])
  {
    if |s| > 0 && IsSpace(s[0]) then TrimStart(s[1..]) else s
  }

  function TrimEnd(s: string): (r: string)
    ensures |r| <= |s| && r == s[..|r|]
    ensures r == [] || !IsSpace(r[|r| - 1])
    ensures forall k :: |r| <= k < |s| ==> IsSpace(s[k])
  {
    if |s| > 0 && IsSpace(s[|s| - 1]) then TrimEnd(s[..|s| - 1]) else s
  }

  /** Everything in `s` before `i` and from `j` on is whitespace. */
  predicate SpaceOutside(s: string, i: nat, j: nat) {
    i <= j <= |s| && (forall k :: 0 <= k < i ==> IsSpace(s[k])) && (forall k :: j <= k < |s| ==> IsSpace(s[k]))
  }

  /** `str.strip()` with no argument: `s` without its leading and trailing
      whitespace. */
  function Strip(s: string): (r: string)
    ensures r == [] || (!IsSpace(r[0]) && !IsSpace(r[|r| - 1]))
  {
    TrimEnd(TrimStart(s))
  }

  /** What `strip` keeps is a slice of `s` with only whitespace outside it;
      with the ends of `Strip`'s own contract this fixes the result. */
  lemma StripSpan(s: string)
    ensures exists i: nat, j: nat :: SpaceOutside(s, i, j) && Strip(s) == s[i..j]
  {
    TrimBoth(s);
  }

  /** Trimming both ends leaves the middle of `s`, with only whitespace outside it. */
  lemma TrimBoth(s: string)
    ensures var t := TrimStart(s); var i := |s| - |t|; var r := TrimEnd(t);
      i + |r| <= |s| && SpaceOutside(s, i, i + |r|) && r == s[i..i + |r|]
  {
    var t := TrimStart(s);
    TrimTail(s, t, |s| - |t|, TrimEnd(t));
  }

  lemma TrimTail(s: string, t: string, i: nat, r: string)
    requires i <= |s| && t == s[i..] && |r| <= |t| && r == t[..|r|]
    requires forall k :: |r| <= k < |t| ==> IsSpace(t[k])
    ensures r == s[i..i + |r|]
    ensures forall k :: i + |r| <= k < |s| ==> IsSpace(s[k])
  {
    forall k | i + |r| <= k < |s| ensures IsSpace(s[k]) {
      assert s[k] == t[k - i];
    }
  }

  lemma StripUnchanged(s: string)
    requires s == [] || (!IsSpace(s[0]) && !IsSpace(s[|s| - 1]))
    ensures Strip(s) == s
  {
  }

  /** The maximal runs of characters satisfying `p` in `s`, in order, built
      from the left: a character failing `p` ends a run, and one satisfying
      `p` starts a run or, when the next character satisfies `p` too, joins
      the run that starts there. */
  function Runs(s: string, p: char -> bool): seq<string>
    decreases |s|
  {
    if s == [] then []
    else
      var rest := Runs(s[1..], p);
      if !p(s[0]) then rest
      else if |s| > 1 && p(s[1]) && rest != [] then [[s[0]] + rest[0]] + rest[1..]
      else [[s[0]]] + rest
  }

  /** Every run in `r` is non-empty and made of characters of `s` satisfying `p`. */
  predicate RunsOf(s: string, p: char -> bool, r: seq<string>) {
    forall k :: 0 <= k < |r| ==> |r[k]| > 0 && forall c :: c in r[k] ==> p(c) && c in s
  }

  lemma {:induction false} RunsFacts(s: string, p: char -> bool)
    ensures RunsOf(s, p, Runs(s, p))
    decreases |s|
  {
    if s != [] {
      var rest := Runs(s[1..], p);
      RunsFacts(s[1..], p);
      assert forall c :: c in s[1..] ==> c in s;
      var r := Runs(s, p);
      if p(s[0]) && |s| > 1 && p(s[1]) && rest != [] {
        assert r[0] == [s[0]] + rest[0];
        assert forall k :: 0 < k < |r| ==> r[k] == rest[k];
      } else if p(s[0]) {
        assert forall k :: 0 < k < |r| ==> r[k] == rest[k - 1];
      }
    }
  }

  /** Text that starts with a character satisfying `p` has a run, and the
      first run starts with that character. */
  lemma RunsStart(s: string, p: char -> bool)
    requires |s| > 0 && p(s[0])
    ensures Runs(s, p) != [] && |Runs(s, p)[0]| > 0 && Runs(s, p)[0][0] == s[0]
  {
  }

  /** The runs of `x + [c] + y`, for a character `c` failing `p`, are those of
      `x` followed by those of `y`. */
  lemma {:induction false} RunsSplit(x: string, c: char, y: string, p: char -> bool)
    requires !p(c)
    ensures Runs(x + [c] + y, p) == Runs(x, p) + Runs(y, p)
    decreases |x|
  {
    var s := x + [c] + y;
    if x == [] {
      assert s[1..] == y;
    } else {
      var x' := x[1..];
      assert s[1..] == x' + [c] + y;
      RunsSplit(x', c, y, p);
      if p(x[0]) && |x| > 1 && p(x[1]) {
        RunsStart(x', p);
        assert s[1] == x[1];
      } else if p(x[0]) && |x| == 1 {
        assert s[1] == c;
      } else if p(x[0]) {
        assert s[1] == x[1];
      }
    }
  }

  /** A non-empty text of `p`-characters only is a single run. */
  lemma {:induction false} RunsWhole(w: string, p: char -> bool)
    requires |w| > 0 && forall k :: 0 <= k < |w| ==> p(w[k])
    ensures Runs(w, p) == [w]
    decreases |w|
  {
    if |w| > 1 {
      RunsWhole(w[1..], p);
      assert p(w[1]);
      assert [w[0]] + w[1..] == w;
    } else {
      assert w[1..] == [] && [w[0]] == w;
    }
  }

  /** `str.split()` with no argument: the maximal runs of non-whitespace. */
  function Words(s: string): (r: seq<string>)
    ensures forall k :: 0 <= k < |r| ==> |r[k]| > 0 && forall c :: c in r[k] ==> !IsSpace(c)
  {
    RunsFacts(s, NotSpace);
    Runs(s, NotSpace)
  }

  /** Together with `WordsSkipSpace` and `WordsWhole`, this determines
      `str.split()` on every text: a first word ended by whitespace, then the
      words of the rest. */
  lemma WordsStep(a: string, c: char, s: string)
    requires |a| > 0 && (forall x :: x in a ==> !IsSpace(x)) && IsSpace(c)
    ensures Words(a + [c] + s) == [a] + Words(s)
  {
    assert forall k :: 0 <= k < |a| ==> a[k] in a;
    RunsSplit(a, c, s, NotSpace);
    RunsWhole(a, NotSpace);
  }

  /** Leading whitespace is skipped. */
  lemma WordsSkipSpace(c: char, s: string)
    requires IsSpace(c)
    ensures Words([c] + s) == Words(s)
  {
    assert ([c] + s)[1..] == s;
  }

  /** Text without whitespace is one word, or no word when it is empty. */
  lemma WordsWhole(a: string)
    requires forall x :: x in a ==> !IsSpace(x)
    ensures Words(a) == if a == [] then [] else [a]
  {
    if a != [] {
      assert forall k :: 0 <= k < |a| ==> a[k] in a;
      RunsWhole(a, NotSpace);
    }
  }

  /** Two non-empty words separated by one space split back into those two words. */
  lemma WordsOfPair(a: string, b: string)
    requires |a| > 0 && |b| > 0
    requires forall c :: c in a ==> !IsSpace(c)
    requires forall c :: c in b ==> !IsSpace(c)
    ensures Words(a + " " + b) == [a, b]
  {
    assert a + " " + b == a + [' '] + b;
    WordsStep(a, ' ', b);
    WordsWhole(b);
  }

  /** After `t` and one space, `w`'s characters: none of them whitespace. */
  lemma UnspacedAfter(t: string, w: string, s: string)
    requires forall c :: c in w ==> !IsSpace(c)
    requires s == t + " " + w
    ensures forall m :: |t| < m < |s| ==> !IsSpace(s[m])
  {
    forall m | |t| < m < |s| ensures !IsSpace(s[m]) {
      assert s[m] == w[m - |t| - 1];
      assert w[m - |t| - 1] in w;
    }
  }

  function DigitChar(d: nat): (c: char)
    requires d < 10
    ensures IsDigit(c)
  {
    ('0' as int + d) as char
  }

  function DigitValue(c: char): (d: nat)
    requires IsDigit(c)
    ensures d < 10
  {
    c as int - '0' as int
  }

  predicate AllDigits(s: string) {
    forall c :: c in s ==> IsDigit(c)
  }

  /** `str(n)` for a non-negative integer. */
  function NatToString(n: nat): (r: string)
    ensures |r| > 0 && AllDigits(r)
    decreases n
  {
    if n < 10 then [DigitChar(n)] else NatToString(n / 10) + [DigitChar(n % 10)]
  }

  /** `str(i)`: a minus sign for negative numbers, then the decimal digits. */
  function IntToString(i: int): (r: string)
    ensures |r| > 0 && (r[0] == '-' || IsDigit(r[0]))
    ensures forall c :: c in r ==> c == '-' || IsDigit(c)
    ensures forall k :: 0 < k < |r| ==> IsDigit(r[k])
  {
    if i < 0 then
      var d := NatToString(-i);
      assert forall k :: 0 <= k < |d| ==> d[k] in d;
      "-" + d
    else
      var d := NatToString(i);
      assert forall k :: 0 <= k < |d| ==> d[k] in d;
      d
  }

  /** The value of a run of decimal digits, leading zeros allowed. */
  function DigitsValue(s: string): nat
    requires AllDigits(s)
  {
    if s == [] then 0
    else
      assert forall c :: c in s[..|s| - 1] ==> c in s;
      DigitsValue(s[..|s| - 1]) * 10 + DigitValue(s[|s| - 1])
  }

  lemma {:induction false} NatToStringRoundTrip(n: nat)
    ensures DigitsValue(NatToString(n)) == n
    decreases n
  {
    var s := NatToString(n);
    if n < 10 {
      assert s[..|s| - 1] == [];
    } else {
      assert s[..|s| - 1] == NatToString(n / 10);
      NatToStringRoundTrip(n / 10);
    }
  }

  /** Python's `int(s)` restricted to ASCII decimal text: surrounding whitespace,
      one optional sign, then digits. Python also accepts `_` between digits and
      non-ASCII decimal digits; those forms parse to `None` here. */
  function ParseInt(s: string): Option<int> {
    ParseSigned(Strip(s))
  }

  /** An optional sign followed by at least one digit. */
  function ParseSigned(t: string): Option<int> {
    if |t| >= 2 && (t[0] == '-' || t[0] == '+') && AllDigits(t[1..]) then
      Some(if t[0] == '-' then -(DigitsValue(t[1..]) as int) else DigitsValue(t[1..]))
    else if |t| >= 1 && AllDigits(t) then
      Some(DigitsValue(t))
    else
      None
  }

  lemma ParseSignedNegative(d: string)
    requires |d| > 0 && AllDigits(d)
    ensures ParseSigned("-" + d) == Some(-(DigitsValue(d) as int))
  {
    assert ("-" + d)[1..] == d;
  }

  lemma ParseSignedNatural(n: nat)
    ensures ParseSigned(NatToString(n)) == Some(n)
  {
    var d := NatToString(n);
    assert d[0] in d;
    NatToStringRoundTrip(n);
  }

  lemma IntToStringUnspaced(i: int)
    ensures Strip(IntToString(i)) == IntToString(i)
  {
    var r := IntToString(i);
    assert r[|r| - 1] in r;
    StripUnchanged(r);
  }

  /** Stringifying an integer and parsing it back gives the integer. */
  lemma IntToStringRoundTrip(i: int)
    ensures ParseInt(IntToString(i)) == Some(i)
  {
    IntToStringUnspaced(i);
    if i < 0 {
      ParseSignedMinus(i);
    } else {
      ParseSignedNatural(i);
    }
  }

  lemma ParseSignedMinus(i: int)
    requires i < 0
    ensures ParseSigned(IntToString(i)) == Some(i)
  {
    var d := NatToString(-i);
    ParseSignedNegative(d);
    NatToStringRoundTrip(-i);
  }

  lemma IntToStringInjective(a: int, b: int)
    requires IntToString(a) == IntToString(b)
    ensures a == b
  {
    IntToStringRoundTrip(a);
    IntToStringRoundTrip(b);
  }

  /** `sep.join(parts)`. */
  function JoinWith(parts: seq<string>, sep: string): string {
    if |parts| == 0 then ""
    else if |parts| == 1 then parts[0]
    else parts[0] + sep + JoinWith(parts[1..], sep)
  }

  /** `s.split(sep)` for a one-character separator. */
  function SplitChar(s: string, sep: char): (r: seq<string>)
    ensures |r| >= 1
  {
    if s == [] then [""]
    else
      var rest := SplitChar(s[1..], sep);
      if s[0] == sep then [""] + rest else [[s[0]] + rest[0]] + rest[1..]
  }

  lemma {:induction false} SplitCharPlain(s: string, sep: char)
    requires sep !in s
    ensures SplitChar(s, sep) == [s]
  {
    if s != [] {
      SplitCharPlain(s[1..], sep);
      assert [s[0]] + s[1..] == s;
    }
  }

  lemma {:induction false} SplitCharAt(a: string, sep: char, b: string)
    requires sep !in a
    ensures SplitChar(a + [sep] + b, sep) == [a] + SplitChar(b, sep)
  {
    if a == [] {
      assert a + [sep] + b == [sep] + b;
      assert ([sep] + b)[1..] == b;
    } else {
      var s := a + [sep] + b;
      assert s[1..] == a[1..] + [sep] + b;
      SplitCharAt(a[1..], sep, b);
      assert [a[0]] + a[1..] == a;
    }
  }
}
