/** String helpers standing for the Python `str` operations the modelled code
    uses: positional numerals, padding, `replace(p, '')`, `split(c)`,
    `rstrip(chars)` and `startswith(p)`. */
module Text {

  // ---------------------------------------------------------------------
  // Positional numerals (str(n), '{:b}'.format(n))
  // ---------------------------------------------------------------------

  type Base = b: nat | 2 <= b <= 10 witness 10

  predicate IsDigitBelow(c: char, base: Base) {
    '0' <= c && (c as int) < ('0' as int) + base
  }

  predicate AllDigitsBelow(s: string, base: Base) {
    forall i :: 0 <= i < |s| ==> IsDigitBelow(s[i], base)
  }

  function DigitChar(d: nat, base: Base): (c: char)
    requires d < base
    ensures IsDigitBelow(c, base)
  {
    (d + '0' as int) as char
  }

  function DigitValue(c: char, base: Base): (d: nat)
    requires IsDigitBelow(c, base)
    ensures d < base && DigitChar(d, base) == c
  {
    c as int - '0' as int
  }

  /** The digits of `n` in `base`, most significant first, without leading zeros. */
  function Numeral(n: nat, base: Base): (s: string)
    ensures |s| >= 1 && AllDigitsBelow(s, base)
    ensures s[0] == '0' <==> n == 0
    decreases n
  {
    if n < base then [DigitChar(n, base)]
    else Numeral(n / base, base) + [DigitChar(n % base, base)]
  }

  /** The number a string of digits denotes; leading zeros are allowed. */
  function NumeralValue(s: string, base: Base): nat
    requires AllDigitsBelow(s, base)
  {
    if s == [] then 0
    else NumeralValue(s[..|s| - 1], base) * base + DigitValue(s[|s| - 1], base)
  }

  lemma {:induction false} NumeralRoundTrip(n: nat, base: Base)
    ensures NumeralValue(Numeral(n, base), base) == n
    decreases n
  {
    if n >= base {
      DivModIdentity(n, base);
      NumeralRoundTrip(n / base, base);
      NumeralSplitsLast(n, base);
    }
  }

  lemma NumeralSplitsLast(n: nat, base: Base)
    requires n >= base
    ensures NumeralValue(Numeral(n, base), base)
         == NumeralValue(Numeral(n / base, base), base) * base + n % base
  {
    var s := Numeral(n, base);
    assert s[..|s| - 1] == Numeral(n / base, base);
  }

  lemma DivModIdentity(n: nat, base: Base)
    ensures (n / base) * base + n % base == n
    ensures n >= base ==> n / base < n
  {
  }

  function Repeat(c: char, k: nat): (s: string)
    ensures |s| == k && forall i :: 0 <= i < k ==> s[i] == c
  {
    seq(k, _ => c)
  }

  /** A non-empty run is one character followed by a shorter run. */
  lemma RepeatCons(c: char, k: nat)
    requires k > 0
    ensures Repeat(c, k) == [c] + Repeat(c, k - 1)
  {
    assert Repeat(c, k) == [c] + Repeat(c, k - 1);
  }

  lemma {:induction false} LeadingZerosAddNothing(k: nat, s: string, base: Base)
    requires AllDigitsBelow(s, base)
    ensures AllDigitsBelow(Repeat('0', k) + s, base)
    ensures NumeralValue(Repeat('0', k) + s, base) == NumeralValue(s, base)
    decreases |s|
  {
    var t := Repeat('0', k) + s;
    if s == [] {
      assert t == Repeat('0', k);
      AllZerosDenoteZero(k, base);
    } else {
      LeadingZerosAddNothing(k, s[..|s| - 1], base);
      assert t[..|t| - 1] == Repeat('0', k) + s[..|s| - 1];
    }
  }

  lemma {:induction false} AllZerosDenoteZero(k: nat, base: Base)
    ensures AllDigitsBelow(Repeat('0', k), base)
    ensures NumeralValue(Repeat('0', k), base) == 0
  {
    if k > 0 {
      AllZerosDenoteZero(k - 1, base);
      assert Repeat('0', k)[..k - 1] == Repeat('0', k - 1);
    }
  }

  // ---------------------------------------------------------------------
  // Padding ('{:0>Nb}', '%2d', '%-9s', '%12s')
  // ---------------------------------------------------------------------

  /** `s` right-aligned in a field of `width` characters filled with `fill`. */
  function PadLeft(s: string, width: int, fill: char): (r: string)
    ensures |r| == if width > |s| then width else |s|
    ensures r[|r| - |s|..] == s
    ensures forall i :: 0 <= i < |r| - |s| ==> r[i] == fill
  {
    if width > |s| then Repeat(fill, width - |s|) + s else s
  }

  /** `s` left-aligned in a field of `width` characters filled with `fill`. */
  function PadRight(s: string, width: int, fill: char): (r: string)
    ensures |r| == if width > |s| then width else |s|
    ensures r[..|s|] == s
    ensures forall i :: |s| <= i < |r| ==> r[i] == fill
  {
    if width > |s| then s + Repeat(fill, width - |s|) else s
  }

  // ---------------------------------------------------------------------
  // Substring search and str.replace(pat, '')
  // ---------------------------------------------------------------------

  predicate OccursAt(s: string, pat: string, i: int) {
    0 <= i && i + |pat| <= |s| && s[i..i + |pat|] == pat
  }

  predicate Occurs(s: string, pat: string) {
    exists i | 0 <= i <= |s| :: OccursAt(s, pat, i)
  }

  predicate StartsWith(s: string, prefix: string) {
    |prefix| <= |s| && s[..|prefix|] == prefix
  }

  lemma OccursInTail(s: string, pat: string)
    requires |s| > 0
    ensures Occurs(s[1..], pat) ==> Occurs(s, pat)
  {
    if Occurs(s[1..], pat) {
      var i :| 0 <= i <= |s| - 1 && OccursAt(s[1..], pat, i);
      assert s[i + 1..i + 1 + |pat|] == s[1..][i..i + |pat|];
      assert OccursAt(s, pat, i + 1);
    }
  }

  lemma OccursInSuffix(s: string, pat: string, k: nat)
    requires k <= |s| && Occurs(s[k..], pat)
    ensures Occurs(s, pat)
  {
    var i :| 0 <= i <= |s| - k && OccursAt(s[k..], pat, i);
    assert s[i + k..i + k + |pat|] == s[k..][i..i + |pat|];
    assert OccursAt(s, pat, i + k);
  }

  /** Python's `s.replace(pat, '')`: scanning left to right, every
      non-overlapping occurrence of `pat` is deleted. */
  function DeleteAll(s: string, pat: string): (r: string)
    requires |pat| > 0
    ensures |r| <= |s|
    ensures !Occurs(s, pat) ==> r == s
    decreases |s|
  {
    if |s| < |pat| then s
    else if s[..|pat|] == pat then
      assert OccursAt(s, pat, 0);
      DeleteAll(s[|pat|..], pat)
    else
      var rest := DeleteAll(s[1..], pat);
      OccursInTail(s, pat);
      [s[0]] + rest
  }

  lemma {:induction false} DeleteAllOfCharRemovesIt(s: string, c: char)
    ensures c !in DeleteAll(s, [c])
    decreases |s|
  {
    if |s| >= 1 {
      DeleteAllOfCharRemovesIt(s[1..], c);
    }
  }

  /** `r` is `s` with some characters left out, the rest kept in order. */
  predicate IsSubsequence(r: string, s: string)
    decreases |s|
  {
    if |r| == 0 then true
    else if |s| == 0 then false
    else (r[0] == s[0] && IsSubsequence(r[1..], s[1..])) || IsSubsequence(r, s[1..])
  }

  lemma {:induction false} SubsequenceOfSuffix(r: string, s: string, k: nat)
    requires k <= |s| && IsSubsequence(r, s[k..])
    ensures IsSubsequence(r, s)
    decreases k
  {
    if k > 0 {
      assert s[1..][k - 1..] == s[k..];
      SubsequenceOfSuffix(r, s[1..], k - 1);
      if |r| > 0 {
        assert IsSubsequence(r, s[1..]);
      }
    }
  }

  lemma {:induction false} SubsequenceOfItself(s: string)
    ensures IsSubsequence(s, s)
    decreases |s|
  {
    if |s| > 0 {
      SubsequenceOfItself(s[1..]);
    }
  }

  /** Deleting occurrences only ever leaves characters out; the ones kept
      stay in their order. */
  lemma {:induction false} DeleteAllIsSubsequence(s: string, pat: string)
    requires |pat| > 0
    ensures IsSubsequence(DeleteAll(s, pat), s)
    decreases |s|
  {
    if |s| < |pat| {
      SubsequenceOfItself(s);
    } else if s[..|pat|] == pat {
      DeleteAllIsSubsequence(s[|pat|..], pat);
      SubsequenceOfSuffix(DeleteAll(s, pat), s, |pat|);
    } else {
      DeleteAllIsSubsequence(s[1..], pat);
      var r := DeleteAll(s, pat);
      assert r[1..] == DeleteAll(s[1..], pat);
    }
  }

  // ---------------------------------------------------------------------
  // str.split(sep) for a one-character separator, and its inverse
  // ---------------------------------------------------------------------

  function FirstIndex(s: string, c: char): (k: nat)
    requires c in s
    ensures k < |s| && s[k] == c && c !in s[..k]
  {
    if s[0] == c then 0
    else
      assert c in s[1..];
      var k := FirstIndex(s[1..], c);
      assert s[..k + 1] == [s[0]] + s[1..][..k];
      k + 1
  }

  /** Python's `s.split(sep)`: the pieces between separators, so one more
      piece than there are separators, empty pieces included. */
  function Split(s: string, sep: char): (parts: seq<string>)
    ensures |parts| >= 1
    ensures forall i :: 0 <= i < |parts| ==> sep !in parts[i]
    decreases |s|
  {
    if sep !in s then [s]
    else
      var k := FirstIndex(s, sep);
      [s[..k]] + Split(s[k + 1..], sep)
  }

  /** Python's `sep.join(parts)`. */
  function Join(parts: seq<string>, sep: char): string
    requires |parts| >= 1
  {
    if |parts| == 1 then parts[0]
    else parts[0] + [sep] + Join(parts[1..], sep)
  }

  lemma {:induction false} JoinSplit(s: string, sep: char)
    ensures Join(Split(s, sep), sep) == s
    decreases |s|
  {
    if sep in s {
      var k := FirstIndex(s, sep);
      var rest := Split(s[k + 1..], sep);
      var parts := [s[..k]] + rest;
      assert Split(s, sep) == parts;
      assert parts[0] == s[..k] && parts[1..] == rest;
      assert Join(parts, sep) == s[..k] + [sep] + Join(rest, sep);
      JoinSplit(s[k + 1..], sep);
      assert s == s[..k] + [sep] + s[k + 1..];
    }
  }

  lemma {:induction false} SplitJoin(parts: seq<string>, sep: char)
    requires |parts| >= 1
    requires forall i :: 0 <= i < |parts| ==> sep !in parts[i]
    ensures Split(Join(parts, sep), sep) == parts
    decreases |parts|
  {
    if |parts| > 1 {
      var tail := Join(parts[1..], sep);
      assert Join(parts, sep) == parts[0] + [sep] + tail;
      SplitFirst(parts[0], tail, sep);
      SplitJoin(parts[1..], sep);
      assert parts == [parts[0]] + parts[1..];
    }
  }

  /** The first separator ends the first piece. */
  lemma SplitFirst(a: string, tail: string, sep: char)
    requires sep !in a
    ensures Split(a + [sep] + tail, sep) == [a] + Split(tail, sep)
  {
    var s := a + [sep] + tail;
    assert s[|a|] == sep;
    var k := FirstIndex(s, sep);
    assert s[..|a|] == a;
    assert s[..k] == a && s[k + 1..] == tail;
  }

  /** Two pieces free of the separator, joined by it, split back into them. */
  lemma SplitTwo(a: string, b: string, sep: char)
    requires sep !in a && sep !in b
    ensures Split(a + [sep] + b, sep) == [a, b]
  {
    var halves := [a, b];
    assert halves[1..] == [b];
    assert Join(halves, sep) == a + [sep] + b;
    SplitJoin(halves, sep);
  }

  // ---------------------------------------------------------------------
  // str.rstrip(chars) and str.strip(chars)
  // ---------------------------------------------------------------------

  /** Python's `s.rstrip(chars)`. */
  function RStrip(s: string, chars: set<char>): (r: string)
    ensures |r| <= |s| && r == s[..|r|]
    ensures r == [] || r[|r| - 1] !in chars
    ensures forall i :: |r| <= i < |s| ==> s[i] in chars
  {
    if |s| > 0 && s[|s| - 1] in chars then RStrip(s[..|s| - 1], chars) else s
  }

  /** Stripping removes a tail made of `chars` and stops at a last character
      outside them. */
  lemma {:induction false} RStripTail(s: string, t: string, chars: set<char>)
    requires s == [] || s[|s| - 1] !in chars
    requires forall i :: 0 <= i < |t| ==> t[i] in chars
    ensures RStrip(s + t, chars) == s
  {
    if t == [] {
      assert s + t == s;
    } else {
      var u := t[..|t| - 1];
      assert (s + t)[..|s + t| - 1] == s + u;
      RStripTail(s, u, chars);
    }
  }

  /** Python's `s.lstrip(chars)`. */
  function LStrip(s: string, chars: set<char>): (r: string)
    ensures |r| <= |s| && r == s[|s| - |r|..]
    ensures r == [] || r[0] !in chars
    ensures forall i :: 0 <= i < |s| - |r| ==> s[i] in chars
  {
    if |s| > 0 && s[0] in chars then LStrip(s[1..], chars) else s
  }

  /** A leading character in `chars` is taken away by `lstrip`. */
  lemma LStripCons(c: char, s: string, chars: set<char>)
    requires c in chars
    ensures LStrip([c] + s, chars) == LStrip(s, chars)
  {
    assert ([c] + s)[1..] == s;
  }

  /** A string that starts outside `chars` is left alone by `lstrip`. */
  lemma LStripKeeps(s: string, chars: set<char>)
    requires |s| >= 1 && s[0] !in chars
    ensures LStrip(s, chars) == s
  {
  }

  /** Python's `s.strip(chars)`: the characters in `chars` taken off both ends. */
  function Strip(s: string, chars: set<char>): string
    decreases |s|
  {
    if |s| > 0 && s[0] in chars then Strip(s[1..], chars)
    else if |s| > 0 && s[|s| - 1] in chars then Strip(s[..|s| - 1], chars)
    else s
  }

  /** A string made only of stripped characters strips to nothing. */
  lemma {:induction false} StripAll(s: string, chars: set<char>)
    requires forall i :: 0 <= i < |s| ==> s[i] in chars
    ensures Strip(s, chars) == []
    decreases |s|
  {
    if |s| > 0 {
      assert s[0] in chars;
      assert forall i :: 0 <= i < |s[1..]| ==> s[1..][i] == s[i + 1];
      StripAll(s[1..], chars);
    }
  }

  /** Stripping both ends is stripping the right end, then the left one. */
  lemma {:induction false} StripIsBothStrips(s: string, chars: set<char>)
    ensures Strip(s, chars) == LStrip(RStrip(s, chars), chars)
    decreases |s|
  {
    if |s| > 0 && s[0] in chars {
      StripIsBothStrips(s[1..], chars);
      LeftThenRight(s, chars);
    } else if |s| > 0 && s[|s| - 1] in chars {
      StripIsBothStrips(s[..|s| - 1], chars);
    }
  }

  /** Taking one character off the left commutes with stripping the right. */
  lemma {:induction false} LeftThenRight(s: string, chars: set<char>)
    requires |s| > 0 && s[0] in chars
    ensures LStrip(RStrip(s, chars), chars) == LStrip(RStrip(s[1..], chars), chars)
    decreases |s|
  {
    if s[|s| - 1] in chars {
      if |s| == 1 {
        assert RStrip(s, chars) == RStrip([], chars);
        assert s[1..] == [];
      } else {
        assert s[..|s| - 1][1..] == s[1..][..|s[1..]| - 1];
        LeftThenRight(s[..|s| - 1], chars);
      }
    } else {
      assert RStrip(s[1..], chars) == s[1..];
    }
  }

  /** The characters below 128 that Python's `str.strip()` removes when
      given no argument: space, tab, line feed, carriage return, vertical
      tab, form feed and the four separators 0x1C to 0x1F. White space above
      127 is not modelled. */
  const Whitespace: set<char> :=
    {' ', '\t', '\n', '\r', '\U{B}', '\U{C}', '\U{1C}', '\U{1D}', '\U{1E}', '\U{1F}'}
}
