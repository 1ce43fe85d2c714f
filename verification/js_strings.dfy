/** The JavaScript string operations the reporters and test-data helpers
    rely on, as pure functions over `seq<char>`: character classes used by
    the regular expressions, `trim`, `split`, decimal numerals,
    `padStart`, `toUpperCase`, and the global run-replacing `replace`. */
module JsStrings {

  // ---------------------------------------------------------------------
  // Character classes

  /** The characters JavaScript's `\s` matches and `trim` removes: the
      WhiteSpace and LineTerminator code points of ECMAScript. */
  predicate IsSpace(c: char) {
    || c == '\t' || c == '\n' || c == '\U{000B}' || c == '\U{000C}' || c == '\r'
    || c == ' ' || c == '\U{00A0}' || c == '\U{1680}'
    || ('\U{2000}' <= c <= '\U{200A}')
    || c == '\U{2028}' || c == '\U{2029}' || c == '\U{202F}' || c == '\U{205F}'
    || c == '\U{3000}' || c == '\U{FEFF}'
  }

  /** `\d` without the `u` flag: the ASCII digits only. */
  predicate IsDigit(c: char) {
    '0' <= c <= '9'
  }

  predicate IsLowerAscii(c: char) {
    'a' <= c <= 'z'
  }

  predicate IsUpperAscii(c: char) {
    'A' <= c <= 'Z'
  }

  /** `\w`: ASCII letters, digits and the underscore. */
  predicate IsWordChar(c: char) {
    IsUpperAscii(c) || IsLowerAscii(c) || IsDigit(c) || c == '_'
  }

  predicate AllDigits(s: string) {
    forall i :: 0 <= i < |s| ==> IsDigit(s[i])
  }

  predicate NoSpace(s: string) {
    forall i :: 0 <= i < |s| ==> !IsSpace(s[i])
  }

  // ---------------------------------------------------------------------
  // Decimal numerals: `String(n)` for a whole number n

  function DigitChar(d: nat): (c: char)
    requires d < 10
    ensures IsDigit(c) && c as int - '0' as int == d
  {
    ('0' as int + d) as char
  }

  function DigitValue(c: char): (d: nat)
    requires IsDigit(c)
    ensures d < 10 && DigitChar(d) == c
  {
    c as int - '0' as int
  }

  /** The decimal numeral of `n`, as `String(n)` prints a whole number. */
  function NatToString(n: nat): (r: string)
    ensures |r| > 0 && AllDigits(r)
    ensures r[0] == '0' ==> n == 0
    decreases n
  {
    if n < 10 then [DigitChar(n)] else NatToString(n / 10) + [DigitChar(n % 10)]
  }

  /** The value of a string of decimal digits (leading zeros allowed). */
  function DigitsValue(s: string): nat
    requires AllDigits(s)
    decreases |s|
  {
    if |s| == 0 then 0 else 10 * DigitsValue(s[..|s| - 1]) + DigitValue(s[|s| - 1])
  }

  /** Reading a numeral back gives the number it was printed from. */
  lemma {:induction false} NatToStringRoundTrip(n: nat)
    ensures DigitsValue(NatToString(n)) == n
    decreases n
  {
    if n >= 10 {
      NatToStringRoundTrip(n / 10);
      var s := NatToString(n);
      assert s[..|s| - 1] == NatToString(n / 10);
    }
  }

  lemma NatToStringInjective(a: nat, b: nat)
    ensures NatToString(a) == NatToString(b) ==> a == b
  {
    NatToStringRoundTrip(a);
    NatToStringRoundTrip(b);
  }

  lemma DigitsThenSeparator(d: string, sep: char, x: string)
    requires AllDigits(d) && !IsDigit(sep)
    ensures forall i :: 0 <= i < |d| ==> IsDigit((d + [sep] + x)[i])
    ensures (d + [sep] + x)[|d|] == sep
  {
  }

  /** A prefix made of a numeral and a separator that is not a digit can be
      recovered from the whole string: two such strings that agree have
      the same numeral. */
  lemma NumeralPrefixInjective(a: nat, b: nat, sep: char, x: string, y: string)
    requires !IsDigit(sep)
    requires NatToString(a) + [sep] + x == NatToString(b) + [sep] + y
    ensures a == b && x == y
  {
    var sa, sb := NatToString(a), NatToString(b);
    var w := sa + [sep] + x;
    DigitsThenSeparator(sa, sep, x);
    DigitsThenSeparator(sb, sep, y);
    if |sa| != |sb| {
      assert false;
    }
    assert sa == w[..|sa|] == sb;
    NatToStringInjective(a, b);
    assert x == w[|sa| + 1..] == y;
  }

  // ---------------------------------------------------------------------
  // Searching and splitting on one character

  function Count(s: string, c: char): nat
    decreases |s|
  {
    if |s| == 0 then 0 else (if s[0] == c then 1 else 0) + Count(s[1..], c)
  }

  function IndexOf(s: string, c: char): (i: nat)
    requires c in s
    ensures i < |s| && s[i] == c && c !in s[..i]
    decreases |s|
  {
    if s[0] == c then 0
    else
      var j := IndexOf(s[1..], c);
      assert s[..j + 1] == [s[0]] + s[1..][..j];
      j + 1
  }

  /** `s.split(sep)` for a one-character separator: the pieces between
      separators, so the empty string splits into one empty piece. */
  function Split(s: string, sep: char): (parts: seq<string>)
    ensures |parts| >= 1
    ensures forall i :: 0 <= i < |parts| ==> sep !in parts[i]
    decreases |s|
  {
    if sep !in s then [s]
    else
      var i := IndexOf(s, sep);
      [s[..i]] + Split(s[i + 1..], sep)
  }

  /** `parts.join(sep)`. */
  function Join(parts: seq<string>, sep: char): string
    decreases |parts|
  {
    if |parts| == 0 then ""
    else if |parts| == 1 then parts[0]
    else parts[0] + [sep] + Join(parts[1..], sep)
  }

  lemma {:induction false} CountAppend(a: string, b: string, c: char)
    ensures Count(a + b, c) == Count(a, c) + Count(b, c)
    decreases |a|
  {
    if |a| > 0 {
      assert (a + b)[1..] == a[1..] + b;
      CountAppend(a[1..], b, c);
    } else {
      assert a + b == b;
    }
  }

  lemma {:induction false} CountAbsent(s: string, c: char)
    requires c !in s
    ensures Count(s, c) == 0
    decreases |s|
  {
    if |s| > 0 {
      assert s[0] != c;
      CountAbsent(s[1..], c);
    }
  }

  /** Splitting yields one more piece than there are separators. */
  lemma {:induction false} SplitCount(s: string, sep: char)
    ensures |Split(s, sep)| == Count(s, sep) + 1
    decreases |s|
  {
    if sep !in s {
      CountAbsent(s, sep);
    } else {
      var i := IndexOf(s, sep);
      assert s == s[..i] + [sep] + s[i + 1..];
      CountAbsent(s[..i], sep);
      CountAppend(s[..i] + [sep], s[i + 1..], sep);
      CountAppend(s[..i], [sep], sep);
      assert Count([sep], sep) == 1 by {
        assert [sep][1..] == [];
      }
      SplitCount(s[i + 1..], sep);
    }
  }

  /** Joining the pieces with the separator restores the string. */
  lemma {:induction false} JoinSplit(s: string, sep: char)
    ensures Join(Split(s, sep), sep) == s
    decreases |s|
  {
    if sep in s {
      var i := IndexOf(s, sep);
      var head, tail := s[..i], s[i + 1..];
      var ps := Split(tail, sep);
      assert Split(s, sep) == [head] + ps;
      assert ([head] + ps)[1..] == ps;
      assert Join([head] + ps, sep) == head + [sep] + Join(ps, sep);
      JoinSplit(tail, sep);
      assert s == head + [sep] + tail;
    }
  }

  /** The first separator of `p + [sep] + rest` is the one after `p`. */
  lemma IndexOfAfterPiece(p: string, sep: char, rest: string)
    requires sep !in p
    ensures sep in p + [sep] + rest
    ensures IndexOf(p + [sep] + rest, sep) == |p|
  {
    var s := p + [sep] + rest;
    assert s[|p|] == sep;
  }

  /** A separator-free piece followed by the separator splits off as the
      first piece. */
  lemma SplitAfterPiece(p: string, sep: char, rest: string)
    requires sep !in p
    ensures Split(p + [sep] + rest, sep) == [p] + Split(rest, sep)
  {
    var s := p + [sep] + rest;
    IndexOfAfterPiece(p, sep, rest);
    assert s[..|p|] == p;
    assert s[|p| + 1..] == rest;
  }

  /** Splitting a join of separator-free pieces gives the pieces back. */
  lemma {:induction false} SplitJoin(parts: seq<string>, sep: char)
    requires |parts| >= 1
    requires forall i :: 0 <= i < |parts| ==> sep !in parts[i]
    ensures Split(Join(parts, sep), sep) == parts
    decreases |parts|
  {
    if |parts| > 1 {
      var rest := Join(parts[1..], sep);
      assert Join(parts, sep) == parts[0] + [sep] + rest;
      SplitAfterPiece(parts[0], sep, rest);
      SplitJoin(parts[1..], sep);
      assert parts == [parts[0]] + parts[1..];
    }
  }

  /** `s.replace(/c/g, d)`: every occurrence of one character replaced. */
  function ReplaceChar(s: string, c: char, d: char): (r: string)
    ensures |r| == |s|
    ensures c != d ==> c !in r
    ensures forall i :: 0 <= i < |s| && s[i] != c ==> r[i] == s[i]
    ensures forall i :: 0 <= i < |s| && s[i] == c ==> r[i] == d
    decreases |s|
  {
    if |s| == 0 then "" else [if s[0] == c then d else s[0]] + ReplaceChar(s[1..], c, d)
  }

  // ---------------------------------------------------------------------
  // Prefixes, suffixes, substrings

  predicate StartsWith(s: string, prefix: string) {
    |prefix| <= |s| && s[..|prefix|] == prefix
  }

  predicate EndsWith(s: string, suffix: string) {
    |suffix| <= |s| && s[|s| - |suffix|..] == suffix
  }

  /** `s.includes(t)`. */
  predicate Contains(s: string, t: string)
    decreases |s|
  {
    StartsWith(s, t) || (|s| > 0 && Contains(s[1..], t))
  }

  function LowerAscii(c: char): char {
    if IsUpperAscii(c) then (c as int + 32) as char else c
  }

  /** `s.toLowerCase().endsWith(suffix)` for an all-ASCII lower-case
      suffix such as ".png": no character outside ASCII lowers to one of
      the suffix's characters, so only ASCII case is ignored. */
  predicate EndsWithIgnoringCase(s: string, suffix: string) {
    && |suffix| <= |s|
    && forall i :: 0 <= i < |suffix| ==> LowerAscii(s[|s| - |suffix| + i]) == suffix[i]
  }

  // ---------------------------------------------------------------------
  // trim, padStart, toUpperCase

  /** Every character is white space. */
  predicate AllSpace(s: string) {
    forall i :: 0 <= i < |s| ==> IsSpace(s[i])
  }

  /** `s.trimStart()`: the suffix after the leading white space. */
  function TrimStart(s: string): (r: string)
    ensures |r| <= |s| && r == s[|s| - |r|..]
    ensures AllSpace(s[..|s| - |r|])
    ensures |r| > 0 ==> !IsSpace(r[0])
    decreases |s|
  {
    if |s| > 0 && IsSpace(s[0]) then
      var r := TrimStart(s[1..]);
      assert s[..|s| - |r|] == [s[0]] + s[1..][..|s| - 1 - |r|];
      r
    else s
  }

  /** `s.trimEnd()`: the prefix before the trailing white space. */
  function TrimEnd(s: string): (r: string)
    ensures |r| <= |s| && r == s[..|r|]
    ensures AllSpace(s[|r|..])
    ensures |r| > 0 ==> !IsSpace(r[|r| - 1])
    decreases |s|
  {
    if |s| > 0 && IsSpace(s[|s| - 1]) then
      var r := TrimEnd(s[..|s| - 1]);
      assert s[|r|..] == s[..|s| - 1][|r|..] + [s[|s| - 1]];
      r
    else s
  }

  /** How many white-space characters `s` starts with. */
  function LeadingSpaces(s: string): (n: nat)
    ensures n <= |s| && AllSpace(s[..n])
    ensures n < |s| ==> !IsSpace(s[n])
  {
    |s| - |TrimStart(s)|
  }

  /** `s.trim()`: `s` is its leading white space, the result, and a tail
      of white space, and the result neither starts nor ends with white
      space. */
  function Trim(s: string): (r: string)
    ensures LeadingSpaces(s) + |r| <= |s|
    ensures s == s[..LeadingSpaces(s)] + r + s[LeadingSpaces(s) + |r|..]
    ensures AllSpace(s[LeadingSpaces(s) + |r|..])
    ensures |r| > 0 ==> !IsSpace(r[0]) && !IsSpace(r[|r| - 1])
  {
    var t := TrimStart(s);
    TrimPieceSplits(s, t, TrimEnd(t), LeadingSpaces(s));
    TrimPieceTail(s, t, TrimEnd(t), LeadingSpaces(s));
    TrimPieceEnds(s, t, TrimEnd(t));
    TrimEnd(TrimStart(s))
  }

  /** Trimming the end of the trimmed start leaves a piece of `s` between
      its leading white space and a tail. */
  lemma TrimPieceSplits(s: string, t: string, r: string, n: nat)
    requires t == TrimStart(s) && r == TrimEnd(t) && n == LeadingSpaces(s)
    ensures n + |r| <= |s|
    ensures s == s[..n] + r + s[n + |r|..]
  {
    PieceOfSuffix(s, t, r, n);
  }

  /** The tail left after the trimmed piece is all white space. */
  lemma TrimPieceTail(s: string, t: string, r: string, n: nat)
    requires t == TrimStart(s) && r == TrimEnd(t) && n == LeadingSpaces(s)
    ensures n + |r| <= |s|
    ensures AllSpace(s[n + |r|..])
  {
    PieceOfSuffix(s, t, r, n);
    assert AllSpace(t[|r|..]);
  }

  /** A prefix `r` of the suffix `t` of `s` from `n` on sits in `s` at `n`,
      and what follows it in `t` is what follows it in `s`. */
  lemma PieceOfSuffix(s: string, t: string, r: string, n: nat)
    requires n <= |s| && t == s[n..] && |r| <= |t| && r == t[..|r|]
    ensures n + |r| <= |s|
    ensures s == s[..n] + r + s[n + |r|..]
    ensures t[|r|..] == s[n + |r|..]
  {
    assert s == s[..n] + t;
    assert t == r + t[|r|..];
  }

  /** The trimmed piece neither starts nor ends with white space. */
  lemma TrimPieceEnds(s: string, t: string, r: string)
    requires t == TrimStart(s) && r == TrimEnd(t)
    ensures |r| > 0 ==> !IsSpace(r[0]) && !IsSpace(r[|r| - 1])
  {
    if |r| > 0 {
      assert r[0] == t[0];
    }
  }

  /** A string without white space at either end is its own trim. */
  lemma TrimOfClean(s: string)
    requires |s| > 0 && !IsSpace(s[0]) && !IsSpace(s[|s| - 1])
    ensures Trim(s) == s
  {
    assert LeadingSpaces(s) == 0;
  }

  /** A string of white space trims to "". */
  lemma TrimOfAllSpace(s: string)
    requires AllSpace(s)
    ensures Trim(s) == ""
  {
    if LeadingSpaces(s) < |s| {
      assert false;
    }
  }

  lemma TrimIdempotent(s: string)
    ensures Trim(Trim(s)) == Trim(s)
  {
    var r := Trim(s);
    if |r| > 0 {
      TrimOfClean(r);
    } else {
      TrimOfAllSpace(r);
    }
  }

  /** `s.padStart(2, '0')`. */
  function PadStart2(s: string): (r: string)
    ensures |s| >= 2 ==> r == s
    ensures |s| < 2 ==> |r| == 2 && r[2 - |s|..] == s
    ensures forall i :: 0 <= i < |r| - |s| ==> r[i] == '0'
  {
    if |s| >= 2 then s else if |s| == 1 then "0" + s else "00"
  }

  /** `c.toUpperCase()` for the characters whose upper case consists of
      ASCII letters only: the ASCII letters themselves and the dotless i,
      the long s, the sharp s and the Latin ligatures U+FB00..U+FB06.
      Every other character is kept: its upper case contains a non-ASCII
      character, so it cannot complete an all-ASCII lookup key either way. */
  function UpperChar(c: char): (r: string)
    ensures |r| >= 1
    ensures forall i :: 0 <= i < |r| ==> !IsLowerAscii(r[i])
  {
    if IsLowerAscii(c) then [(c as int - 32) as char]
    else if c == '\U{0131}' then "I"
    else if c == '\U{017F}' then "S"
    else if c == '\U{00DF}' then "SS"
    else if c == '\U{FB00}' then "FF"
    else if c == '\U{FB01}' then "FI"
    else if c == '\U{FB02}' then "FL"
    else if c == '\U{FB03}' then "FFI"
    else if c == '\U{FB04}' then "FFL"
    else if c == '\U{FB05}' || c == '\U{FB06}' then "ST"
    else [c]
  }

  /** Every character is in the ASCII range. */
  predicate IsAscii(s: string) {
    forall i :: 0 <= i < |s| ==> s[i] < '\U{0080}'
  }

  /** `s.toUpperCase()`, character by character. An ASCII string keeps
      its length and each of its characters up to case. */
  function UpperCase(s: string): (r: string)
    ensures |r| >= |s|
    ensures forall i :: 0 <= i < |r| ==> !IsLowerAscii(r[i])
    ensures IsAscii(s) ==> |r| == |s| && forall i :: 0 <= i < |s| ==> LowerAscii(r[i]) == LowerAscii(s[i])
    decreases |s|
  {
    if |s| == 0 then ""
    else
      var head := UpperChar(s[0]);
      var rest := UpperCase(s[1..]);
      assert forall i :: 0 <= i < |s| - 1 ==> s[1..][i] == s[i + 1];
      assert IsAscii(s) ==> IsAscii(s[1..]) && |head| == 1 && LowerAscii(head[0]) == LowerAscii(s[0]);
      assert |head| == 1 ==> forall i :: 1 <= i < |head + rest| ==> (head + rest)[i] == rest[i - 1];
      head + rest
  }

  /** Strings that differ only in the case of ASCII letters have the same
      upper case. */
  lemma {:induction false} UpperCaseIgnoresAsciiCase(a: string, b: string)
    requires |a| == |b|
    requires forall i :: 0 <= i < |a| ==> LowerAscii(a[i]) == LowerAscii(b[i])
    ensures UpperCase(a) == UpperCase(b)
    decreases |a|
  {
    if |a| > 0 {
      assert UpperChar(a[0]) == UpperChar(b[0]) by {
        assert LowerAscii(a[0]) == LowerAscii(b[0]);
      }
      UpperCaseIgnoresAsciiCase(a[1..], b[1..]);
    }
  }

  // ---------------------------------------------------------------------
  // Global run replacement: `s.replace(/[C]+/g, rep)`

  /** Every maximal run of characters of class `cls` becomes one `rep`.
      Defined from the right end, one character at a time. */
  function ReplaceRuns(s: string, cls: char -> bool, rep: char): (r: string)
    ensures |r| <= |s|
    ensures |s| > 0 ==> |r| > 0
    ensures !cls(rep) ==> forall i :: 0 <= i < |r| ==> !cls(r[i])
    decreases |s|
  {
    if |s| == 0 then ""
    else
      var init := s[..|s| - 1];
      var last := s[|s| - 1];
      if !cls(last) then ReplaceRuns(init, cls, rep) + [last]
      else if |init| > 0 && cls(init[|init| - 1]) then ReplaceRuns(init, cls, rep)
      else ReplaceRuns(init, cls, rep) + [rep]
  }

  /** A string with no character of the class is left as it is. */
  lemma {:induction false} ReplaceRunsIdentity(s: string, cls: char -> bool, rep: char)
    requires forall i :: 0 <= i < |s| ==> !cls(s[i])
    ensures ReplaceRuns(s, cls, rep) == s
    decreases |s|
  {
    if |s| > 0 {
      ReplaceRunsIdentity(s[..|s| - 1], cls, rep);
      assert s == s[..|s| - 1] + [s[|s| - 1]];
    }
  }

  /** When the replacement is outside the class, replacing twice is the
      same as replacing once. */
  lemma ReplaceRunsIdempotent(s: string, cls: char -> bool, rep: char)
    requires !cls(rep)
    ensures ReplaceRuns(ReplaceRuns(s, cls, rep), cls, rep) == ReplaceRuns(s, cls, rep)
  {
    ReplaceRunsIdentity(ReplaceRuns(s, cls, rep), cls, rep);
  }

  /** Replacement commutes with concatenation when the seam does not fall
      inside a run: the two halves are replaced independently. */
  lemma {:induction false} ReplaceRunsAppend(s: string, t: string, cls: char -> bool, rep: char)
    requires !(|s| > 0 && |t| > 0 && cls(s[|s| - 1]) && cls(t[0]))
    ensures ReplaceRuns(s + t, cls, rep) == ReplaceRuns(s, cls, rep) + ReplaceRuns(t, cls, rep)
    decreases |t|
  {
    if |t| == 0 {
      assert s + t == s;
    } else {
      var t0 := t[..|t| - 1];
      var last := t[|t| - 1];
      assert (s + t)[..|s + t| - 1] == s + t0;
      assert (s + t)[|s + t| - 1] == last;
      if |t0| > 0 {
        assert t0[0] == t[0];
        assert (s + t0)[|s + t0| - 1] == t0[|t0| - 1];
      }
      ReplaceRunsAppend(s, t0, cls, rep);
    }
  }

  /** A non-empty run of class characters becomes one replacement. */
  lemma {:induction false} ReplaceRunsOfRun(run: string, cls: char -> bool, rep: char)
    requires |run| > 0 && forall i :: 0 <= i < |run| ==> cls(run[i])
    ensures ReplaceRuns(run, cls, rep) == [rep]
    decreases |run|
  {
    if |run| > 1 {
      ReplaceRunsOfRun(run[..|run| - 1], cls, rep);
    }
  }

  /** Each maximal run becomes exactly one replacement and the text on
      either side is replaced on its own: a run that neither `a` ends with
      nor `b` starts with a class character around leaves `a` and `b`
      apart, joined by one `rep`. */
  lemma ReplaceRunsCollapse(a: string, run: string, b: string, cls: char -> bool, rep: char)
    requires |run| > 0 && forall i :: 0 <= i < |run| ==> cls(run[i])
    requires |a| > 0 ==> !cls(a[|a| - 1])
    requires |b| > 0 ==> !cls(b[0])
    ensures ReplaceRuns(a + run + b, cls, rep) == ReplaceRuns(a, cls, rep) + [rep] + ReplaceRuns(b, cls, rep)
  {
    ReplaceRunsAppend(a, run, cls, rep);
    ReplaceRunsOfRun(run, cls, rep);
    assert (a + run)[|a + run| - 1] == run[|run| - 1];
    ReplaceRunsAppend(a + run, b, cls, rep);
  }

  /** The characters of `s` that are neither in the class nor the
      replacement character, in order. */
  function Others(s: string, cls: char -> bool, rep: char): string
    decreases |s|
  {
    if |s| == 0 then ""
    else
      var last := s[|s| - 1];
      Others(s[..|s| - 1], cls, rep) + (if cls(last) || last == rep then "" else [last])
  }

  /** Apart from the replacement characters it inserts, the replacement
      keeps exactly the characters outside the class, in their order. */
  lemma {:induction false} ReplaceRunsKeepsOthers(s: string, cls: char -> bool, rep: char)
    requires !cls(rep)
    ensures Others(ReplaceRuns(s, cls, rep), cls, rep) == Others(s, cls, rep)
    decreases |s|
  {
    if |s| > 0 {
      var init := s[..|s| - 1];
      var r0 := ReplaceRuns(init, cls, rep);
      ReplaceRunsKeepsOthers(init, cls, rep);
      var r := ReplaceRuns(s, cls, rep);
      if !cls(s[|s| - 1]) {
        assert r == r0 + [s[|s| - 1]];
        assert r[..|r| - 1] == r0;
      } else if !(|init| > 0 && cls(init[|init| - 1])) {
        assert r == r0 + [rep];
        assert r[..|r| - 1] == r0;
      }
    }
  }
}
