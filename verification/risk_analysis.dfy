/** The underwriting-issue check of the risk analysis page: the expected
    wordings are parsed from one comma-separated string, the displayed
    ones are read and trimmed, and the two lists are compared as
    multisets by counting. */
module RiskAnalysis {
  import opened Results
  import opened JsStrings

  /** The count a `Map<T, number>` holds for `x`, 0 when it has none. */
  function CountIn<T>(counts: map<T, int>, x: T): int {
    if x in counts then counts[x] else 0
  }

  /** Multisets whose every count is at most the other's and which have the
      same size are equal. */
  lemma MultisetSqueeze<T>(a: multiset<T>, b: multiset<T>)
    requires forall x :: b[x] <= a[x]
    requires |a| == |b|
    ensures a == b
  {
    assert b <= a;
    var d := a - b;
    assert a == b + d;
    assert |d| == 0;
    assert d == multiset{};
  }

  /** The first loop of `arraysHaveSameContent`: `countMap` holds, for each
      element of `a`, how often it occurs, and has no other keys. */
  method CountElements<T(==)>(a: seq<T>) returns (counts: map<T, int>)
    ensures forall x :: CountIn(counts, x) == multiset(a)[x]
    ensures forall x :: x in counts <==> x in multiset(a)
  {
    counts := map[];
    var i := 0;
    while i < |a|
      invariant 0 <= i <= |a|
      invariant forall x :: CountIn(counts, x) == multiset(a[..i])[x]
      invariant forall x :: x in counts <==> x in multiset(a[..i])
    {
      counts := counts[a[i] := CountIn(counts, a[i]) + 1];
      assert a[..i + 1] == a[..i] + [a[i]];
      i := i + 1;
    }
    assert a[..i] == a;
  }

  /** The loop state of `arraysHaveSameContent` after taking off `taken`:
      every count is what `a` holds minus what `taken` holds, and the keys
      are still those of `a`. */
  ghost predicate Remaining<T(!new)>(counts: map<T, int>, a: seq<T>, taken: seq<T>) {
    && (forall x :: CountIn(counts, x) + multiset(taken)[x] == multiset(a)[x])
    && (forall x :: x in counts <==> x in multiset(a))
  }

  /** Taking one more element off its count keeps the loop state. */
  lemma RemainingStep<T(!new)>(counts: map<T, int>, a: seq<T>, b: seq<T>, j: nat)
    requires j < |b| && Remaining(counts, a, b[..j]) && b[j] in counts
    ensures Remaining(counts[b[j] := counts[b[j]] - 1], a, b[..j + 1])
  {
    assert b[..j + 1] == b[..j] + [b[j]];
  }

  /** An element counted below zero, or never counted, occurs more often in
      `b` than in `a`. */
  lemma Overdrawn<T(!new)>(counts: map<T, int>, a: seq<T>, b: seq<T>, j: nat)
    requires j < |b| && Remaining(counts, a, b[..j + 1]) && CountIn(counts, b[j]) < 0
    ensures multiset(a) != multiset(b)
  {
    MultisetOfPrefix(b, j + 1);
  }

  /** An element of `b` that `a` never put in the map shows the lists
      differ. */
  lemma NeverCounted<T(!new)>(counts: map<T, int>, a: seq<T>, b: seq<T>, j: nat)
    requires j < |b| && Remaining(counts, a, b[..j]) && b[j] !in counts
    ensures multiset(a) != multiset(b)
  {
    assert b[j] in multiset(b);
  }

  /** Once every element of `b` is taken off without a negative count,
      the lists agree as multisets (their lengths being equal). */
  lemma NothingOverdrawn<T(!new)>(counts: map<T, int>, a: seq<T>, b: seq<T>)
    requires |a| == |b| && Remaining(counts, a, b)
    requires forall x :: CountIn(counts, x) >= 0
    ensures multiset(a) == multiset(b)
  {
    MultisetSqueeze(multiset(a), multiset(b));
  }

  /** `arraysHaveSameContent`: count the elements of `a`, then take each
      element of `b` off its count, failing on an element never counted
      or counted too often. */
  method ArraysHaveSameContent<T(==,!new)>(a: seq<T>, b: seq<T>) returns (same: bool)
    ensures |a| != |b| ==> !same
    ensures same <==> multiset(a) == multiset(b)
  {
    if |a| != |b| {
      return false;
    }
    var counts := CountElements(a);
    var j := 0;
    assert b[..0] == [];
    while j < |b|
      invariant 0 <= j <= |b|
      invariant Remaining(counts, a, b[..j])
      invariant forall x :: CountIn(counts, x) >= 0
    {
      var item := b[j];
      if item !in counts {
        NeverCounted(counts, a, b, j);
        return false;
      }
      RemainingStep(counts, a, b, j);
      counts := counts[item := counts[item] - 1];
      if counts[item] < 0 {
        Overdrawn(counts, a, b, j);
        return false;
      }
      j := j + 1;
    }
    assert b[..j] == b;
    NothingOverdrawn(counts, a, b);
    return true;
  }

  /** A prefix holds each element at most as often as the whole. */
  lemma MultisetOfPrefix<T>(s: seq<T>, k: nat)
    requires k <= |s|
    ensures forall x :: multiset(s[..k])[x] <= multiset(s)[x]
  {
    assert s == s[..k] + s[k..];
  }

  /** The expected wordings: none for an empty string, otherwise the
      comma-separated pieces, each trimmed. */
  function ParseExpected(wording: string): (r: seq<string>)
    ensures wording == "" ==> r == []
    ensures wording != "" ==> |r| == |Split(wording, ',')| == Count(wording, ',') + 1
    ensures wording != "" ==> forall i :: 0 <= i < |r| ==>
      r[i] == Trim(Split(wording, ',')[i])
    ensures forall i :: 0 <= i < |r| ==>
      |r[i]| > 0 ==> !IsSpace(r[i][0]) && !IsSpace(r[i][|r[i]| - 1])
  {
    if wording == "" then []
    else
      var parts := Split(wording, ',');
      SplitCount(wording, ',');
      seq(|parts|, i requires 0 <= i < |parts| => Trim(parts[i]))
  }

  /** A piece that already has no comma and no white space at either end. */
  predicate IsCleanWording(p: string) {
    ',' !in p && (|p| > 0 ==> !IsSpace(p[0]) && !IsSpace(p[|p| - 1]))
  }

  /** Joining clean wordings with commas and parsing them back gives the
      same list. */
  lemma ParseExpectedOfJoin(parts: seq<string>)
    requires |parts| >= 1 && Join(parts, ',') != ""
    requires forall i :: 0 <= i < |parts| ==> IsCleanWording(parts[i])
    ensures ParseExpected(Join(parts, ',')) == parts
  {
    SplitJoin(parts, ',');
    var r := ParseExpected(Join(parts, ','));
    forall i | 0 <= i < |parts|
      ensures r[i] == parts[i]
    {
      CleanWordingTrims(parts[i]);
    }
  }

  /** A clean wording is its own trim. */
  lemma CleanWordingTrims(p: string)
    requires IsCleanWording(p)
    ensures Trim(p) == p
  {
    if |p| == 0 {
      TrimOfAllSpace(p);
    } else {
      TrimOfClean(p);
    }
  }

  /** `getIssueDescriptions`: each displayed text trimmed, a missing text
      read as "". */
  function ActualDescriptions(texts: seq<Option<string>>): (r: seq<string>)
    ensures |r| == |texts|
    ensures forall i :: 0 <= i < |texts| ==> r[i] == if texts[i].Some? then Trim(texts[i].value) else ""
  {
    seq(|texts|, i requires 0 <= i < |texts| =>
      match texts[i]
      case Some(t) => Trim(t)
      case None => "")
  }

  /** `assertUWIssue`: whether the displayed wordings are the expected ones
      in some order. */
  method AssertUwIssue(wording: string, texts: seq<Option<string>>) returns (ok: bool)
    ensures ok <==> multiset(ParseExpected(wording)) == multiset(ActualDescriptions(texts))
    ensures wording == "" ==> (ok <==> texts == [])
  {
    ok := ArraysHaveSameContent(ParseExpected(wording), ActualDescriptions(texts));
    if wording == "" && texts != [] {
      assert ActualDescriptions(texts)[0] in multiset(ActualDescriptions(texts));
    }
  }
}
