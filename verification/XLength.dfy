/** The weighted length of a post for X. */
module XLength {
  import opened Text

  const URL_WEIGHT := 23
  const MAX_WEIGHT := 280

  /** \s in the URL pattern: tab, line feed, form feed, carriage return, space. */
  predicate IsPatternSpace(r: Rune) {
    r.Scalar? && (r.c == '\t' || r.c == '\n' || r.c as int == 0x0C || r.c == '\r' || r.c == ' ')
  }

  const PLAIN: Text :=
    [Scalar('h'), Scalar('t'), Scalar('t'), Scalar('p'), Scalar(':'), Scalar('/'), Scalar('/')]
  const SECURE: Text :=
    [Scalar('h'), Scalar('t'), Scalar('t'), Scalar('p'), Scalar('s'), Scalar(':'), Scalar('/'), Scalar('/')]

  predicate IsScheme(t: Text) {
    t == PLAIN || t == SECURE
  }

  lemma SchemesAre(t: Text, r: Rune)
    ensures IsScheme(t) <==> t == Of("http://") || t == Of("https://")
    ensures IsPatternSpace(r) <==> r.Scalar? && r.c as int in {9, 10, 12, 13, 32}
  {
    assert PLAIN == Of("http://");
    assert SECURE == Of("https://");
  }

  /** t[i..j] is a match of the URL pattern that extends as far as it can. */
  ghost predicate IsUrlAt(t: Text, i: int, j: int) {
    && 0 <= i < j <= |t|
    && (exists k :: i < k < j && IsScheme(t[i..k]) && forall m :: k <= m < j ==> !IsPatternSpace(t[m]))
    && (j == |t| || IsPatternSpace(t[j]))
  }

  ghost predicate UrlStartsAt(t: Text, i: int) {
    exists j :: IsUrlAt(t, i, j)
  }

  /** All leftmost, non-overlapping matches at or after `from`, in order. */
  ghost predicate AreMatches(t: Text, from: int, ms: seq<(int, int)>)
    decreases |ms|
  {
    if ms == [] then forall i :: from <= i ==> !UrlStartsAt(t, i)
    else
      && from <= ms[0].0
      && (forall i :: from <= i < ms[0].0 ==> !UrlStartsAt(t, i))
      && IsUrlAt(t, ms[0].0, ms[0].1)
      && AreMatches(t, ms[0].1, ms[1..])
  }

  function SchemeLength(t: Text): nat {
    if PLAIN <= t then 7 else if SECURE <= t then 8 else 0
  }

  function NonSpaces(t: Text): (n: nat)
    ensures n <= |t| && (forall i :: 0 <= i < n ==> !IsPatternSpace(t[i])) && (n < |t| ==> IsPatternSpace(t[n]))
  {
    if t == [] || IsPatternSpace(t[0]) then 0 else 1 + NonSpaces(t[1..])
  }

  /** The length of the URL at the start of the text, or 0. */
  function UrlLength(t: Text): (n: nat)
    ensures n <= |t|
  {
    var k := SchemeLength(t);
    if k == 0 || NonSpaces(t[k..]) == 0 then 0 else k + NonSpaces(t[k..])
  }

  lemma SchemeIsUnique(t: Text, k: int)
    requires 0 < k <= |t|
    ensures IsScheme(t[..k]) <==> k == SchemeLength(t)
  {
    if IsScheme(t[..k]) {
      assert t[4] == t[..k][4];
      assert |t[..k]| == k;
    }
  }

  lemma UrlMatchHasLength(t: Text, i: int, j: int)
    requires IsUrlAt(t, i, j)
    ensures UrlLength(t[i..]) > 0 && j == i + UrlLength(t[i..])
  {
    var u := t[i..];
    var m :| i < m < j && IsScheme(t[i..m]) && forall n :: m <= n < j ==> !IsPatternSpace(t[n]);
    assert t[i..m] == u[..m - i];
    SchemeIsUnique(u, m - i);
    var v := u[m - i..];
    assert forall n :: 0 <= n < |v| ==> v[n] == t[m + n];
  }

  lemma UrlLengthIsMatch(t: Text, i: int, j: int)
    requires 0 <= i <= |t|
    ensures IsUrlAt(t, i, j) <==> UrlLength(t[i..]) > 0 && j == i + UrlLength(t[i..])
  {
    if IsUrlAt(t, i, j) {
      UrlMatchHasLength(t, i, j);
    }
    var u := t[i..];
    if UrlLength(u) > 0 && j == i + UrlLength(u) {
      var m := i + SchemeLength(u);
      SchemeIsUnique(u, m - i);
      assert t[i..m] == u[..m - i];
      var v := u[m - i..];
      assert forall n :: m <= n < |t| ==> t[n] == v[n - m];
      assert IsScheme(t[i..m]);
    }
  }

  function RuneWeight(r: Rune): nat {
    var v := Value(r);
    if 0 <= v <= 0x10FF || 0x2000 <= v <= 0x200D || 0x2010 <= v <= 0x201F || 0x2032 <= v <= 0x2037 then 1 else 2
  }

  /** Code points up to U+10FF, and some punctuation, weigh 1; everything else 2, a byte that is
      not UTF-8 included. */
  lemma RuneWeightsAre(r: Rune)
    ensures RuneWeight(r) == (
              if r.Scalar? && (r.c as int <= 4351 || 8192 <= r.c as int <= 8205 || 8208 <= r.c as int <= 8223
                               || 8242 <= r.c as int <= 8247)
              then 1 else 2)
  {
  }

  function PlainWeight(t: Text): nat {
    if t == [] then 0 else RuneWeight(t[0]) + PlainWeight(t[1..])
  }

  /** The weighted length, read from left to right. */
  function Weight(t: Text): nat
    decreases |t|
  {
    if t == [] then 0
    else if UrlLength(t) > 0 then URL_WEIGHT + Weight(t[UrlLength(t)..])
    else RuneWeight(t[0]) + Weight(t[1..])
  }

  lemma {:induction false} PlainWeightBounds(t: Text)
    ensures |t| <= PlainWeight(t) <= 2 * |t|
    ensures (forall i :: 0 <= i < |t| ==> IsLight(t[i])) ==> PlainWeight(t) == |t|
  {
    if t != [] {
      PlainWeightBounds(t[1..]);
      RuneWeightsAre(t[0]);
    }
  }

  /** A URL weighs 23 however long it is; a scheme alone is not a URL and weighs what its
      characters weigh. */
  lemma UrlWeighs23(scheme: Text, rest: Text)
    requires IsScheme(scheme) && forall i :: 0 <= i < |rest| ==> !IsPatternSpace(rest[i])
    ensures Weight(scheme + rest) == if rest == [] then |scheme| else 23
  {
    if rest == [] {
      assert scheme + rest == scheme;
      SchemeAloneWeighs(scheme);
    } else {
      var t := scheme + rest;
      assert t[..|scheme|] == scheme && t[|scheme|..] == rest;
      SchemeIsUnique(t, |scheme|);
      NonSpacesAll(rest);
      assert UrlLength(t) == |t|;
      assert t[|t|..] == [];
    }
  }

  lemma {:induction false} NonSpacesAll(t: Text)
    requires forall i :: 0 <= i < |t| ==> !IsPatternSpace(t[i])
    ensures NonSpaces(t) == |t|
  {
    if t != [] {
      NonSpacesAll(t[1..]);
    }
  }

  lemma SchemeAloneWeighs(t: Text)
    requires IsScheme(t)
    ensures Weight(t) == |t|
  {
    forall i | 0 <= i ensures !UrlStartsAt(t, i) {
      forall j ensures !IsUrlAt(t, i, j) {
        NoUrlInScheme(t, i, j);
      }
    }
    WeightWithoutMatch(t, 0);
    assert t[0..] == t;
    SchemeIsLight(t);
  }

  lemma SchemeIsLight(t: Text)
    requires IsScheme(t)
    ensures PlainWeight(t) == |t|
  {
    SchemeLetters(t);
    LettersAreLight(t);
  }

  lemma LettersAreLight(t: Text)
    requires t != [] && t[0] == Scalar('h') && forall i :: 1 <= i < |t| ==> IsSchemeLetter(t[i])
    ensures PlainWeight(t) == |t|
  {
    PlainWeightBounds(t);
  }

  predicate IsLight(r: Rune) {
    r.Scalar? && r.c as int <= 4351
  }

  predicate IsSchemeLetter(r: Rune) {
    r == Scalar('t') || r == Scalar('p') || r == Scalar('s') || r == Scalar(':') || r == Scalar('/')
  }

  /** The letter h comes first in a scheme and nowhere else. */
  lemma SchemeLetters(t: Text)
    requires IsScheme(t)
    ensures t[0] == Scalar('h') && forall i :: 1 <= i < |t| ==> IsSchemeLetter(t[i])
  {
    assert t[1] == Scalar('t') && t[2] == Scalar('t') && t[3] == Scalar('p');
    assert t == PLAIN ==> t[4] == Scalar(':') && t[5] == Scalar('/') && t[6] == Scalar('/');
    assert t == SECURE ==> t[4] == Scalar('s') && t[5] == Scalar(':') && t[6] == Scalar('/') && t[7] == Scalar('/');
  }

  lemma SchemeBegins(t: Text)
    requires SchemeLength(t) > 0
    ensures t != [] && t[0] == Scalar('h')
  {
  }

  lemma NoUrlInside(t: Text, i: int)
    requires IsScheme(t) && 0 <= i <= |t|
    ensures UrlLength(t[i..]) == 0
  {
    if i == 0 {
      assert t[0..] == t && t[..|t|] == t && t[|t|..] == [];
      SchemeIsUnique(t, |t|);
    } else if SchemeLength(t[i..]) > 0 {
      SchemeLetters(t);
      SchemeBegins(t[i..]);
    }
  }

  lemma NoUrlInScheme(t: Text, i: int, j: int)
    requires IsScheme(t) && 0 <= i
    ensures !IsUrlAt(t, i, j)
  {
    if i <= |t| {
      NoUrlInside(t, i);
      if IsUrlAt(t, i, j) {
        UrlMatchHasLength(t, i, j);
      }
    }
  }

  /** Text before the next URL weighs what its runes weigh. */
  lemma {:induction false} WeightUpTo(t: Text, start: int, end: int)
    requires 0 <= start <= end <= |t|
    requires forall i :: start <= i < end ==> !UrlStartsAt(t, i)
    ensures Weight(t[start..]) == PlainWeight(t[start..end]) + Weight(t[end..])
    decreases end - start
  {
    if start < end {
      WeightUpTo(t, start + 1, end);
      assert !UrlStartsAt(t, start);
      UrlLengthIsMatch(t, start, start + UrlLength(t[start..]));
      assert t[start..][1..] == t[start + 1..];
      assert t[start..end][1..] == t[start + 1..end];
    }
  }

  lemma WeightThroughMatch(t: Text, last: int, ms: seq<(int, int)>)
    requires 0 <= last <= |t| && AreMatches(t, last, ms) && ms != []
    ensures last <= ms[0].0 < ms[0].1 <= |t| && AreMatches(t, ms[0].1, ms[1..])
    ensures Weight(t[last..]) == PlainWeight(t[last..ms[0].0]) + URL_WEIGHT + Weight(t[ms[0].1..])
  {
    var (i, j) := ms[0];
    WeightUpTo(t, last, i);
    UrlLengthIsMatch(t, i, j);
    assert t[i..][UrlLength(t[i..])..] == t[j..];
  }

  lemma WeightWithoutMatch(t: Text, last: int)
    requires 0 <= last <= |t| && AreMatches(t, last, [])
    ensures Weight(t[last..]) == PlainWeight(t[last..])
  {
    WeightUpTo(t, last, |t|);
    assert t[last..|t|] == t[last..];
  }

  /** regexp.FindAllStringIndex for the URL pattern, from a given position. */
  method FindAllUrls(t: Text, from: nat) returns (ms: seq<(int, int)>)
    requires from <= |t|
    ensures AreMatches(t, from, ms)
    decreases |t| - from
  {
    if from == |t| {
      return [];
    }
    var n := UrlLength(t[from..]);
    UrlLengthIsMatch(t, from, from + n);
    if n > 0 {
      ms := FindAllUrls(t, from + n);
      ms := [(from, from + n)] + ms;
    } else {
      forall j ensures !IsUrlAt(t, from, j) {
        UrlLengthIsMatch(t, from, j);
      }
      ms := FindAllUrls(t, from + 1);
      MatchesFromEarlier(t, from, ms);
    }
  }

  lemma MatchesFromEarlier(t: Text, i: int, ms: seq<(int, int)>)
    requires !UrlStartsAt(t, i) && AreMatches(t, i + 1, ms)
    ensures AreMatches(t, i, ms)
  {
  }

  method XRuneWeight(t: Text) returns (weight: nat)
    ensures weight == PlainWeight(t)
  {
    weight := 0;
    for i := 0 to |t|
      invariant weight + PlainWeight(t[i..]) == PlainWeight(t)
    {
      assert t[i..][1..] == t[i + 1..];
      var v := Value(t[i]);
      if 0 <= v <= 0x10FF {
        weight := weight + 1;
      } else if 0x2000 <= v <= 0x200D {
        weight := weight + 1;
      } else if 0x2010 <= v <= 0x201F {
        weight := weight + 1;
      } else if 0x2032 <= v <= 0x2037 {
        weight := weight + 1;
      } else {
        weight := weight + 2;
      }
    }
  }

  /** The loop over matches and the gaps between them computes the left-to-right weight. */
  method XWeightedLength(t: Text) returns (r: nat)
    ensures r == Weight(t)
  {
    var weight := 0;
    var last := 0;
    var locations := FindAllUrls(t, 0);
    assert t[0..] == t;
    for k := 0 to |locations|
      invariant 0 <= last <= |t|
      invariant weight + Weight(t[last..]) == Weight(t)
      invariant AreMatches(t, last, locations[k..])
    {
      var location := locations[k];
      ghost var matches := locations[k..];
      WeightThroughMatch(t, last, matches);
      assert matches[1..] == locations[k + 1..];
      var gap := XRuneWeight(t[last..location.0]);
      weight := weight + gap;
      weight := weight + URL_WEIGHT;
      last := location.1;
    }
    WeightWithoutMatch(t, last);
    var tail := XRuneWeight(t[last..]);
    return weight + tail;
  }

  // Whitespace cuts a text into parts that weigh on their own.

  lemma {:induction false} NonSpacesStopAtSpace(a: Text, c: Rune, b: Text)
    requires IsPatternSpace(c)
    ensures NonSpaces(a + ([c] + b)) == NonSpaces(a)
  {
    if a != [] && !IsPatternSpace(a[0]) {
      NonSpacesStopAtSpace(a[1..], c, b);
      assert (a + ([c] + b))[1..] == a[1..] + ([c] + b);
    }
  }

  lemma SchemeStopsAtSpace(a: Text, c: Rune, b: Text)
    requires IsPatternSpace(c)
    ensures SchemeLength(a + ([c] + b)) == SchemeLength(a)
  {
    var t := a + ([c] + b);
    if |a| < 8 {
      assert t[|a|] == c;
    }
    assert forall k :: 0 <= k <= |a| ==> t[..k] == a[..k];
  }

  lemma UrlStopsAtSpace(a: Text, c: Rune, b: Text)
    requires IsPatternSpace(c)
    ensures UrlLength(a + ([c] + b)) == UrlLength(a)
  {
    SchemeStopsAtSpace(a, c, b);
    var k := SchemeLength(a);
    if k > 0 {
      NonSpacesStopAtSpace(a[k..], c, b);
      assert (a + ([c] + b))[k..] == a[k..] + ([c] + b);
    }
  }

  /** What the next unit of text weighs, and how long it is. */
  function StepWeight(t: Text): nat
    requires t != []
  {
    if UrlLength(t) > 0 then URL_WEIGHT else RuneWeight(t[0])
  }

  function StepLength(t: Text): (n: nat)
    requires t != []
    ensures 0 < n <= |t|
  {
    if UrlLength(t) > 0 then UrlLength(t) else 1
  }

  lemma WeightByStep(t: Text)
    requires t != []
    ensures Weight(t) == StepWeight(t) + Weight(t[StepLength(t)..])
  {
  }

  lemma SpaceWeighsOne(c: Rune, b: Text)
    requires IsPatternSpace(c)
    ensures Weight([c] + b) == 1 + Weight(b)
  {
  }

  lemma StepsAgree(a: Text, c: Rune, b: Text)
    requires IsPatternSpace(c) && a != []
    ensures var t := a + ([c] + b);
            && t != [] && StepWeight(t) == StepWeight(a) && StepLength(t) == StepLength(a)
            && t[StepLength(a)..] == a[StepLength(a)..] + ([c] + b)
  {
    UrlStopsAtSpace(a, c, b);
  }

  lemma {:induction false} WeightAcrossWhitespace(a: Text, c: Rune, b: Text)
    requires IsPatternSpace(c)
    ensures Weight(a + ([c] + b)) == Weight(a) + 1 + Weight(b)
    decreases |a|
  {
    if a == [] {
      SpaceWeighsOne(c, b);
      assert a + ([c] + b) == [c] + b;
    } else {
      StepsAgree(a, c, b);
      WeightByStep(a + ([c] + b));
      WeightByStep(a);
      WeightAcrossWhitespace(a[StepLength(a)..], c, b);
    }
  }

  predicate Allowed(r: Rune) {
    var v := Value(r);
    !((v < 0x20 && v != 0x0A && v != 0x0D && v != 0x09) || 0x7F <= v <= 0x9F)
  }

  predicate ValidText(t: Text) {
    && IsUtf8(t)
    && !Blank(t)
    && (forall i :: 0 <= i < |t| ==> Allowed(t[i]))
    && Weight(t) <= MAX_WEIGHT
  }

  method ValidateXText(t: Text) returns (ok: bool)
    ensures ok <==> ValidText(t)
    ensures ok <==>
              && IsUtf8(t) && !Blank(t) && Weight(t) <= 280
              && forall i :: 0 <= i < |t| && t[i].Scalar? ==>
                   var v := t[i].c as int; (v >= 0x20 || v in {9, 10, 13}) && !(0x7F <= v <= 0x9F)
  {
    if !IsUtf8(t) {
      return false;
    }
    if Blank(t) {
      return false;
    }
    for i := 0 to |t|
      invariant forall k :: 0 <= k < i ==> Allowed(t[k])
    {
      var v := Value(t[i]);
      if (v < 0x20 && v != 0x0A && v != 0x0D && v != 0x09) || 0x7F <= v <= 0x9F {
        assert !Allowed(t[i]);
        return false;
      }
    }
    var weight := XWeightedLength(t);
    return weight <= MAX_WEIGHT;
  }
}
