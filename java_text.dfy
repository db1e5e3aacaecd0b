/**
 * The few `java.lang.String` operations the core relies on, with the
 * behaviour the Java platform documents for them: `indexOf` and
 * `lastIndexOf` answer -1 when the character is absent, `substring`
 * throws `StringIndexOutOfBoundsException` outside `0 <= begin <= end <= length`,
 * and `replace(target, "")` removes non-overlapping occurrences scanning
 * left to right.
 */
module JavaText {
  import opened Wrappers

  /** The exception `String.substring` throws for bad indices. */
  datatype TextError = StringIndexOutOfBounds(begin: int, end: int, length: int)

  /** `s.indexOf(c)`: the first position of `c`, or -1. */
  function IndexOf(s: string, c: char): (r: int)
    ensures -1 <= r < |s|
    ensures r == -1 <==> c !in s
    ensures r >= 0 ==> s[r] == c && c !in s[..r]
  {
    if |s| == 0 then -1
    else if s[0] == c then 0
    else
      var k := IndexOf(s[1..], c);
      if k == -1 then -1
      else
        assert s[..k + 1] == [s[0]] + s[1..][..k];
        k + 1
  }

  /** `s.lastIndexOf(c)`: the last position of `c`, or -1. */
  function LastIndexOf(s: string, c: char): (r: int)
    ensures -1 <= r < |s|
    ensures r == -1 <==> c !in s
    ensures r >= 0 ==> s[r] == c && c !in s[r + 1..]
  {
    if |s| == 0 then -1
    else if s[|s| - 1] == c then |s| - 1
    else
      var init := s[..|s| - 1];
      var k := LastIndexOf(init, c);
      assert s == init + [s[|s| - 1]];
      assert k >= 0 ==> s[k + 1..] == init[k + 1..] + [s[|s| - 1]];
      k
  }

  /** `s.substring(begin, end)`, which throws unless `0 <= begin <= end <= s.length()`. */
  function Substring(s: string, begin: int, end: int): (r: Result<string, TextError>)
    ensures r.Success? <==> 0 <= begin <= end <= |s|
    ensures r.Success? ==> |r.value| == end - begin && r.value == s[begin..end]
    ensures r.Failure? ==> r.error == StringIndexOutOfBounds(begin, end, |s|)
  {
    if 0 <= begin <= end <= |s| then Success(s[begin..end])
    else Failure(StringIndexOutOfBounds(begin, end, |s|))
  }

  /** `t` occurs in `s` starting at position `i`. */
  predicate OccursAt(s: string, t: string, i: int)
  {
    0 <= i && i + |t| <= |s| && s[i..i + |t|] == t
  }

  /** `s.contains(t)`. */
  predicate Contains(s: string, t: string)
  {
    exists i :: 0 <= i <= |s| - |t| && OccursAt(s, t, i)
  }

  /** `s.replace(target, "")` for a non-empty target: every non-overlapping
      occurrence of `target`, found scanning left to right, is dropped. */
  function Remove(s: string, target: string): (r: string)
    requires |target| > 0
    ensures |r| <= |s|
    decreases |s|
  {
    if |s| < |target| then s
    else if s[..|target|] == target then Remove(s[|target|..], target)
    else [s[0]] + Remove(s[1..], target)
  }

  /** Removal changes the text exactly when the target occurs in it. */
  lemma {:induction false} RemoveUnchangedIff(s: string, target: string)
    requires |target| > 0
    ensures Remove(s, target) == s <==> !Contains(s, target)
    decreases |s|
  {
    if |s| < |target| {
    } else if s[..|target|] == target {
      assert OccursAt(s, target, 0);
      assert |Remove(s, target)| < |s|;
    } else {
      RemoveUnchangedIff(s[1..], target);
      ContainsPastHead(s, target);
      var rest := Remove(s[1..], target);
      assert Remove(s, target) == [s[0]] + rest;
      assert ([s[0]] + rest)[1..] == rest;
      assert [s[0]] + s[1..] == s;
    }
  }

  /** Without an occurrence at the head, `s` contains `t` exactly when its tail does. */
  lemma ContainsPastHead(s: string, t: string)
    requires |s| > 0 && |t| > 0 && !OccursAt(s, t, 0)
    ensures Contains(s, t) <==> Contains(s[1..], t)
  {
    if Contains(s, t) {
      var i :| 0 <= i <= |s| - |t| && OccursAt(s, t, i);
      assert s[1..][i - 1..i - 1 + |t|] == s[i..i + |t|];
      assert OccursAt(s[1..], t, i - 1);
    }
    if Contains(s[1..], t) {
      var i :| 0 <= i <= |s[1..]| - |t| && OccursAt(s[1..], t, i);
      assert s[1..][i..i + |t|] == s[i + 1..i + 1 + |t|];
      assert OccursAt(s, t, i + 1);
    }
  }

  /** A leading occurrence is dropped: `(t + u).replace(t, "") == u.replace(t, "")`. */
  lemma RemoveLeading(target: string, u: string)
    requires |target| > 0
    ensures Remove(target + u, target) == Remove(u, target)
  {
  }

  /** `StringUtils.hasLength(s)`: non-null and non-empty. */
  predicate HasLength(s: Option<string>)
  {
    s.Some? && |s.value| > 0
  }

  /**
   * `Character.isWhitespace(c)`: the space, line and paragraph separators
   * other than the three no-break spaces (U+00A0, U+2007, U+202F), and the
   * controls U+0009 to U+000D and U+001C to U+001F.
   */
  predicate IsWhitespace(c: char)
  {
    || ('\t' <= c <= '\r') || ('\U{001C}' <= c <= ' ')
    || c == '\U{1680}' || ('\U{2000}' <= c <= '\U{2006}') || ('\U{2008}' <= c <= '\U{200A}')
    || c == '\U{2028}' || c == '\U{2029}' || c == '\U{205F}' || c == '\U{3000}'
  }

  /** `StringUtils.hasText(s)` on a non-null string: some character is not whitespace. */
  predicate HasText(s: string)
  {
    exists i :: 0 <= i < |s| && !IsWhitespace(s[i])
  }

  /** `String.valueOf(s)`, which string concatenation applies: null prints as "null". */
  function ValueOf(s: Option<string>): (r: string)
    ensures s.Some? ==> r == s.value
    ensures s.None? ==> r == "null"
  {
    match s
    case Some(v) => v
    case None => "null"
  }

  /**
   * `s.equalsIgnoreCase("asc")`. Java compares character by character and
   * accepts a pair when the characters are equal, or their upper-case forms
   * are, or the lower-case forms of those are. Against 'a' and 'c' only the
   * two ASCII cases qualify; against 's' the long s U+017F qualifies too,
   * since its upper-case form is 'S'.
   */
  predicate IsAscIgnoringCase(s: string)
  {
    && |s| == 3
    && (s[0] == 'a' || s[0] == 'A')
    && (s[1] == 's' || s[1] == 'S' || s[1] == 'ſ')
    && (s[2] == 'c' || s[2] == 'C')
  }
}
