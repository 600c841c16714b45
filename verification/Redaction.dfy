/** Redaction of token-like text (`sanitize_detail` in `src/persistence/audit_repository.py`). */
module Redaction {
  import opened Results
  import opened Text

  const TAG := "[REDACTED]"
  const ACCESS := "access_token"
  const REFRESH := "refresh_token"
  const BEARER := "bearer"

  /* ---------- The pattern: access_token | refresh_token | Bearer\s+\S+, ignoring case ---------- */

  /** A character matches a lower-case letter of the pattern, under Unicode case folding. */
  predicate Folds(c: char, p: char) {
    || c == p
    || ('a' <= p <= 'z' && c == 'A' + (p - 'a'))
    || (p == 's' && c as int == 0x17F)
    || (p == 'k' && c as int == 0x212A)
  }

  predicate StartsWith(s: string, word: string) {
    |word| <= |s| && forall i | 0 <= i < |word| :: Folds(s[i], word[i])
  }

  predicate AllSpace(s: string) {
    forall c | c in s :: IsSpace(c)
  }

  predicate NoSpace(s: string) {
    forall c | c in s :: !IsSpace(c)
  }

  /** The whole text is one word of the pattern's language. */
  ghost predicate InPattern(t: string) {
    || (|t| == |ACCESS| && StartsWith(t, ACCESS))
    || (|t| == |REFRESH| && StartsWith(t, REFRESH))
    || (StartsWith(t, BEARER) && exists b :: |BEARER| < b < |t| && AllSpace(t[|BEARER|..b]) && NoSpace(t[b..]))
  }

  /** No part of the text matches the pattern. */
  ghost predicate Clean(s: string) {
    forall i, j | 0 <= i <= j <= |s| :: !InPattern(s[i..j])
  }

  /* ---------- Scanning ---------- */

  /** Length of the leading whitespace (or, with `space` false, of the leading non-whitespace). */
  function Run(s: string, space: bool): (n: nat)
    ensures n <= |s|
    ensures forall i | 0 <= i < n :: IsSpace(s[i]) == space
    ensures n < |s| ==> IsSpace(s[n]) != space
  {
    if s == "" || IsSpace(s[0]) != space then 0 else 1 + Run(s[1..], space)
  }

  /** Length of the match at the start of the text, or 0 when there is none. */
  function MatchLength(s: string): (n: nat)
    ensures n <= |s|
  {
    if StartsWith(s, ACCESS) then |ACCESS|
    else if StartsWith(s, REFRESH) then |REFRESH|
    else if StartsWith(s, BEARER) then
      var spaces := Run(s[|BEARER|..], true);
      var word := Run(s[|BEARER| + spaces..], false);
      if spaces > 0 && word > 0 then |BEARER| + spaces + word else 0
    else 0
  }

  /** `re.sub`: replace the leftmost matches, none overlapping another. */
  function Redact(s: string): string
    decreases |s|
  {
    if s == "" then ""
    else if MatchLength(s) > 0 then TAG + Redact(s[MatchLength(s)..])
    else [s[0]] + Redact(s[1..])
  }

  /** A Python slice `s[:n]`, whose bound may be negative. */
  function Slice(s: string, n: int): string {
    if n >= |s| then s else if n >= 0 then s[..n] else if |s| + n >= 0 then s[..|s| + n] else ""
  }

  function SanitizeDetail(detail: Option<string>, maxLength: int): Option<string> {
    if detail.None? || detail.value == "" then None
    else Some(Slice(Redact(detail.value), maxLength))
  }

  /* ---------- Scanning finds the pattern ---------- */

  /** The only way to be a bearer match: the spaces end where the scan says. */
  lemma BearerSplit(s: string, n: nat, b: nat)
    requires |BEARER| < b < n <= |s|
    requires AllSpace(s[..n][|BEARER|..b]) && NoSpace(s[..n][b..])
    ensures b == |BEARER| + Run(s[|BEARER|..], true)
    ensures n <= b + Run(s[b..], false)
  {
    assert forall i | |BEARER| <= i < b :: s[i] == s[..n][|BEARER|..b][i - |BEARER|];
    assert forall i | b <= i < n :: s[i] == s[..n][b..][i - b];
    assert forall i | 0 <= i < |s| - |BEARER| :: s[|BEARER|..][i] == s[|BEARER| + i];
    assert forall i | 0 <= i < |s| - b :: s[b..][i] == s[b + i];
    assert !IsSpace(s[b]) && IsSpace(s[b - 1]);
  }

  lemma DifferentFirstLetters(s: string)
    ensures !(StartsWith(s, ACCESS) && StartsWith(s, REFRESH))
    ensures !(StartsWith(s, ACCESS) && StartsWith(s, BEARER))
    ensures !(StartsWith(s, REFRESH) && StartsWith(s, BEARER))
  {
    assert ACCESS[0] == 'a' && REFRESH[0] == 'r' && BEARER[0] == 'b';
  }

  lemma MatchIsInPattern(s: string)
    requires MatchLength(s) > 0
    ensures InPattern(s[..MatchLength(s)])
  {
    var m := MatchLength(s);
    if !StartsWith(s, ACCESS) && !StartsWith(s, REFRESH) {
      var b := |BEARER| + Run(s[|BEARER|..], true);
      var t := s[..m];
      assert forall i | |BEARER| <= i < b :: t[i] == s[|BEARER|..][i - |BEARER|];
      assert forall i | b <= i < m :: t[i] == s[b..][i - b];
      assert StartsWith(t, BEARER) && AllSpace(t[|BEARER|..b]) && NoSpace(t[b..]);
    }
  }

  lemma MatchIsLongest(s: string, n: nat)
    requires MatchLength(s) < n <= |s|
    ensures !InPattern(s[..n])
  {
    var t := s[..n];
    DifferentFirstLetters(s);
    assert forall word | StartsWith(t, word) :: StartsWith(s, word);
    forall b | |BEARER| < b < n && StartsWith(t, BEARER)
      ensures !(AllSpace(t[|BEARER|..b]) && NoSpace(t[b..]))
    {
      if AllSpace(t[|BEARER|..b]) && NoSpace(t[b..]) {
        BearerSplit(s, n, b);
      }
    }
  }

  /** A text is clean exactly if the scan finds no match starting anywhere in it. */
  lemma CleanMeansNoMatch(s: string)
    ensures Clean(s) <==> forall i | 0 <= i <= |s| :: MatchLength(s[i..]) == 0
  {
    hide InPattern, MatchLength;
    forall i | 0 <= i <= |s| ensures MatchLength(s[i..]) == 0 <==> NoneFrom(s, i) {
      NoMatchHere(s, i);
    }
    if forall i | 0 <= i <= |s| :: NoneFrom(s, i) {
      forall i, j | 0 <= i <= j <= |s| ensures !InPattern(s[i..j]) {
        assert NoneFrom(s, i);
      }
    }
    assert Clean(s) ==> forall i | 0 <= i <= |s| :: NoneFrom(s, i);
  }

  ghost predicate NoneFrom(s: string, i: nat)
    requires i <= |s|
  {
    forall j | i <= j <= |s| :: !InPattern(s[i..j])
  }

  lemma NoMatchHere(s: string, i: nat)
    requires i <= |s|
    ensures MatchLength(s[i..]) == 0 <==> NoneFrom(s, i)
  {
    var u := s[i..];
    assert forall j | i <= j <= |s| :: s[i..j] == u[..j - i];
    assert !InPattern(s[i..i]);
    hide InPattern, MatchLength;
    if MatchLength(u) > 0 {
      MatchIsInPattern(u);
      assert InPattern(s[i..i + MatchLength(u)]);
    } else {
      forall j | i < j <= |s| ensures !InPattern(s[i..j]) {
        MatchIsLongest(u, j - i);
      }
    }
  }

  /* ---------- What redaction does to a text ---------- */

  lemma {:induction false} KeptUntilMatch(s: string, p: nat)
    requires p <= |s|
    requires forall i | 0 <= i < p :: MatchLength(s[i..]) == 0
    ensures Redact(s) == s[..p] + Redact(s[p..])
    decreases p
  {
    hide MatchLength;
    assert s[0..] == s;
    if p == 0 {
      assert s[..0] + Redact(s) == Redact(s);
    } else {
      var rest := s[1..];
      assert forall i | 0 <= i < p :: s[i + 1..] == rest[i..];
      KeptUntilMatch(rest, p - 1);
      assert Redact(s) == [s[0]] + Redact(rest);
      assert s[..p] == [s[0]] + rest[..p - 1] && rest[p - 1..] == s[p..];
      Regroup([s[0]], rest[..p - 1], Redact(s[p..]));
    }
  }

  /** Text before the first match is kept, the match is replaced, and the rest is redacted. */
  lemma FirstMatchIsReplaced(s: string, p: nat)
    requires p < |s| && MatchLength(s[p..]) > 0
    requires forall i | 0 <= i < p :: MatchLength(s[i..]) == 0
    ensures Redact(s) == s[..p] + TAG + Redact(s[p + MatchLength(s[p..])..])
  {
    hide MatchLength, Redact;
    var m := MatchLength(s[p..]);
    KeptUntilMatch(s, p);
    MatchIsReplaced(s[p..]);
    DropTwice(s, p, m);
    Regroup(s[..p], TAG, Redact(s[p + m..]));
  }

  lemma DropTwice(s: string, p: nat, m: nat)
    requires p + m <= |s|
    ensures s[p..][m..] == s[p + m..]
  {
  }

  lemma MatchIsReplaced(s: string)
    requires MatchLength(s) > 0
    ensures Redact(s) == TAG + Redact(s[MatchLength(s)..])
  {
    hide MatchLength;
  }

  /** A text without matches is returned unchanged. */
  lemma {:induction false} CleanTextIsKept(s: string)
    requires Clean(s)
    ensures Redact(s) == s
  {
    CleanMeansNoMatch(s);
    NothingToReplace(s);
  }

  lemma {:induction false} NothingToReplace(s: string)
    requires forall i | 0 <= i <= |s| :: MatchLength(s[i..]) == 0
    ensures Redact(s) == s
  {
    hide MatchLength;
    if s == "" {
    } else {
      assert s[0..] == s;
      assert forall i | 0 <= i < |s| :: s[i + 1..] == s[1..][i..];
      NothingToReplace(s[1..]);
      assert s == [s[0]] + s[1..];
    }
  }

  /* ---------- The result is clean ---------- */

  /** The position of the first match, or the length of the text. */
  function FirstMatch(s: string): (p: nat)
    ensures p <= |s|
    ensures p < |s| ==> MatchLength(s[p..]) > 0
    ensures forall i | 0 <= i < p :: MatchLength(s[i..]) == 0
  {
    if s == "" || MatchLength(s) > 0 then
      assert s == s[0..];
      0
    else
      assert forall i | 0 < i <= |s| :: s[i..] == s[1..][i - 1..];
      assert s == s[0..];
      1 + FirstMatch(s[1..])
  }

  /** A redacted text agrees with the original up to the first match, where a tag begins. */
  lemma RedactedByFirstMatch(s: string)
    ensures var p := FirstMatch(s);
            if p == |s| then Redact(s) == s
            else exists rest :: Redact(s) == s[..p] + TAG + rest
  {
    hide MatchLength;
    var p := FirstMatch(s);
    if p == |s| {
      assert MatchLength(s[|s|..]) == 0 by { assert s[|s|..] == ""; }
      NothingToReplace(s);
    } else {
      FirstMatchIsReplaced(s, p);
    }
  }

  /** No match starts inside a tag. */
  lemma TagIsClean(i: nat, rest: string)
    requires i < |TAG|
    ensures MatchLength(TAG[i..] + rest) == 0
  {
    hide Run;
    var u := TAG[i..] + rest;
    assert u[0] == TAG[i] && (i < 8 ==> u[2] == TAG[i + 2]);
    assert !StartsWith(u, BEARER) by {
      assert BEARER[0] == 'b' && !Folds(u[0], 'b');
    }
    assert !StartsWith(u, ACCESS) by {
      assert ACCESS[0] == 'a' && ACCESS[2] == 'c' && !(Folds(u[0], 'a') && Folds(u[2], 'c'));
    }
    assert !StartsWith(u, REFRESH) by {
      assert REFRESH[0] == 'r' && REFRESH[2] == 'f' && !(Folds(u[0], 'r') && Folds(u[2], 'f'));
    }
  }

  /** The first character of a match is not whitespace. */
  lemma MatchStartsWithLetter(s: string)
    requires MatchLength(s) > 0
    ensures !IsSpace(s[0])
  {
    assert ACCESS[0] == 'a' && REFRESH[0] == 'r' && BEARER[0] == 'b';
  }

  /** A tag completes no word of the pattern that the text before it had begun. */
  lemma TagCompletesNoWord(kept: string, rest: string, word: string)
    requires word == ACCESS || word == REFRESH || word == BEARER
    requires StartsWith(kept + TAG + rest, word)
    ensures StartsWith(kept, word)
  {
    var t := kept + TAG + rest;
    assert t[|kept|] == '[';
    assert forall i | 0 <= i < |word| :: !Folds('[', word[i]);
    assert |word| <= |kept|;
    assert forall i | 0 <= i < |word| :: t[i] == kept[i];
  }

  /** Replacing the first match creates no match that starts before it. */
  lemma TagCreatesNoMatch(s: string, p: nat, rest: string)
    requires 0 < p < |s| && MatchLength(s) == 0 && MatchLength(s[p..]) > 0
    ensures MatchLength(s[..p] + TAG + rest) == 0
  {
    var kept, t := s[..p], s[..p] + TAG + rest;
    assert forall word | StartsWith(kept, word) :: StartsWith(s, word);
    forall word | word == ACCESS || word == REFRESH || word == BEARER
      ensures StartsWith(t, word) ==> StartsWith(s, word) && |word| <= p
    {
      if StartsWith(t, word) {
        TagCompletesNoWord(kept, rest, word);
      }
    }
    if StartsWith(t, BEARER) {
      BearerBeforeTag(s, p, rest);
    }
  }

  lemma SameSpaces(mid: string, a: string, b: string)
    requires a != "" && b != "" && !IsSpace(a[0]) && !IsSpace(b[0])
    ensures Run(mid + a, true) == Run(mid + b, true) <= |mid|
  {
    var (m, n) := (Run(mid + a, true), Run(mid + b, true));
    assert (mid + a)[|mid|] == a[0] && (mid + b)[|mid|] == b[0];
    assert forall k | 0 <= k < |mid| :: (mid + a)[k] == mid[k] == (mid + b)[k];
  }

  /** After `bearer`, a text that goes on past the spaces matches exactly if there are some. */
  lemma BearerNeedsSpace(s: string)
    requires |BEARER| <= |s| && StartsWith(s, BEARER)
    ensures Run(s[|BEARER|..], true) == 0 ==> MatchLength(s) == 0
    ensures 0 < Run(s[|BEARER|..], true) < |s| - |BEARER| ==> MatchLength(s) > 0
  {
    DifferentFirstLetters(s);
    hide StartsWith, IsSpace;
    var n := Run(s[|BEARER|..], true);
    if n < |s| - |BEARER| {
      assert s[|BEARER| + n..][0] == s[|BEARER|..][n];
    }
  }

  lemma BearerBeforeTag(s: string, p: nat, rest: string)
    requires |BEARER| <= p < |s| && StartsWith(s, BEARER) && StartsWith(s[..p] + TAG + rest, BEARER)
    requires MatchLength(s) == 0 && MatchLength(s[p..]) > 0
    ensures MatchLength(s[..p] + TAG + rest) == 0
  {
    hide StartsWith, IsSpace, MatchLength, Run;
    MatchStartsWithLetter(s[p..]);
    TagStartsWithBracket(rest);
    BearerNeedsSpace(s);
    BearerNeedsSpace(s[..p] + TAG + rest);
    Regroup(s[..p], TAG, rest);
    Beyond(s, |BEARER|, p, s[p..]);
    Beyond(s, |BEARER|, p, TAG + rest);
    assert s[..p] + s[p..] == s;
    SameSpaces(s[|BEARER|..p], s[p..], TAG + rest);
  }

  lemma TagStartsWithBracket(rest: string)
    ensures TAG + rest != "" && !IsSpace((TAG + rest)[0])
  {
  }

  lemma Beyond(s: string, k: nat, p: nat, x: string)
    requires k <= p <= |s|
    ensures (s[..p] + x)[k..] == s[k..p] + x
  {
  }

  /** Redacting leaves nowhere for a match to start. */
  lemma {:induction false} NoMatchStarts(s: string, i: nat)
    requires i <= |Redact(s)|
    ensures MatchLength(Redact(s)[i..]) == 0
    decreases |s|, i
  {
    hide MatchLength;
    if s == "" {
      assert Redact(s)[i..] == s;
      NoMatchInNothing();
    } else if MatchLength(s) > 0 {
      var rest := s[MatchLength(s)..];
      assert Redact(s) == TAG + Redact(rest);
      if i < |TAG| {
        TagIsClean(i, Redact(rest));
        DropFromSum(TAG, Redact(rest), i);
      } else {
        NoMatchStarts(rest, i - |TAG|);
        DropFromSum(TAG, Redact(rest), i);
      }
    } else if i > 0 {
      NoMatchStarts(s[1..], i - 1);
      DropFromSum([s[0]], Redact(s[1..]), i);
    } else {
      assert Redact(s)[0..] == Redact(s);
      NoMatchAtFront(s);
    }
  }

  lemma NoMatchInNothing()
    ensures MatchLength("") == 0
  {
  }

  lemma DropFromSum(a: string, b: string, i: nat)
    requires i <= |a| + |b|
    ensures (a + b)[i..] == if i < |a| then a[i..] + b else b[i - |a|..]
  {
  }

  lemma NoMatchAtFront(s: string)
    requires s != "" && MatchLength(s) == 0
    ensures MatchLength(Redact(s)) == 0
  {
    hide MatchLength, Redact;
    assert s[0..] == s;
    RedactedByFirstMatch(s);
    var p := FirstMatch(s);
    if p < |s| {
      var rest :| Redact(s) == s[..p] + TAG + rest;
      TagCreatesNoMatch(s, p, rest);
    }
  }

  /** Cutting a text short creates no match. */
  lemma PrefixOfCleanIsClean(s: string, n: nat)
    requires Clean(s) && n <= |s|
    ensures Clean(s[..n])
  {
    hide InPattern;
    assert forall i, j | 0 <= i <= j <= n :: s[..n][i..j] == s[i..j];
  }

  lemma RedactIsClean(s: string)
    ensures Clean(Redact(s))
  {
    hide InPattern, Redact, MatchLength;
    forall i | 0 <= i <= |Redact(s)| ensures MatchLength(Redact(s)[i..]) == 0 {
      NoMatchStarts(s, i);
    }
    CleanMeansNoMatch(Redact(s));
  }

  lemma SliceIsPrefix(s: string, n: int)
    ensures |Slice(s, n)| <= |s| && Slice(s, n) == s[..|Slice(s, n)|]
    ensures n >= 0 ==> |Slice(s, n)| <= n
  {
  }

  /** A sanitized detail contains no match of the pattern and is at most `maxLength` long. */
  lemma SanitizedIsClean(detail: string, maxLength: int)
    requires detail != ""
    ensures SanitizeDetail(Some(detail), maxLength).Some?
    ensures Clean(SanitizeDetail(Some(detail), maxLength).value)
    ensures maxLength >= 0 ==> |SanitizeDetail(Some(detail), maxLength).value| <= maxLength
  {
    var r := Redact(detail);
    RedactIsClean(detail);
    SliceIsPrefix(r, maxLength);
    PrefixOfCleanIsClean(r, |Slice(r, maxLength)|);
  }

  /**
   Sanitizing a second time changes nothing exactly if the length limit is positive: a limit of 0
   turns the empty text into nothing, and a negative limit cuts off more each time.
   */
  lemma SanitizingIsStable(detail: string, maxLength: int)
    requires detail != ""
    ensures var once := SanitizeDetail(Some(detail), maxLength);
            SanitizeDetail(once, maxLength) == once <==> maxLength > 0
  {
    hide Clean;
    var once := SanitizeDetail(Some(detail), maxLength).value;
    SanitizedIsClean(detail, maxLength);
    CleanTextIsKept(once);
    SliceIsPrefix(Redact(detail), maxLength);
    assert Redact(detail) != "";
  }

  /* ---------- What survives ---------- */

  /**
   Of `access_token` or `refresh_token` (in any case) and what follows, only the word is replaced:
   the rest is redacted on its own, and survives as it is exactly if it contains no match itself.
   */
  lemma OnlyTheWordIsReplaced(name: string, word: string, value: string)
    requires name == ACCESS || name == REFRESH
    requires |word| == |name| && StartsWith(word, name)
    ensures Redact(word + value) == TAG + Redact(value)
    ensures Redact(word + value) == TAG + value <==> Clean(value)
  {
    hide Redact, Run, Clean, Folds;
    assert StartsWith(word + value, name);
    DifferentFirstLetters(word + value);
    assert MatchLength(word + value) == |name|;
    MatchIsReplaced(word + value);
    assert (word + value)[|name|..] == value;
    RedactIsClean(value);
    if Clean(value) {
      CleanTextIsKept(value);
    }
    if TAG + Redact(value) == TAG + value {
      assert Redact(value) == (TAG + value)[|TAG|..] == value;
    }
  }

  /* ---------- Character by character ---------- */

  /** The word with any of its letters in upper case, or the long s or the Kelvin sign for an s or a k. */
  predicate InAnyCase(t: string, word: string) {
    && |t| == |word|
    && forall i | 0 <= i < |t| ::
         || t[i] == word[i]
         || ('a' <= word[i] <= 'z' && t[i] as int + 32 == word[i] as int)
         || (word[i] == 's' && t[i] as int == 0x17F)
         || (word[i] == 'k' && t[i] as int == 0x212A)
  }

  /** Nothing else starts a match. */
  lemma OnlyTheWordsMatch(s: string)
    requires MatchLength(s) > 0
    ensures || (|s| >= 12 && InAnyCase(s[..12], "access_token"))
            || (|s| >= 13 && InAnyCase(s[..13], "refresh_token"))
            || (|s| > 7 && InAnyCase(s[..6], "bearer") && IsSpace(s[6]))
  {
    hide IsSpace;
    if !StartsWith(s, ACCESS) && !StartsWith(s, REFRESH) {
      assert s[|BEARER|..][0] == s[6];
    }
  }

  lemma AnyCaseFolds(t: string, word: string, rest: string)
    requires InAnyCase(t, word)
    ensures StartsWith(t + rest, word)
  {
  }

  /** "access_token" and "refresh_token" are replaced in any case. */
  lemma TokenWordsAreReplaced(t: string, rest: string)
    requires InAnyCase(t, "access_token") || InAnyCase(t, "refresh_token")
    ensures Redact(t + rest) == "[REDACTED]" + Redact(rest)
  {
    hide Redact, Run, Folds, InAnyCase, StartsWith;
    var name := if InAnyCase(t, "access_token") then "access_token" else "refresh_token";
    SameLength(t, name);
    AnyCaseFolds(t, name, "");
    assert t + "" == t;
    OnlyTheWordIsReplaced(name, t, rest);
  }

  lemma SameLength(t: string, word: string)
    requires InAnyCase(t, word)
    ensures |t| == |word|
  {
  }

  /**
   "bearer" in any case is replaced together with the spaces and the whole value that follow it.
   */
  lemma BearerValuesAreReplaced(t: string, spaces: string, value: string, rest: string)
    requires InAnyCase(t, "bearer")
    requires spaces != "" && forall c | c in spaces :: IsSpace(c)
    requires value != "" && forall c | c in value :: !IsSpace(c)
    requires rest == "" || IsSpace(rest[0])
    ensures Redact(t + (spaces + (value + rest))) == "[REDACTED]" + Redact(rest)
  {
    hide Redact, Folds, IsSpace, Run;
    var after := spaces + (value + rest);
    var s := t + after;
    AnyCaseFolds(t, "bearer", after);
    DifferentFirstLetters(s);
    assert s[|BEARER|..] == after;
    RunEnds(spaces, value + rest, true);
    assert s[|BEARER| + |spaces|..] == value + rest;
    RunEnds(value, rest, false);
    hide StartsWith;
    assert MatchLength(s) == |BEARER| + |spaces| + |value|;
    MatchIsReplaced(s);
    assert s == (t + (spaces + value)) + rest;
    assert s[|BEARER| + |spaces| + |value|..] == rest;
  }

  lemma RunEnds(a: string, b: string, space: bool)
    requires forall c | c in a :: IsSpace(c) == space
    requires b == "" || IsSpace(b[0]) != space
    ensures Run(a + b, space) == |a|
  {
    hide IsSpace;
    var n := Run(a + b, space);
    assert forall i | 0 <= i < |a| :: (a + b)[i] == a[i] && a[i] in a;
    if b != "" {
      assert (a + b)[|a|] == b[0];
    }
    assert n >= |a|;
  }

  /**
   A detail is redacted and cut to the limit; a negative limit cuts off as many characters at the end,
   as Python slices do. No detail and the empty one give none.
   */
  lemma SanitizedIsCutAtTheLimit(detail: string, maxLength: int)
    ensures SanitizeDetail(None, maxLength) == None && SanitizeDetail(Some(""), maxLength) == None
    ensures detail != "" && maxLength >= 0 ==>
              SanitizeDetail(Some(detail), maxLength) ==
              Some(Redact(detail)[..if maxLength < |Redact(detail)| then maxLength else |Redact(detail)|])
    ensures detail != "" && maxLength < 0 ==>
              SanitizeDetail(Some(detail), maxLength) ==
              Some(Redact(detail)[..if |Redact(detail)| + maxLength > 0 then |Redact(detail)| + maxLength else 0])
  {
    hide Redact;
    var r := Redact(detail);
    assert r[..|r|] == r && r[..0] == "";
  }
}
