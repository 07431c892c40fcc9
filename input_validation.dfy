/** `utils/inputValidation.ts`: the checks a destination typed by a user must
    pass before it reaches the itinerary prompt, and the clean-up applied to it.
    Regular expressions are modelled by what they match: an injection pattern
    is a word, a run of `\s` characters and one of a few alternatives, compared
    case-insensitively on ASCII letters. */
module InputValidation {
  import opened Wrappers
  import opened Text

  const MaxLength: nat := 100

  const MsgEmpty: string := "여행지를 입력해주세요."
  const MsgTooLong: string := "여행지는 100자 이하로 입력해주세요."
  const MsgInjection: string := "부적절한 입력이 감지되었습니다. 여행지 이름만 입력해주세요."
  const MsgSpecial: string := "부적절한 입력이 감지되었습니다."

  /** `FORBIDDEN_KEYWORDS`, in order. */
  const ForbiddenKeywords: seq<string> := [
    "api key", "api_key", "apikey", "api-key",
    "password", "secret", "token",
    "ignore", "forget", "무시", "잊어",
    "system", "admin", "root",
    "prompt", "instruction", "지시",
    "tell me", "알려줘", "말해줘",
    "show me", "보여줘", "공개"
  ]

  // ---------------------------------------------------------------------------
  // Injection patterns
  // ---------------------------------------------------------------------------

  /** A pattern `word\s+(alt|...)` (`minSpaces == 1`) or `word\s*(alt|...)`
      (`minSpaces == 0`) with the `i` flag. */
  datatype Pattern = Pattern(word: string, minSpaces: nat, alts: seq<string>)

  /** `INJECTION_PATTERNS`, in order. */
  const InjectionPatterns: seq<Pattern> := [
    Pattern("ignore", 1, ["previous", "all", "above"]),
    Pattern("forget", 1, ["previous", "all", "above"]),
    Pattern("무시", 0, ["해", "하세요", "하라"]),
    Pattern("잊어", 0, ["버려", "버리세요"]),
    Pattern("system", 0, [":"]),
    Pattern("user", 0, [":"]),
    Pattern("assistant", 0, [":"])
  ]

  /** Every alternative starts with a character outside `\s`; this is what
      makes the greedy space run below exact. */
  predicate WellFormed(p: Pattern) {
    forall a | a in p.alts :: a != [] && !IsSpace(a[0])
  }

  /** Two characters are equal under the `i` flag (ASCII letters only). */
  predicate SameLetter(c: char, d: char) {
    UpperChar(c) == UpperChar(d)
  }

  /** `t` starts with `w`, letters compared case-insensitively. */
  predicate PrefixIgnoringCase(w: string, t: string) {
    |w| <= |t| && forall j | 0 <= j < |w| :: SameLetter(t[j], w[j])
  }

  /** The pattern matches at the start of `s`: the word, then the whole run of
      whitespace after it (at least `minSpaces` long), then an alternative. */
  predicate MatchHere(p: Pattern, s: string) {
    PrefixIgnoringCase(p.word, s) &&
    var rest := s[|p.word|..];
    var k := TrimOffset(rest);
    k >= p.minSpaces && exists a | a in p.alts :: PrefixIgnoringCase(a, rest[k..])
  }

  /** `pattern.test(input)`: a match starts somewhere in `s`. */
  predicate Tests(p: Pattern, s: string)
    decreases |s|
  {
    MatchHere(p, s) || (s != [] && Tests(p, s[1..]))
  }

  /** The regular-expression reading of a match: the word, exactly `k`
      whitespace characters, then alternative `a`. */
  predicate MatchWith(p: Pattern, s: string, k: nat, a: string) {
    PrefixIgnoringCase(p.word, s) && |p.word| + k <= |s| && k >= p.minSpaces &&
    AllSpace(s[|p.word|..|p.word| + k]) && a in p.alts && PrefixIgnoringCase(a, s[|p.word| + k..])
  }

  /** Taking the whole whitespace run loses no match of the backtracking
      matcher: `\s+` or `\s*` followed by an alternative matches exactly when
      the greedy run does. */
  lemma {:induction false} MatchHereExact(p: Pattern, s: string)
    requires WellFormed(p)
    ensures MatchHere(p, s) <==> exists k: nat, a: string :: MatchWith(p, s, k, a)
  {
    if MatchHere(p, s) {
      var k, a := GreedyIsMatch(p, s);
    }
    if exists k: nat, a: string :: MatchWith(p, s, k, a) {
      var k: nat, a: string :| MatchWith(p, s, k, a);
      MatchIsGreedy(p, s, k, a);
    }
  }

  lemma {:induction false} GreedyIsMatch(p: Pattern, s: string) returns (k: nat, a: string)
    requires MatchHere(p, s)
    ensures MatchWith(p, s, k, a)
  {
    var rest := s[|p.word|..];
    k := TrimOffset(rest);
    a :| a in p.alts && PrefixIgnoringCase(a, rest[k..]);
    SpacesBeforeTrim(rest);
    assert s[|p.word|..|p.word| + k] == rest[..k];
    assert s[|p.word| + k..] == rest[k..];
  }

  /** What `trim` removes in front is whitespace. */
  lemma {:induction false} SpacesBeforeTrim(t: string)
    ensures AllSpace(t[..TrimOffset(t)])
  {
    var r := TrimStart(t);
    assert |t| - |r| == TrimOffset(t);
  }

  lemma {:induction false} MatchIsGreedy(p: Pattern, s: string, k: nat, a: string)
    requires WellFormed(p) && MatchWith(p, s, k, a)
    ensures MatchHere(p, s)
  {
    var rest := s[|p.word|..];
    assert rest[..k] == s[|p.word|..|p.word| + k];
    assert rest[k..] == s[|p.word| + k..];
    assert a != [] && !IsSpace(a[0]);
    SameLetterSpace(rest[k], a[0]);
    LeadingSpaces(rest, k);
  }

  /** A character equal to a non-whitespace one under the `i` flag is not whitespace. */
  lemma {:induction false} SameLetterSpace(c: char, d: char)
    requires SameLetter(c, d) && !IsSpace(d)
    ensures !IsSpace(c)
  {
  }

  /** Equality under the `i` flag is equality after lower-casing. */
  lemma {:induction false} SameLetterLower(c: char, d: char)
    requires SameLetter(c, d)
    ensures LowerChar(c) == LowerChar(d)
  {
  }

  /** A whitespace prefix of length `k` ended by a non-whitespace character
      (or by the end) is exactly what `trim` removes in front. */
  lemma {:induction false} LeadingSpaces(t: string, k: nat)
    requires k <= |t| && AllSpace(t[..k]) && (k == |t| || !IsSpace(t[k]))
    ensures TrimOffset(t) == k
    decreases k
  {
    if k > 0 {
      assert IsSpace(t[..k][0]);
      assert t[1..][..k - 1] == t[..k][1..];
      LeadingSpaces(t[1..], k - 1);
      assert TrimStart(t) == TrimStart(t[1..]);
    }
  }

  /** A case-insensitive occurrence of `w` is an occurrence of the lower-cased
      word in the lower-cased text. */
  lemma {:induction false} PrefixLower(w: string, t: string)
    requires PrefixIgnoringCase(w, t)
    ensures ToLower(w) <= ToLower(t)
  {
    forall j | 0 <= j < |w|
      ensures ToLower(w)[j] == ToLower(t)[j]
    {
      SameLetterLower(t[j], w[j]);
    }
  }

  /** If a pattern fires, its word occurs in the lower-cased input. */
  lemma {:induction false} TestsContainsWord(p: Pattern, s: string)
    requires Tests(p, s)
    ensures Contains(ToLower(s), ToLower(p.word))
    decreases |s|
  {
    if MatchHere(p, s) {
      PrefixLower(p.word, s);
    } else {
      TestsContainsWord(p, s[1..]);
      assert ToLower(s)[1..] == ToLower(s[1..]);
    }
  }

  // ---------------------------------------------------------------------------
  // validateDestination
  // ---------------------------------------------------------------------------

  /** `lowerInput.includes(keyword.toLowerCase())` for some keyword. */
  predicate HasForbiddenKeyword(s: string) {
    exists i | 0 <= i < |ForbiddenKeywords| :: Contains(ToLower(s), ToLower(ForbiddenKeywords[i]))
  }

  /** `pattern.test(input)` for some pattern. */
  predicate HasInjectionPattern(s: string) {
    exists i | 0 <= i < |InjectionPatterns| :: Tests(InjectionPatterns[i], s)
  }

  /** The class `[<>{}[\]\\|`]`. */
  predicate IsSpecial(c: char) {
    c == '<' || c == '>' || c == '{' || c == '}' || c == '[' || c == ']' || c == '\\' || c == '|' || c == '`'
  }

  /** `(input.match(/[<>{}[\]\\|`]/g) || []).length`. */
  function SpecialCount(s: string): (n: nat)
    ensures n <= |s|
    ensures n == 0 <==> forall i | 0 <= i < |s| :: !IsSpecial(s[i])
  {
    if s == [] then 0
    else (if IsSpecial(s[0]) then 1 else 0) + SpecialCount(s[1..])
  }

  /** What `validateDestination` returns: `valid`, and the error text when not valid. */
  datatype Validation = Validation(valid: bool, error: Option<string>)

  function Reject(msg: string): Validation {
    Validation(false, Some(msg))
  }

  /** The checks in their order; the first that fires decides the message. */
  function ValidationOf(input: string): (r: Validation)
    ensures r.valid <==> r.error.None?
  {
    if AllSpace(input) then Reject(MsgEmpty)
    else if |input| > MaxLength then Reject(MsgTooLong)
    else if HasForbiddenKeyword(input) then Reject(MsgInjection)
    else if HasInjectionPattern(input) then Reject(MsgInjection)
    else if SpecialCount(input) > 3 then Reject(MsgSpecial)
    else Validation(true, None)
  }

  /** `validateDestination`: the blank and length checks, then a search over
      the keywords and one over the patterns, each returning at the first hit,
      then the special-character count. */
  method ValidateDestination(input: string) returns (r: Validation)
    ensures r == ValidationOf(input)
  {
    if |Trim(input)| == 0 {
      return Reject(MsgEmpty);
    }
    if |input| > MaxLength {
      return Reject(MsgTooLong);
    }
    var lowerInput := ToLower(input);
    var keywordHit := SearchKeywords(ForbiddenKeywords, lowerInput);
    assert keywordHit == HasForbiddenKeyword(input);
    if keywordHit {
      return Reject(MsgInjection);
    }
    var patternHit := SearchPatterns(InjectionPatterns, input);
    assert patternHit == HasInjectionPattern(input);
    if patternHit {
      return Reject(MsgInjection);
    }
    if SpecialCount(input) > 3 {
      return Reject(MsgSpecial);
    }
    return Validation(true, None);
  }

  /** The `for (const keyword of FORBIDDEN_KEYWORDS)` loop: stops at the first
      keyword whose lower-cased form occurs in `lowerInput`. */
  method SearchKeywords(keywords: seq<string>, lowerInput: string) returns (hit: bool)
    ensures hit <==> exists i | 0 <= i < |keywords| :: Contains(lowerInput, ToLower(keywords[i]))
  {
    var k := 0;
    while k < |keywords|
      invariant k <= |keywords|
      invariant forall j | 0 <= j < k :: !Contains(lowerInput, ToLower(keywords[j]))
    {
      if Contains(lowerInput, ToLower(keywords[k])) {
        return true;
      }
      k := k + 1;
    }
    return false;
  }

  /** The `for (const pattern of INJECTION_PATTERNS)` loop: stops at the first
      pattern that matches somewhere in `input`. */
  method SearchPatterns(patterns: seq<Pattern>, input: string) returns (hit: bool)
    ensures hit <==> exists i | 0 <= i < |patterns| :: Tests(patterns[i], input)
  {
    var q := 0;
    while q < |patterns|
      invariant q <= |patterns|
      invariant forall j | 0 <= j < q :: !Tests(patterns[j], input)
    {
      if Tests(patterns[q], input) {
        return true;
      }
      q := q + 1;
    }
    return false;
  }

  /** Blank input is refused with the request to enter a destination, whatever its length. */
  lemma {:induction false} BlankRejected(input: string)
    requires AllSpace(input)
    ensures ValidationOf(input) == Validation(false, Some(MsgEmpty))
  {
  }

  /** Overlong input that is not blank is refused for its length. */
  lemma {:induction false} TooLongRejected(input: string)
    requires !AllSpace(input) && |input| > MaxLength
    ensures ValidationOf(input) == Validation(false, Some(MsgTooLong))
  {
  }

  /** Input containing a keyword (after lower-casing) is refused, and so is
      input with more than three special characters. */
  lemma {:induction false} KeywordOrSpecialRejected(input: string, i: nat)
    requires (i < |ForbiddenKeywords| && Contains(ToLower(input), ToLower(ForbiddenKeywords[i]))) ||
             SpecialCount(input) > 3
    ensures !ValidationOf(input).valid
  {
  }

  /** Valid exactly when no check fires; at most three special characters do
      not cause a refusal on their own. */
  lemma {:induction false} ValidIff(input: string)
    ensures ValidationOf(input).valid <==>
            !AllSpace(input) && |input| <= MaxLength && !HasForbiddenKeyword(input) &&
            !HasInjectionPattern(input) && SpecialCount(input) <= 3
  {
  }

  /** The first five patterns begin with a forbidden keyword, so they fire
      only on input the keyword search has already refused: of the patterns,
      only `user:` and `assistant:` ever decide a verdict. */
  lemma {:induction false} KeywordsCoverPatterns(input: string, j: nat)
    requires j < 5 && Tests(InjectionPatterns[j], input)
    ensures HasForbiddenKeyword(input)
  {
    KeywordPatternWords(j);
    CoveredByKeyword(input, InjectionPatterns[j], j + 7);
  }

  /** The words of the first five patterns are keywords 7 to 11. */
  lemma {:induction false} KeywordPatternWords(j: nat)
    requires j < 5
    ensures j + 7 < |ForbiddenKeywords| && ForbiddenKeywords[j + 7] == InjectionPatterns[j].word
  {
  }

  /** A pattern whose word is a keyword fires only where that keyword occurs. */
  lemma {:induction false} CoveredByKeyword(input: string, p: Pattern, k: nat)
    requires Tests(p, input) && k < |ForbiddenKeywords| && ForbiddenKeywords[k] == p.word
    ensures HasForbiddenKeyword(input)
  {
    TestsContainsWord(p, input);
  }


  // ---------------------------------------------------------------------------
  // sanitizeDestination
  // ---------------------------------------------------------------------------

  /** `s.replace(/\s+/g, ' ')`: every maximal run of whitespace becomes one space. */
  function Collapse(s: string): (r: string)
    ensures |r| <= |s| && (r == [] <==> s == [])
    ensures r != [] ==> r[0] == (if IsSpace(s[0]) then ' ' else s[0])
    ensures r != [] && !IsSpace(s[|s| - 1]) ==> r[|r| - 1] == s[|s| - 1]
    decreases |s|
  {
    if s == [] then []
    else if IsSpace(s[0]) then
      var t := TrimStart(s);
      [' '] + Collapse(t)
    else [s[0]] + Collapse(s[1..])
  }

  /** The shape `Collapse` leaves: whitespace only as single plain spaces. */
  predicate Collapsed(s: string)
    decreases |s|
  {
    s == [] ||
    ((IsSpace(s[0]) ==> s[0] == ' ' && (|s| == 1 || !IsSpace(s[1]))) && Collapsed(s[1..]))
  }

  lemma {:induction false} CollapseShape(s: string)
    ensures Collapsed(Collapse(s))
    decreases |s|
  {
    if s != [] {
      if IsSpace(s[0]) {
        CollapseShape(TrimStart(s));
      } else {
        CollapseShape(s[1..]);
      }
    }
  }

  /** A string already in collapsed shape is left as it is. */
  lemma {:induction false} CollapseCollapsed(s: string)
    requires Collapsed(s)
    ensures Collapse(s) == s
    decreases |s|
  {
    if s != [] {
      CollapseCollapsed(s[1..]);
      if IsSpace(s[0]) {
        var t := s[1..];
        assert t == [] || !IsSpace(t[0]);
        assert TrimStart(t) == t;
        assert TrimStart(s) == t;
        assert Collapse(s) == [' '] + Collapse(t);
      } else {
        assert Collapse(s) == [s[0]] + Collapse(s[1..]);
      }
      assert s == [s[0]] + s[1..];
    }
  }

  /** `String.prototype.trim` leaves alone a string with no whitespace at its ends. */
  lemma {:induction false} TrimTrimmed(s: string)
    requires s == [] || (!IsSpace(s[0]) && !IsSpace(s[|s| - 1]))
    ensures Trim(s) == s
  {
  }

  /** The result of `sanitizeDestination`. */
  function Sanitized(input: string): (r: string)
    ensures |r| <= MaxLength
  {
    var c := Collapse(Trim(input));
    if |c| > MaxLength then c[..MaxLength] else c
  }

  /** `sanitizeDestination`: trim, collapse whitespace runs, cut to 100 characters. */
  method SanitizeDestination(input: string) returns (sanitized: string)
    ensures sanitized == Sanitized(input)
  {
    sanitized := Trim(input);
    sanitized := Collapse(sanitized);
    if |sanitized| > MaxLength {
      sanitized := sanitized[..MaxLength];
    }
  }

  /** The result has at most 100 characters, does not start with whitespace,
      holds whitespace only as single plain spaces, and is a prefix of the
      collapsed trimmed input. */
  lemma {:induction false} SanitizedShape(input: string)
    ensures var r := Sanitized(input);
            && |r| <= MaxLength
            && (r == [] || !IsSpace(r[0]))
            && Collapsed(r)
            && r <= Collapse(Trim(input))
  {
    var c := Collapse(Trim(input));
    var r := Sanitized(input);
    CollapseShape(Trim(input));
    assert r == c[..|r|];
    CollapsedPrefix(c, |r|);
    if r != [] {
      assert r[0] == c[0];
    }
  }

  /** A prefix of a collapsed string is collapsed. */
  lemma {:induction false} CollapsedPrefix(s: string, n: nat)
    requires Collapsed(s) && n <= |s|
    ensures Collapsed(s[..n])
    decreases n
  {
    if n > 0 {
      CollapsedPrefix(s[1..], n - 1);
      assert s[..n][1..] == s[1..][..n - 1];
    }
  }

  /** Cleaning twice is cleaning once, unless the first clean-up had to cut. */
  lemma {:induction false} SanitizeIdempotent(input: string)
    requires |Collapse(Trim(input))| <= MaxLength
    ensures Sanitized(Sanitized(input)) == Sanitized(input)
  {
    SanitizedUncut(input);
    CollapseOfTrimmedFixed(Trim(input));
  }

  /** Cleaning leaves alone the collapsed form of a string without
      whitespace at its ends, when it is short enough. */
  lemma {:induction false} CollapseOfTrimmedFixed(t: string)
    requires t == [] || (!IsSpace(t[0]) && !IsSpace(t[|t| - 1]))
    requires |Collapse(t)| <= MaxLength
    ensures Sanitized(Collapse(t)) == Collapse(t)
  {
    CollapseShape(t);
    CollapsedTrimmedEnds(t);
    SanitizedFixed(Collapse(t));
  }

  /** Without a cut, cleaning is trimming and collapsing. */
  lemma {:induction false} SanitizedUncut(input: string)
    requires |Collapse(Trim(input))| <= MaxLength
    ensures Sanitized(input) == Collapse(Trim(input))
  {
  }

  /** Collapsing keeps ends that are not whitespace. */
  lemma {:induction false} CollapsedTrimmedEnds(t: string)
    requires t == [] || (!IsSpace(t[0]) && !IsSpace(t[|t| - 1]))
    ensures var c := Collapse(t); c == [] || (!IsSpace(c[0]) && !IsSpace(c[|c| - 1]))
  {
  }

  /** A collapsed string of at most 100 characters without whitespace at its
      ends is left as it is. */
  lemma {:induction false} SanitizedFixed(c: string)
    requires Collapsed(c) && |c| <= MaxLength
    requires c == [] || (!IsSpace(c[0]) && !IsSpace(c[|c| - 1]))
    ensures Sanitized(c) == c
  {
    TrimTrimmed(c);
    CollapseCollapsed(c);
    var r := Collapse(Trim(c));
    assert r == c;
  }
}
