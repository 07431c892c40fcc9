/** `utils/markdownConverter.ts`: `removeMarkdown`, seventeen global regular
    expression replacements applied one after another, then `trim`.

    A global `String.prototype.replace` scans its input from the left: where
    the expression matches at the current position the match is replaced and
    scanning resumes after it, otherwise the character is kept and scanning
    resumes one further on. `Scan` is that scan; `Matcher` says, for each
    pass, whether and how its expression matches at a position, resolving the
    expression's greedy, lazy and backtracking parts into the one match
    JavaScript finds there. None of the seventeen expressions can match the
    empty string. */
module Markdown {
  import opened Wrappers
  import opened Text

  /** The replacement passes, in the order `removeMarkdown` applies them. */
  datatype Pass =
    | Fence            // ```[\s\S]*?```            -> ''
    | InlineCode       // `([^`]+)`                 -> $1
    | Header           // ^#{1,6}\s+(.+)$   (m)     -> $1
    | Bold             // \*\*([^*]+)\*\*           -> $1
    | BoldUnderscore   // __([^_]+)__               -> $1
    | Italic           // (?<!\*)\*([^*]+?)\*(?!\*) -> $1
    | ItalicUnderscore // _([^_]+)_                 -> $1
    | Link             // \[([^\]]+)\]\([^\)]+\)    -> $1
    | Image            // !\[([^\]]+)\]\([^\)]+\)   -> $1
    | Bullet           // ^[\s]*[-*+]\s+    (m)     -> ''
    | Numbered         // ^\s*\d+\.\s+      (m)     -> ''
    | Rule             // ^[-*_]{3,}$       (m)     -> ''
    | Quote            // ^>\s+             (m)     -> ''
    | Pipe             // \|                        -> ' '
    | TableRule        // :-+                       -> ''
    | BlankLines       // \n{3,}                    -> '\n\n'
    | Blanks           // [ \t]+                    -> ' '

  /** A match: how many characters it covers and what replaces them. */
  datatype Match = Match(len: nat, repl: string)

  /** The characters a pass's replacement text adds of its own (captures
      only copy characters of the input). */
  function Literal(p: Pass): string {
    match p
    case Pipe => " "
    case BlankLines => "\n\n"
    case Blanks => " "
    case _ => ""
  }

  // ---------------------------------------------------------------------------
  // Character classes and scanning helpers
  // ---------------------------------------------------------------------------

  datatype Class = Whitespace | Hash | Digit | RuleMark | Dash | Newline | Blank | NotTerminator

  predicate InClass(c: char, k: Class) {
    match k
    case Whitespace => IsSpace(c)
    case Hash => c == '#'
    case Digit => IsDigit(c)
    case RuleMark => c == '-' || c == '*' || c == '_'
    case Dash => c == '-'
    case Newline => c == '\n'
    case Blank => c == ' ' || c == '\t'
    case NotTerminator => !IsLineTerminator(c)
  }

  /** The length of the longest run of class `k` starting at `i` (what a
      greedy `k*` takes). */
  function Run(s: string, i: nat, k: Class): (n: nat)
    requires i <= |s|
    ensures i + n <= |s|
    ensures forall j | i <= j < i + n :: InClass(s[j], k)
    ensures i + n == |s| || !InClass(s[i + n], k)
    decreases |s| - i
  {
    if i < |s| && InClass(s[i], k) then 1 + Run(s, i + 1, k) else 0
  }

  /** The first position at or after `j` holding `c`. */
  function IndexOf(s: string, c: char, j: nat): (r: Option<nat>)
    requires j <= |s|
    ensures r.Some? ==> j <= r.value < |s| && s[r.value] == c &&
                        forall m | j <= m < r.value :: s[m] != c
    ensures r.None? ==> forall m | j <= m < |s| :: s[m] != c
    decreases |s| - j
  {
    if j == |s| then None
    else if s[j] == c then Some(j)
    else IndexOf(s, c, j + 1)
  }

  /** `IndexOf` finds the first `c` at or after `j`. */
  lemma {:induction false} IndexOfAt(s: string, c: char, j: nat, k: nat)
    requires j <= k < |s| && s[k] == c && forall m | j <= m < k :: s[m] != c
    ensures IndexOf(s, c, j) == Some(k)
  {
    var r := IndexOf(s, c, j);
    assert !(r.value < k) && !(k < r.value);
  }

  /** Three backticks start at `j`. */
  predicate FenceAt(s: string, j: nat) {
    j + 3 <= |s| && s[j] == '`' && s[j + 1] == '`' && s[j + 2] == '`'
  }

  /** The first position at or after `j` where three backticks start. */
  function FenceFrom(s: string, j: nat): (r: Option<nat>)
    requires j <= |s|
    ensures r.Some? ==> j <= r.value && FenceAt(s, r.value) &&
                        forall m | j <= m < r.value :: !FenceAt(s, m)
    ensures r.None? ==> forall m | j <= m :: !FenceAt(s, m)
    decreases |s| - j
  {
    if j + 3 > |s| then None
    else if FenceAt(s, j) then Some(j)
    else FenceFrom(s, j + 1)
  }

  /** Where `^` matches in multiline mode. */
  predicate LineStart(s: string, i: nat) {
    i == 0 || (i <= |s| && IsLineTerminator(s[i - 1]))
  }

  /** A match of `len` characters from `i` whose replacement is the capture
      `s[a..b]`. */
  function Keep(s: string, i: nat, len: nat, a: nat, b: nat): (m: Match)
    requires 1 <= len && i <= a <= b <= i + len <= |s|
    ensures m.len == len && forall c | c in m.repl :: c in s
  {
    Match(len, s[a..b])
  }

  /** A match found at `i` covers at least one and at most the remaining
      characters, and its replacement copies characters of `s`. */
  predicate Fits(s: string, i: nat, r: Option<Match>) {
    r.Some? ==> 1 <= r.value.len <= |s| - i && forall c | c in r.value.repl :: c in s
  }

  // ---------------------------------------------------------------------------
  // Where each expression matches
  // ---------------------------------------------------------------------------

  /** ```` ```[\s\S]*?``` ````: the lazy body stops at the first closing fence. */
  function MatchFence(s: string, i: nat): (r: Option<Match>)
    requires i < |s|
    ensures Fits(s, i, r) && (r.Some? ==> r.value.repl == "")
  {
    if FenceAt(s, i) then
      match FenceFrom(s, i + 3)
      case Some(k) => Some(Match(k + 3 - i, ""))
      case None => None
    else None
  }

  /** `` `([^`]+)` `` and `_([^_]+)_`: the body runs to the next marker and
      is not empty. */
  function MatchDelimited(s: string, i: nat, c: char): (r: Option<Match>)
    requires i < |s|
    ensures Fits(s, i, r)
    // a marker, a non-empty body free of markers, a marker; the body is kept
    ensures r.Some? ==> var n := r.value.len;
              && 3 <= n && s[i] == c && s[i + n - 1] == c
              && r.value.repl == s[i + 1..i + n - 1] && c !in r.value.repl
  {
    if s[i] != c then None
    else match IndexOf(s, c, i + 1)
      case Some(k) => if k > i + 1 then Some(Keep(s, i, k + 1 - i, i + 1, k)) else None
      case None => None
  }

  /** The largest `t` in 1..`t0` for which `.` matches at `b + t`: how far
      `\s+` gives back so that `.+` can start. */
  function BodyStart(s: string, b: nat, t0: nat): (r: Option<nat>)
    ensures r.Some? ==> 1 <= r.value <= t0 && b + r.value < |s| && !IsLineTerminator(s[b + r.value])
  {
    if t0 == 0 then None
    else if b + t0 < |s| && !IsLineTerminator(s[b + t0]) then Some(t0)
    else BodyStart(s, b, t0 - 1)
  }

  /** `^#{1,6}\s+(.+)$` in multiline mode: one to six `#` (a seventh `#`
      leaves nothing for `\s+`), whitespace that may cross line ends, and the
      rest of a line, which `.+` takes up to the line's end where `$`
      matches. The result is where the captured title starts and ends. */
  function HeaderAt(s: string, i: nat): (r: Option<(nat, nat)>)
    requires i < |s|
    // a `#` at a line start, then a non-empty title that stays on one line
    // and runs to that line's end
    ensures r.Some? ==> var (b, e) := r.value;
              && LineStart(s, i) && s[i] == '#' && i < b < e <= |s|
              && (forall j | b <= j < e :: !IsLineTerminator(s[j]))
              && (e == |s| || IsLineTerminator(s[e]))
  {
    if !LineStart(s, i) then None
    else
      var n := Run(s, i, Hash);
      if n == 0 || n > 6 then None
      else
        var w := Run(s, i + n, Whitespace);
        match BodyStart(s, i + n, w)
        case Some(t) => Some((i + n + t, i + n + t + Run(s, i + n + t, NotTerminator)))
        case None => None
  }

  /** The header expression: the title replaces the whole match. */
  function MatchHeader(s: string, i: nat): (r: Option<Match>)
    requires i < |s|
    ensures Fits(s, i, r)
    ensures r.Some? ==> HeaderAt(s, i).Some? && var (b, e) := HeaderAt(s, i).value;
              r.value == Match(e - i, s[b..e])
  {
    match HeaderAt(s, i)
    case Some((b, e)) => Some(Keep(s, i, e - i, b, e))
    case None => None
  }

  /** `\*\*([^*]+)\*\*` and `__([^_]+)__`: the body runs to the next marker,
      which must be doubled. */
  function MatchDoubled(s: string, i: nat, c: char): (r: Option<Match>)
    requires i < |s|
    ensures Fits(s, i, r)
    // two markers, a non-empty body free of markers, two markers; the body is kept
    ensures r.Some? ==> var n := r.value.len;
              && 5 <= n && s[i] == c && s[i + 1] == c && s[i + n - 2] == c && s[i + n - 1] == c
              && r.value.repl == s[i + 2..i + n - 2] && c !in r.value.repl
  {
    if !(i + 1 < |s| && s[i] == c && s[i + 1] == c) then None
    else match IndexOf(s, c, i + 2)
      case Some(k) =>
        if k > i + 2 && k + 1 < |s| && s[k + 1] == c then Some(Keep(s, i, k + 2 - i, i + 2, k)) else None
      case None => None
  }

  /** `(?<!\*)\*([^*]+?)\*(?!\*)`: a `*` not preceded by `*`, a body up to the
      next `*`, which must not be followed by another. */
  function MatchItalic(s: string, i: nat): (r: Option<Match>)
    requires i < |s|
    ensures Fits(s, i, r)
    // a lone `*`, a non-empty body free of `*`, a lone `*`; the body is kept
    ensures r.Some? ==> var n := r.value.len;
              && 3 <= n && s[i] == '*' && s[i + n - 1] == '*'
              && (i == 0 || s[i - 1] != '*') && (i + n == |s| || s[i + n] != '*')
              && r.value.repl == s[i + 1..i + n - 1] && '*' !in r.value.repl
  {
    if s[i] != '*' || (i > 0 && s[i - 1] == '*') then None
    else match IndexOf(s, '*', i + 1)
      case Some(k) =>
        if k > i + 1 && (k + 1 == |s| || s[k + 1] != '*') then Some(Keep(s, i, k + 1 - i, i + 1, k)) else None
      case None => None
  }

  /** `\[([^\]]+)\]\([^\)]+\)` starting at `i`: the text runs to the first `]`,
      which must be followed by `(`, and the target to the first `)`; the
      result is the text and the position just after the `)`. */
  function LinkAt(s: string, i: nat): (r: Option<(nat, nat)>)
    requires i < |s|
    ensures r.Some? ==> i + 1 < r.value.0 < r.value.1 <= |s| && s[i] == '['
    // the text ends at its first `]`, then `(`, a non-empty target free of `)`, and `)`
    ensures r.Some? ==> var (k, e) := r.value;
              && ']' !in s[i + 1..k] && s[k] == ']'
              && k + 3 < e && s[k + 1] == '(' && ')' !in s[k + 2..e - 1] && s[e - 1] == ')'
  {
    if s[i] != '[' then None
    else match IndexOf(s, ']', i + 1)
      case Some(k) =>
        if k > i + 1 && k + 1 < |s| && s[k + 1] == '(' then
          match IndexOf(s, ')', k + 2)
          case Some(e) => if e > k + 2 then Some((k, e + 1)) else None
          case None => None
        else None
      case None => None
  }

  /** The link expression: the text replaces the whole link. */
  function MatchLink(s: string, i: nat): (r: Option<Match>)
    requires i < |s|
    ensures Fits(s, i, r)
    // the link at `i` is replaced by its non-empty text
    ensures r.Some? ==> LinkAt(s, i).Some? && var (k, e) := LinkAt(s, i).value;
              r.value == Match(e - i, s[i + 1..k]) && r.value.repl != []
  {
    match LinkAt(s, i)
    case Some((k, e)) => Some(Keep(s, i, e - i, i + 1, k))
    case None => None
  }

  /** The image expression: a `!` and then a link. */
  function MatchImage(s: string, i: nat): (r: Option<Match>)
    requires i < |s|
    ensures Fits(s, i, r)
    // a `!` followed by a link is replaced by the link's non-empty text
    ensures r.Some? ==> s[i] == '!' && i + 1 < |s| && LinkAt(s, i + 1).Some? && var (k, e) := LinkAt(s, i + 1).value;
              r.value == Match(e - i, s[i + 2..k]) && r.value.repl != []
  {
    if s[i] != '!' || i + 1 == |s| then None
    else match LinkAt(s, i + 1)
      case Some((k, e)) => Some(Keep(s, i, e - i, i + 2, k))
      case None => None
  }

  /** `^[\s]*[-*+]\s+` in multiline mode: leading whitespace (which may
      swallow blank lines), a marker, and at least one whitespace. */
  function MatchBullet(s: string, i: nat): (r: Option<Match>)
    requires i < |s|
    ensures Fits(s, i, r) && (r.Some? ==> r.value.repl == "")
  {
    if !LineStart(s, i) then None
    else
      var w := Run(s, i, Whitespace);
      if i + w < |s| && (s[i + w] == '-' || s[i + w] == '*' || s[i + w] == '+') then
        var w2 := Run(s, i + w + 1, Whitespace);
        if w2 >= 1 then Some(Match(w + 1 + w2, "")) else None
      else None
  }

  /** `^\s*\d+\.\s+` in multiline mode. */
  function MatchNumbered(s: string, i: nat): (r: Option<Match>)
    requires i < |s|
    ensures Fits(s, i, r) && (r.Some? ==> r.value.repl == "")
  {
    if !LineStart(s, i) then None
    else
      var w := Run(s, i, Whitespace);
      var d := Run(s, i + w, Digit);
      if d >= 1 && i + w + d < |s| && s[i + w + d] == '.' then
        var w2 := Run(s, i + w + d + 1, Whitespace);
        if w2 >= 1 then Some(Match(w + d + 1 + w2, "")) else None
      else None
  }

  /** `^[-*_]{3,}$` in multiline mode: a whole line of at least three marks. */
  function MatchRule(s: string, i: nat): (r: Option<Match>)
    requires i < |s|
    ensures Fits(s, i, r) && (r.Some? ==> r.value.repl == "")
  {
    if !LineStart(s, i) then None
    else
      var r := Run(s, i, RuleMark);
      if r >= 3 && (i + r == |s| || IsLineTerminator(s[i + r])) then Some(Match(r, "")) else None
  }

  /** `^>\s+` in multiline mode. */
  function MatchQuote(s: string, i: nat): (r: Option<Match>)
    requires i < |s|
    ensures Fits(s, i, r) && (r.Some? ==> r.value.repl == "")
  {
    if !LineStart(s, i) || s[i] != '>' then None
    else
      var w := Run(s, i + 1, Whitespace);
      if w >= 1 then Some(Match(1 + w, "")) else None
  }

  /** `\|`: a pipe becomes a space. */
  function MatchPipe(s: string, i: nat): (r: Option<Match>)
    requires i < |s|
    ensures r.Some? ==> r.value == Match(1, " ")
  {
    if s[i] == '|' then Some(Match(1, " ")) else None
  }

  /** `:-+`: a colon and the dashes after it disappear. */
  function MatchTableRule(s: string, i: nat): (r: Option<Match>)
    requires i < |s|
    ensures Fits(s, i, r) && (r.Some? ==> r.value.repl == "")
  {
    var d := Run(s, i + 1, Dash);
    if s[i] == ':' && d >= 1 then Some(Match(1 + d, "")) else None
  }

  /** `\n{3,}`: three or more newlines become two. */
  function MatchBlankLines(s: string, i: nat): (r: Option<Match>)
    requires i < |s|
    ensures r.Some? ==> r.value.repl == "\n\n" && 1 <= r.value.len <= |s| - i
  {
    var n := Run(s, i, Newline);
    if n >= 3 then Some(Match(n, "\n\n")) else None
  }

  /** `[ \t]+`: a run of spaces and tabs becomes one space. */
  function MatchBlanks(s: string, i: nat): (r: Option<Match>)
    requires i < |s|
    ensures r.Some? ==> r.value.repl == " " && 1 <= r.value.len <= |s| - i
  {
    var n := Run(s, i, Blank);
    if n >= 1 then Some(Match(n, " ")) else None
  }

  /** A matcher, for every position of `s`, finds no match or one that covers
      at least one and at most the remaining characters and whose
      replacement holds only characters of `s` and of `lit`. */
  predicate Sound(s: string, lit: string, m: nat -> Option<Match>) {
    forall j | 0 <= j < |s| ::
      m(j).Some? ==> 1 <= m(j).value.len <= |s| - j &&
                     forall c | c in m(j).value.repl :: c in s || c in lit
  }

  /** Whether and how pass `p` matches at each position of `s`. */
  function Matcher(p: Pass, s: string): (m: nat -> Option<Match>)
    ensures Sound(s, Literal(p), m)
  {
    match p
    case Fence => (j: nat) => if j < |s| then MatchFence(s, j) else None
    case InlineCode => (j: nat) => if j < |s| then MatchDelimited(s, j, '`') else None
    case Header => (j: nat) => if j < |s| then MatchHeader(s, j) else None
    case Bold => (j: nat) => if j < |s| then MatchDoubled(s, j, '*') else None
    case BoldUnderscore => (j: nat) => if j < |s| then MatchDoubled(s, j, '_') else None
    case Italic => (j: nat) => if j < |s| then MatchItalic(s, j) else None
    case ItalicUnderscore => (j: nat) => if j < |s| then MatchDelimited(s, j, '_') else None
    case Link => (j: nat) => if j < |s| then MatchLink(s, j) else None
    case Image => (j: nat) => if j < |s| then MatchImage(s, j) else None
    case Bullet => (j: nat) => if j < |s| then MatchBullet(s, j) else None
    case Numbered => (j: nat) => if j < |s| then MatchNumbered(s, j) else None
    case Rule => (j: nat) => if j < |s| then MatchRule(s, j) else None
    case Quote => (j: nat) => if j < |s| then MatchQuote(s, j) else None
    case Pipe => (j: nat) => if j < |s| then MatchPipe(s, j) else None
    case TableRule => (j: nat) => if j < |s| then MatchTableRule(s, j) else None
    case BlankLines => (j: nat) => if j < |s| then MatchBlankLines(s, j) else None
    case Blanks => (j: nat) => if j < |s| then MatchBlanks(s, j) else None
  }

  /** A global replacement over `s[i..]` with matcher `m`. */
  function Scan(s: string, i: nat, lit: string, m: nat -> Option<Match>): string
    requires i <= |s| && Sound(s, lit, m)
    decreases |s| - i
  {
    if i == |s| then []
    else match m(i)
      case Some(mt) => mt.repl + Scan(s, i + mt.len, lit, m)
      case None => [s[i]] + Scan(s, i + 1, lit, m)
  }

  /** The global replacement of pass `p` over `s[i..]`. */
  function Rewrite(p: Pass, s: string, i: nat): string
    requires i <= |s|
  {
    Scan(s, i, Literal(p), Matcher(p, s))
  }

  function Apply(p: Pass, s: string): string {
    Rewrite(p, s, 0)
  }

  // ---------------------------------------------------------------------------
  // Shapes of text
  // ---------------------------------------------------------------------------

  /** `t` starts with `n` copies of `c`. */
  predicate StartsWithRun(t: string, c: char, n: nat) {
    n <= |t| && forall k | 0 <= k < n :: t[k] == c
  }

  /** Nowhere in `t` do `n` copies of `c` follow one another. */
  predicate NoRun(t: string, c: char, n: nat)
    decreases |t|
  {
    !StartsWithRun(t, c, n) && (t == [] || NoRun(t[1..], c, n))
  }

  lemma {:induction false} NoRunDrop(t: string, c: char, n: nat, a: nat)
    requires a <= |t| && NoRun(t, c, n)
    ensures NoRun(t[a..], c, n)
    decreases a
  {
    if a > 0 {
      assert t[a..] == t[1..][a - 1..];
      NoRunDrop(t[1..], c, n, a - 1);
    }
  }

  lemma {:induction false} NoRunTake(t: string, c: char, n: nat, b: nat)
    requires b <= |t| && NoRun(t, c, n)
    ensures NoRun(t[..b], c, n)
    decreases |t|
  {
    if b > 0 {
      assert t[..b][1..] == t[1..][..b - 1];
      NoRunTake(t[1..], c, n, b - 1);
    }
  }

  // ---------------------------------------------------------------------------
  // removeMarkdown
  // ---------------------------------------------------------------------------

  /** The text `removeMarkdown` returns: empty input as it is, otherwise the
      seventeen passes in order and a final trim. The link pass precedes the
      image pass. */
  function Stripped(text: string): (r: string)
    ensures text == [] ==> r == text
    ensures '|' !in r && '\t' !in r
    ensures NoRun(r, ' ', 2) && NoRun(r, '\n', 3)
    ensures r != [] ==> !IsSpace(r[0]) && !IsSpace(r[|r| - 1])
  {
    if text == [] then text
    else
      var s1 := Apply(Fence, text);
      var s2 := Apply(InlineCode, s1);
      var s3 := Apply(Header, s2);
      var s4 := Apply(Bold, s3);
      var s5 := Apply(BoldUnderscore, s4);
      var s6 := Apply(Italic, s5);
      var s7 := Apply(ItalicUnderscore, s6);
      var s8 := Apply(Link, s7);
      var s9 := Apply(Image, s8);
      var s10 := Apply(Bullet, s9);
      var s11 := Apply(Numbered, s10);
      var s12 := Apply(Rule, s11);
      var s13 := Apply(Quote, s12);
      var s14 := Apply(Pipe, s13);
      var s15 := Apply(TableRule, s14);
      var s16 := Apply(BlankLines, s15);
      var s17 := Apply(Blanks, s16);
      FinalPassesClean(s13);
      Trim(s17)
  }

  /** `removeMarkdown(text)`: `cleaned` is reassigned by each pass in turn. */
  method RemoveMarkdown(text: string) returns (cleaned: string)
    ensures cleaned == Stripped(text)
  {
    if text == [] {
      return text;
    }
    cleaned := text;
    cleaned := Apply(Fence, cleaned);
    cleaned := Apply(InlineCode, cleaned);
    cleaned := Apply(Header, cleaned);
    cleaned := Apply(Bold, cleaned);
    cleaned := Apply(BoldUnderscore, cleaned);
    cleaned := Apply(Italic, cleaned);
    cleaned := Apply(ItalicUnderscore, cleaned);
    cleaned := Apply(Link, cleaned);
    cleaned := Apply(Image, cleaned);
    cleaned := Apply(Bullet, cleaned);
    cleaned := Apply(Numbered, cleaned);
    cleaned := Apply(Rule, cleaned);
    cleaned := Apply(Quote, cleaned);
    cleaned := Apply(Pipe, cleaned);
    cleaned := Apply(TableRule, cleaned);
    cleaned := Apply(BlankLines, cleaned);
    cleaned := Apply(Blanks, cleaned);
    cleaned := Trim(cleaned);
  }

  // ---------------------------------------------------------------------------
  // What the last passes guarantee
  // ---------------------------------------------------------------------------

  /** A scan adds no character that is neither in its input nor in the
      replacement texts' own characters. */
  lemma {:induction false} ScanAddsNothing(s: string, i: nat, lit: string, m: nat -> Option<Match>, c: char)
    requires i <= |s| && Sound(s, lit, m) && c !in s && c !in lit
    ensures c !in Scan(s, i, lit, m)
    decreases |s| - i
  {
    if i < |s| {
      match m(i)
      case Some(mt) => ScanAddsNothing(s, i + mt.len, lit, m, c);
      case None => ScanAddsNothing(s, i + 1, lit, m, c);
    }
  }

  /** A pass adds no character that is neither in its input nor in its own
      replacement text. */
  lemma {:induction false} RewriteAddsNothing(p: Pass, s: string, c: char)
    requires c !in s && c !in Literal(p)
    ensures c !in Apply(p, s)
  {
    ScanAddsNothing(s, 0, Literal(p), Matcher(p, s), c);
  }

  /** Every `|` becomes a space. */
  lemma {:induction false} PipesReplaced(s: string, i: nat)
    requires i <= |s|
    ensures '|' !in Rewrite(Pipe, s, i)
    decreases |s| - i
  {
    if i < |s| {
      PipesReplaced(s, i + 1);
    }
  }

  /** The newline pass read directly: a run of three or more newlines
      becomes two, anything else is kept. */
  function SqueezeNewlines(s: string, i: nat): string
    requires i <= |s|
    decreases |s| - i
  {
    if i == |s| then []
    else
      var n := Run(s, i, Newline);
      if n >= 3 then "\n\n" + SqueezeNewlines(s, i + n) else [s[i]] + SqueezeNewlines(s, i + 1)
  }

  /** The blank pass read directly: a run of spaces and tabs becomes one
      space, anything else is kept. */
  function SqueezeBlanks(s: string, i: nat): string
    requires i <= |s|
    decreases |s| - i
  {
    if i == |s| then []
    else
      var n := Run(s, i, Blank);
      if n >= 1 then " " + SqueezeBlanks(s, i + n) else [s[i]] + SqueezeBlanks(s, i + 1)
  }

  /** The blank-line pass matches where `\n{3,}` does. */
  lemma {:induction false} BlankLinesMatcherAt(s: string, i: nat)
    requires i < |s|
    ensures Matcher(BlankLines, s)(i) == MatchBlankLines(s, i)
  {
  }

  /** The scan of `\n{3,}` is the direct reading. */
  lemma {:induction false} BlankLinesAgree(s: string, i: nat)
    requires i <= |s|
    ensures Rewrite(BlankLines, s, i) == SqueezeNewlines(s, i)
    decreases |s| - i
  {
    if i < |s| {
      var n := Run(s, i, Newline);
      BlankLinesMatcherAt(s, i);
      BlankLinesAgree(s, i + (if n >= 3 then n else 1));
    }
  }

  /** The blank pass matches where `[ \t]+` does. */
  lemma {:induction false} BlanksMatcherAt(s: string, i: nat)
    requires i < |s|
    ensures Matcher(Blanks, s)(i) == MatchBlanks(s, i)
  {
  }

  /** The scan of `[ \t]+` is the direct reading. */
  lemma {:induction false} BlanksAgree(s: string, i: nat)
    requires i <= |s|
    ensures Rewrite(Blanks, s, i) == SqueezeBlanks(s, i)
    decreases |s| - i
  {
    if i < |s| {
      var n := Run(s, i, Blank);
      BlanksMatcherAt(s, i);
      BlanksAgree(s, i + (if n >= 1 then n else 1));
    }
  }

  /** Runs of three or more newlines become exactly two, so no three remain. */
  lemma {:induction false} BlankLinesSqueezed(s: string, i: nat)
    requires i <= |s|
    ensures NoRun(SqueezeNewlines(s, i), '\n', 3)
    decreases |s| - i
  {
    var r := SqueezeNewlines(s, i);
    if i < |s| {
      var n := Run(s, i, Newline);
      if n >= 3 {
        var rest := SqueezeNewlines(s, i + n);
        BlankLinesSqueezed(s, i + n);
        NotNewlineHead(s, i + n);
        assert r == "\n\n" + rest;
        assert r[1..] == "\n" + rest && r[1..][1..] == rest;
      } else {
        BlankLinesSqueezed(s, i + 1);
        assert r == [s[i]] + SqueezeNewlines(s, i + 1) && r[1..] == SqueezeNewlines(s, i + 1);
        assert r[0] == s[i];
        if n == 0 {
        } else if n == 1 {
          NotNewlineHead(s, i + 1);
        } else {
          assert Run(s, i, Newline) == 1 + Run(s, i + 1, Newline);
          assert Run(s, i + 1, Newline) == 1;
          NotNewlineHead(s, i + 2);
          assert SqueezeNewlines(s, i + 1) == [s[i + 1]] + SqueezeNewlines(s, i + 2);
        }
      }
    }
  }

  /** Where the input does not hold a newline, the squeezed text does not
      start with one. */
  lemma {:induction false} NotNewlineHead(s: string, j: nat)
    requires j <= |s| && (j == |s| || s[j] != '\n')
    ensures var r := SqueezeNewlines(s, j); r == [] || r[0] != '\n'
  {
  }

  /** The blank pass keeps newlines where they are: its output starts with a
      newline exactly where the input does, and then continues with the
      output for the rest. */
  lemma {:induction false} BlanksHead(s: string, j: nat)
    requires j < |s|
    ensures var r := SqueezeBlanks(s, j);
            r != [] && (r[0] == '\n' <==> s[j] == '\n') &&
            (s[j] == '\n' ==> r == "\n" + SqueezeBlanks(s, j + 1))
  {
  }

  /** Runs of spaces and tabs become one space, so no tab remains. */
  lemma {:induction false} BlanksNoTab(s: string, i: nat)
    requires i <= |s|
    ensures '\t' !in SqueezeBlanks(s, i)
    decreases |s| - i
  {
    if i < |s| {
      var n := Run(s, i, Blank);
      BlanksNoTab(s, i + (if n >= 1 then n else 1));
    }
  }

  /** Runs of spaces and tabs become one space, so no two spaces in a row
      remain. */
  lemma {:induction false} BlanksNoDouble(s: string, i: nat)
    requires i <= |s|
    ensures NoRun(SqueezeBlanks(s, i), ' ', 2)
    decreases |s| - i
  {
    var r := SqueezeBlanks(s, i);
    if i < |s| {
      var n := Run(s, i, Blank);
      if n >= 1 {
        BlanksNoDouble(s, i + n);
        var rest := SqueezeBlanks(s, i + n);
        assert r == " " + rest && r[1..] == rest;
        if i + n < |s| {
          BlanksHead(s, i + n);
          assert r[1] == rest[0] != ' ';
        }
      } else {
        BlanksNoDouble(s, i + 1);
        assert r == [s[i]] + SqueezeBlanks(s, i + 1) && r[1..] == SqueezeBlanks(s, i + 1);
        assert r[0] == s[i] != ' ';
      }
    }
  }

  /** No `n` copies of `c` start anywhere in a text with no such run. */
  lemma {:induction false} NoRunAt(t: string, c: char, n: nat, a: nat)
    requires a <= |t| && NoRun(t, c, n)
    ensures !StartsWithRun(t[a..], c, n)
  {
    NoRunDrop(t, c, n, a);
  }

  /** The blank pass creates no run of three newlines: newlines pass it one
      for one and a run of blanks becomes a space between them. */
  lemma {:induction false} BlanksNoTriple(s: string, i: nat)
    requires i <= |s| && NoRun(s, '\n', 3)
    ensures NoRun(SqueezeBlanks(s, i), '\n', 3)
    decreases |s| - i
  {
    var r := SqueezeBlanks(s, i);
    if i < |s| {
      var n := Run(s, i, Blank);
      if n >= 1 {
        BlanksNoTriple(s, i + n);
        var rest := SqueezeBlanks(s, i + n);
        assert r == " " + rest && r[1..] == rest && r[0] == ' ';
      } else {
        BlanksNoTriple(s, i + 1);
        var rest := SqueezeBlanks(s, i + 1);
        assert r == [s[i]] + rest && r[1..] == rest && r[0] == s[i];
        if s[i] == '\n' {
          if i + 1 == |s| {
            assert |r| == 1;
          } else if s[i + 1] != '\n' {
            BlanksHead(s, i + 1);
            assert r[1] == rest[0] != '\n';
          } else if i + 2 == |s| {
            BlanksHead(s, i + 1);
            assert |r| == 2;
          } else {
            NoRunAt(s, '\n', 3, i);
            assert s[i..][2] == s[i + 2] != '\n';
            BlanksHead(s, i + 1);
            BlanksHead(s, i + 2);
            assert r[2] == rest[1] == SqueezeBlanks(s, i + 2)[0] != '\n';
          }
        }
      }
    }
  }

  /** The blank pass and `trim` leave no tab, no two spaces in a row, no
      whitespace at either end, and neither a `|` nor three newlines in a row
      where the input had none. */
  lemma {:induction false} BlanksThenTrim(s16: string)
    requires '|' !in s16 && NoRun(s16, '\n', 3)
    ensures var r := Trim(Apply(Blanks, s16));
            '|' !in r && '\t' !in r && NoRun(r, ' ', 2) && NoRun(r, '\n', 3) &&
            (r != [] ==> !IsSpace(r[0]) && !IsSpace(r[|r| - 1]))
  {
    var s17 := Apply(Blanks, s16);
    BlanksAgree(s16, 0);
    BlanksNoTab(s16, 0);
    BlanksNoDouble(s16, 0);
    BlanksNoTriple(s16, 0);
    RewriteAddsNothing(Blanks, s16, '|');
    var r := Trim(s17);
    var a := TrimOffset(s17);
    assert r == s17[a..][..|r|];
    NoRunDrop(s17, ' ', 2, a);
    NoRunTake(s17[a..], ' ', 2, |r|);
    NoRunDrop(s17, '\n', 3, a);
    NoRunTake(s17[a..], '\n', 3, |r|);
  }

  /** The table, blank-line and blank passes followed by `trim` leave no `|`,
      no tab, no two spaces in a row, no three newlines in a row and no
      whitespace at either end. */
  lemma {:induction false} FinalPassesClean(s13: string)
    ensures var s14 := Apply(Pipe, s13);
            var s15 := Apply(TableRule, s14);
            var s16 := Apply(BlankLines, s15);
            var r := Trim(Apply(Blanks, s16));
            '|' !in r && '\t' !in r && NoRun(r, ' ', 2) && NoRun(r, '\n', 3) &&
            (r != [] ==> !IsSpace(r[0]) && !IsSpace(r[|r| - 1]))
  {
    var s14 := Apply(Pipe, s13);
    var s15 := Apply(TableRule, s14);
    PipesReplaced(s13, 0);
    RewriteAddsNothing(TableRule, s14, '|');
    RewriteAddsNothing(BlankLines, s15, '|');
    BlankLinesAgree(s15, 0);
    BlankLinesSqueezed(s15, 0);
    BlanksThenTrim(Apply(BlankLines, s15));
  }

  // ---------------------------------------------------------------------------
  // Fenced blocks, links and images
  // ---------------------------------------------------------------------------

  /** Text without a backtick passes the fence pass unchanged. */
  lemma {:induction false} FencePrefix(s: string, j: nat, i: nat)
    requires j <= i <= |s| && forall m | j <= m < i :: s[m] != '`'
    ensures Rewrite(Fence, s, j) == s[j..i] + Rewrite(Fence, s, i)
    decreases i - j
  {
    if j < i {
      FencePrefix(s, j + 1, i);
      assert s[j..i] == [s[j]] + s[j + 1..i];
    }
  }

  /** A fenced block is removed with everything up to and including the
      first closing fence after it. */
  lemma {:induction false} FenceBlockRemoved(s: string, i: nat, k: nat)
    requires FenceAt(s, i) && i + 3 <= k && FenceAt(s, k)
    requires forall m | 0 <= m < i :: s[m] != '`'
    requires forall m | i + 3 <= m < k :: !FenceAt(s, m)
    ensures Apply(Fence, s) == s[..i] + Rewrite(Fence, s, k + 3)
  {
    FencePrefix(s, 0, i);
    var f := FenceFrom(s, i + 3);
    assert f.Some?;
    assert !(f.value < k) && !(k < f.value);
  }

  /** The link pass matches where the link expression does. */
  lemma {:induction false} LinkMatcherAt(s: string, i: nat)
    requires i < |s|
    ensures Matcher(Link, s)(i) == MatchLink(s, i)
  {
  }

  /** The link pass turns an image `![a](u)` into `!a`: it reads the bracket
      after the `!` as a link. */
  lemma {:induction false} LinkTakesImage(a: string, u: string)
    requires a != [] && ']' !in a && u != [] && ')' !in u
    ensures Apply(Link, "![" + a + "](" + u + ")") == "!" + a
  {
    var s := "![" + a + "](" + u + ")";
    var k := 2 + |a|;
    var e := k + 2 + |u|;
    assert s[1] == '[' && s[k] == ']' && s[k + 1] == '(' && s[e] == ')';
    assert forall m | 2 <= m < k :: s[m] == a[m - 2];
    assert forall m | k + 2 <= m < e :: s[m] == u[m - k - 2];
    IndexOfAt(s, ']', 2, k);
    IndexOfAt(s, ')', k + 2, e);
    assert s[2..k] == a;
    var m := Matcher(Link, s);
    LinkMatcherAt(s, 0);
    LinkMatcherAt(s, 1);
    assert m(0) == MatchLink(s, 0) == None;
    assert m(1) == MatchLink(s, 1) == Some(Match(e, a));
    assert Scan(s, e + 1, Literal(Link), m) == [];
    assert Scan(s, 1, Literal(Link), m) == a;
  }

  /** A scan that matches nowhere in `s[i..]` leaves it unchanged. */
  lemma {:induction false} ScanNoMatch(s: string, i: nat, lit: string, m: nat -> Option<Match>)
    requires i <= |s| && Sound(s, lit, m) && forall j | i <= j < |s| :: m(j).None?
    ensures Scan(s, i, lit, m) == s[i..]
    decreases |s| - i
  {
    if i < |s| {
      ScanNoMatch(s, i + 1, lit, m);
    }
  }

  /** After the link pass has taken the bracket, the image pass has nothing
      left to match: text without `[` passes it unchanged. */
  lemma {:induction false} ImageNeedsBracket(s: string)
    requires '[' !in s
    ensures Apply(Image, s) == s
  {
    forall j | 0 <= j < |s|
      ensures MatchImage(s, j).None?
    {
      if j + 1 < |s| {
        assert s[j + 1] != '[';
      }
    }
    ScanNoMatch(s, 0, Literal(Image), Matcher(Image, s));
  }
}
