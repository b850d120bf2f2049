/** `convertToWhatsappMarkdown` (api/index.ts:167-182): five global regular-expression
    replacements applied in turn, each written as the left-to-right scan that a
    JavaScript `replace` with the `g` flag performs. */
module Markdown {
  import opened Wrappers
  import opened Seqs

  /** The characters JavaScript's `\s` matches: the ECMAScript WhiteSpace
      (tab, vertical tab, form feed, no-break space, zero-width no-break space and
      the Unicode space separators) and LineTerminator (LF, CR, LS, PS) sets. */
  const Whitespace: set<char> := {
    '\t', '\n', '\U{000B}', '\U{000C}', '\r', ' ', '\U{00A0}', '\U{1680}',
    '\U{2000}', '\U{2001}', '\U{2002}', '\U{2003}', '\U{2004}', '\U{2005}',
    '\U{2006}', '\U{2007}', '\U{2008}', '\U{2009}', '\U{200A}',
    '\U{2028}', '\U{2029}', '\U{202F}', '\U{205F}', '\U{3000}', '\U{FEFF}'
  }

  predicate IsWhitespace(c: char) {
    c in Whitespace
  }

  /** A pattern of the form `F([^d]+)F`, where the fence `F` repeats the delimiter
      `d`, replaced by `R$1R`. */
  datatype Rule = Rule(delim: char, fence: string, replacement: string)

  /** Fence and replacement are non-empty runs of the delimiter. */
  predicate WellFormed(rule: Rule) {
    && 1 <= |rule.fence|
    && (forall i :: 0 <= i < |rule.fence| ==> rule.fence[i] == rule.delim)
    && (forall i :: 0 <= i < |rule.replacement| ==> rule.replacement[i] == rule.delim)
  }

  // `/\*\*([^*]+)\*\*/g` to `*$1*`
  const Bold: Rule := Rule('*', "**", "*")
  // `/__([^_]+)__/g` to `_$1_`
  const Italic: Rule := Rule('_', "__", "_")
  // `/~~([^~]+)~~/g` to `~$1~`
  const Strike: Rule := Rule('~', "~~", "~")
  // `` /`([^`]+)`/g `` to ```` ```$1``` ````
  const Monospace: Rule := Rule('`', "`", "```")

  /** The four delimiter rules in the order they are applied. */
  const Rules: seq<Rule> := [Bold, Italic, Strike, Monospace]

  const Delimiters: set<char> := {'*', '_', '~', '`'}

  /** Every character either pass may add, drop or move. */
  const Markup: set<char> := Delimiters + Whitespace

  /** Length of the longest prefix of `s` free of `d`: what greedy `[^d]+` consumes. */
  function RunLength(s: string, d: char): (n: nat)
    ensures n <= |s|
    ensures forall i :: 0 <= i < n ==> s[i] != d
    ensures n < |s| ==> s[n] == d
  {
    if |s| == 0 || s[0] == d then 0 else 1 + RunLength(s[1..], d)
  }

  /** The rule's pattern matches at the start of `s` with a capture of length `n`. */
  predicate MatchesAt(s: string, rule: Rule, n: nat) {
    var f := |rule.fence|;
    && 1 <= n
    && 2 * f + n <= |s|
    && s[..f] == rule.fence
    && (forall i :: f <= i < f + n ==> s[i] != rule.delim)
    && s[f + n..2 * f + n] == rule.fence
  }

  /** The anchored match of the rule at the start of `s`, as the capture length. */
  function MatchAt(s: string, rule: Rule): (m: Option<nat>)
    requires WellFormed(rule)
    ensures m.Some? ==> 1 <= m.value && 2 * |rule.fence| + m.value <= |s|
    ensures m.Some? ==> s[0] == rule.delim
  {
    var f := |rule.fence|;
    if f <= |s| && s[..f] == rule.fence then
      var n := RunLength(s[f..], rule.delim);
      if 1 <= n && 2 * f + n <= |s| && s[f + n..2 * f + n] == rule.fence then Some(n) else None
    else
      None
  }

  /** `MatchAt` finds the match exactly when there is one; because the captured
      class excludes the delimiter, at most one capture length fits. */
  lemma {:induction false} MatchAtCorrect(s: string, rule: Rule)
    requires WellFormed(rule)
    ensures forall n: nat :: MatchesAt(s, rule, n) <==> MatchAt(s, rule) == Some(n)
  {
    var f := |rule.fence|;
    if f <= |s| && s[..f] == rule.fence {
      var n := RunLength(s[f..], rule.delim);
      forall n': nat | MatchesAt(s, rule, n')
        ensures n' == n
      {
        assert s[f..][n'] == s[f + n'] == rule.fence[0];
        RunLengthAt(s[f..], rule.delim, n');
      }
      if 1 <= n && 2 * f + n <= |s| && s[f + n..2 * f + n] == rule.fence {
        assert MatchesAt(s, rule, n);
      }
    }
  }

  /** The run ends at the first occurrence of the delimiter. */
  lemma RunLengthAt(s: string, d: char, k: nat)
    requires k < |s| && s[k] == d
    requires forall i :: 0 <= i < k ==> s[i] != d
    ensures RunLength(s, d) == k
  {
  }

  /** The left-to-right scan of a global `replace`: replace the match that starts
      here and resume after it, or copy one character and move on. */
  function Scan(s: string, rule: Rule): string
    requires WellFormed(rule)
    decreases |s|
  {
    if |s| == 0 then ""
    else if MatchAt(s, rule).Some? then
      var n := MatchAt(s, rule).value;
      Spliced(s, rule, n, Scan(s[2 * |rule.fence| + n..], rule))
    else
      [s[0]] + Scan(s[1..], rule)
  }

  /** `s.replace(pattern, "R$1R")` with the `g` flag. Text free of the delimiter
      holds no match and passes unchanged. */
  function ReplaceAll(s: string, rule: Rule): (r: string)
    requires WellFormed(rule)
    ensures rule.delim !in s ==> r == s
  {
    ScanWithoutDelim(s, rule);
    Scan(s, rule)
  }

  /** The match of capture length `n` at the start of `s` replaced, then the scan
      resumed after it. */
  function Spliced(s: string, rule: Rule, n: nat, out: string): string
    requires 1 <= n && 2 * |rule.fence| + n <= |s|
  {
    var f := |rule.fence|;
    rule.replacement + s[f..f + n] + rule.replacement + out
  }

  /** `/\s\s\n/` matches at index `i`. */
  predicate SoftBreakAt(s: string, i: int) {
    0 <= i && i + 2 < |s| && IsWhitespace(s[i]) && IsWhitespace(s[i + 1]) && s[i + 2] == '\n'
  }

  predicate NoSoftBreak(s: string) {
    forall i :: 0 <= i < |s| ==> !SoftBreakAt(s, i)
  }

  /** `s.replace(/\s\s\n/g, "\n")`. */
  function ReplaceSoftBreaks(s: string): (r: string)
    ensures |r| <= |s|
  {
    if |s| == 0 then ""
    else if SoftBreakAt(s, 0) then "\n" + ReplaceSoftBreaks(s[3..])
    else [s[0]] + ReplaceSoftBreaks(s[1..])
  }

  /** Applies the delimiter rules one after the other. */
  function ApplyRules(s: string, rules: seq<Rule>): (r: string)
    requires forall j :: 0 <= j < |rules| ==> WellFormed(rules[j])
    ensures (forall j :: 0 <= j < |rules| ==> rules[j].delim !in s) ==> r == s
    decreases |rules|
  {
    if |rules| == 0 then s else ApplyRules(ReplaceAll(s, rules[0]), rules[1..])
  }

  /** `convertToWhatsappMarkdown`: `undefined` and the empty string give `""`;
      otherwise bold, italic, strikethrough and monospace, then the soft line breaks. */
  function Convert(text: Option<string>): (r: string)
    ensures text.None? ==> r == ""
    ensures text == Some("") ==> r == ""
  {
    match text
    case None => ""
    case Some(s) =>
      if s == "" then ""
      else
        AllRulesWellFormed();
        ReplaceSoftBreaks(ApplyRules(s, Rules))
  }

  /** `s` with the characters of `cs` removed. */
  function Strip(s: string, cs: set<char>): string {
    Filter(s, NotIn(cs))
  }

  function NotIn(cs: set<char>): char -> bool {
    (c: char) => c !in cs
  }

  // ---- The delimiter rules ----

  /** The scan copies text without the delimiter. */
  lemma {:induction false} ScanWithoutDelim(s: string, rule: Rule)
    requires WellFormed(rule)
    ensures rule.delim !in s ==> Scan(s, rule) == s
  {
    if |s| > 0 && rule.delim !in s {
      assert MatchAt(s, rule).None?;
      assert rule.delim !in s[1..];
      ScanWithoutDelim(s[1..], rule);
    }
  }

  /** One step of the scan when the pattern matches at the start. */
  lemma {:induction false} ScanMatch(s: string, rule: Rule, n: nat)
    requires WellFormed(rule) && MatchesAt(s, rule, n)
    ensures Scan(s, rule) == Spliced(s, rule, n, Scan(s[2 * |rule.fence| + n..], rule))
  {
    MatchAtCorrect(s, rule);
    ScanStep(s, rule, n);
  }

  lemma {:induction false} ScanStep(s: string, rule: Rule, n: nat)
    requires WellFormed(rule) && |s| > 0 && MatchAt(s, rule) == Some(n)
    ensures Scan(s, rule) == Spliced(s, rule, n, Scan(s[2 * |rule.fence| + n..], rule))
  {
  }

  /** A fenced, delimiter-free, non-empty span is a match of its rule. */
  lemma {:induction false} SpanMatches(rule: Rule, x: string)
    requires WellFormed(rule)
    requires 1 <= |x| && forall i :: 0 <= i < |x| ==> x[i] != rule.delim
    ensures MatchesAt(rule.fence + x + rule.fence, rule, |x|)
  {
    var s := rule.fence + x + rule.fence;
    var f := |rule.fence|;
    assert s[..f] == rule.fence;
    assert s[f + |x|..2 * f + |x|] == rule.fence;
  }

  /** A fenced, delimiter-free, non-empty span becomes the replacement-fenced span. */
  lemma {:induction false} ReplaceAllSpan(rule: Rule, x: string)
    requires WellFormed(rule)
    requires 1 <= |x| && forall i :: 0 <= i < |x| ==> x[i] != rule.delim
    ensures ReplaceAll(rule.fence + x + rule.fence, rule) == rule.replacement + x + rule.replacement
  {
    var s := rule.fence + x + rule.fence;
    var f := |rule.fence|;
    SpanMatches(rule, x);
    ScanMatch(s, rule, |x|);
    assert s[f..f + |x|] == x;
    assert s[2 * f + |x|..] == [];
  }

  /** The delimiter rules change nothing but delimiter characters: removing any
      set of characters that includes the delimiter gives the same text before
      and after. */
  lemma {:induction false} ReplaceAllKeepsText(s: string, rule: Rule, cs: set<char>)
    requires WellFormed(rule) && rule.delim in cs
    ensures Strip(ReplaceAll(s, rule), cs) == Strip(s, cs)
  {
    ScanKeepsText(s, rule, cs);
  }

  lemma {:induction false} ScanKeepsText(s: string, rule: Rule, cs: set<char>)
    requires WellFormed(rule) && rule.delim in cs
    ensures Strip(Scan(s, rule), cs) == Strip(s, cs)
    decreases |s|
  {
    if |s| > 0 {
      match MatchAt(s, rule)
      case Some(n) =>
        MatchAtCorrect(s, rule);
        ScanKeepsText(s[2 * |rule.fence| + n..], rule, cs);
        MatchKeepsText(s, rule, cs, n);
      case None =>
        var keep := NotIn(cs);
        assert s == [s[0]] + s[1..];
        ScanKeepsText(s[1..], rule, cs);
        FilterAppend([s[0]], s[1..], keep);
        FilterAppend([s[0]], Scan(s[1..], rule), keep);
    }
  }

  /** The step of `ScanKeepsText` where the pattern matches at the start. */
  lemma {:induction false} MatchKeepsText(s: string, rule: Rule, cs: set<char>, n: nat)
    requires WellFormed(rule) && rule.delim in cs && MatchesAt(s, rule, n)
    requires Strip(Scan(s[2 * |rule.fence| + n..], rule), cs) == Strip(s[2 * |rule.fence| + n..], cs)
    ensures Strip(Scan(s, rule), cs) == Strip(s, cs)
  {
    MatchStrip(s, rule, cs, n);
    ReplacedMatchStrip(s, rule, cs, n);
  }

  /** Stripping a match leaves the stripped capture followed by the stripped rest. */
  lemma {:induction false} MatchStrip(s: string, rule: Rule, cs: set<char>, n: nat)
    requires WellFormed(rule) && rule.delim in cs && MatchesAt(s, rule, n)
    ensures Strip(s, cs)
         == Strip(s[|rule.fence|..|rule.fence| + n], cs) + Strip(s[2 * |rule.fence| + n..], cs)
  {
    MatchSplit(s, rule, n);
    StripFramedAppend(rule.fence, s[|rule.fence|..|rule.fence| + n], s[2 * |rule.fence| + n..], cs);
  }

  /** Stripping the replaced match leaves the same capture followed by the stripped,
      replaced rest. */
  lemma {:induction false} ReplacedMatchStrip(s: string, rule: Rule, cs: set<char>, n: nat)
    requires WellFormed(rule) && rule.delim in cs && MatchesAt(s, rule, n)
    ensures Strip(Scan(s, rule), cs)
         == Strip(s[|rule.fence|..|rule.fence| + n], cs) + Strip(Scan(s[2 * |rule.fence| + n..], rule), cs)
  {
    ScanMatch(s, rule, n);
    SplicedStrip(s, rule, cs, n, Scan(s[2 * |rule.fence| + n..], rule));
  }

  lemma {:induction false} SplicedStrip(s: string, rule: Rule, cs: set<char>, n: nat, out: string)
    requires WellFormed(rule) && rule.delim in cs && 1 <= n && 2 * |rule.fence| + n <= |s|
    ensures Strip(Spliced(s, rule, n, out), cs) == Strip(s[|rule.fence|..|rule.fence| + n], cs) + Strip(out, cs)
  {
    StripFramedAppend(rule.replacement, s[|rule.fence|..|rule.fence| + n], out, cs);
  }

  /** A match splits the text into fence, capture, fence and the rest. */
  lemma {:induction false} MatchSplit(s: string, rule: Rule, n: nat)
    requires MatchesAt(s, rule, n)
    ensures s == rule.fence + s[|rule.fence|..|rule.fence| + n] + rule.fence + s[2 * |rule.fence| + n..]
  {
    var f := |rule.fence|;
    assert s == s[..f] + s[f..f + n] + s[f + n..2 * f + n] + s[2 * f + n..];
  }

  /** Removing a frame's characters from framed text followed by more text. */
  lemma {:induction false} StripFramedAppend(d: string, x: string, y: string, cs: set<char>)
    requires forall i :: 0 <= i < |d| ==> d[i] in cs
    ensures Strip(d + x + d + y, cs) == Strip(x, cs) + Strip(y, cs)
  {
    FilterAppend(d + x + d, y, NotIn(cs));
    StripFrame(d, x, cs);
  }

  /** Removing the frame's characters removes the frame. */
  lemma {:induction false} StripFrame(d: string, x: string, cs: set<char>)
    requires forall i :: 0 <= i < |d| ==> d[i] in cs
    ensures Strip(d + x + d, cs) == Strip(x, cs)
  {
    var keep := NotIn(cs);
    FilterDropsAll(d, keep);
    FilterAppend(d + x, d, keep);
    FilterAppend(d, x, keep);
  }

  // ---- The soft line breaks ----

  /** Text without a whitespace-whitespace-newline triple passes through unchanged. */
  lemma {:induction false} ReplaceSoftBreaksNone(s: string)
    requires NoSoftBreak(s)
    ensures ReplaceSoftBreaks(s) == s
  {
    if |s| > 0 {
      assert !SoftBreakAt(s, 0);
      forall i
        ensures !SoftBreakAt(s[1..], i)
      {
        assert !SoftBreakAt(s, i + 1);
      }
      ReplaceSoftBreaksNone(s[1..]);
    }
  }

  /** With whitespace removed, input and output of the soft-break pass read the same. */
  lemma {:induction false} ReplaceSoftBreaksKeepsText(s: string, cs: set<char>)
    requires Whitespace <= cs
    ensures Strip(ReplaceSoftBreaks(s), cs) == Strip(s, cs)
  {
    if |s| > 0 {
      var keep := NotIn(cs);
      if SoftBreakAt(s, 0) {
        assert s == s[..3] + s[3..];
        FilterDropsAll(s[..3], keep);
        FilterDropsAll("\n", keep);
        ReplaceSoftBreaksKeepsText(s[3..], cs);
        FilterAppend(s[..3], s[3..], keep);
        FilterAppend("\n", ReplaceSoftBreaks(s[3..]), keep);
      } else {
        assert s == [s[0]] + s[1..];
        ReplaceSoftBreaksKeepsText(s[1..], cs);
        FilterAppend([s[0]], s[1..], keep);
        FilterAppend([s[0]], ReplaceSoftBreaks(s[1..]), keep);
      }
    }
  }

  // ---- The whole reformatter ----

  lemma {:induction false} AllRulesWellFormed()
    ensures forall j :: 0 <= j < |Rules| ==> WellFormed(Rules[j]) && Rules[j].delim in Delimiters
    ensures forall j, k :: 0 <= j < k < |Rules| ==> Rules[j].delim != Rules[k].delim
  {
  }

  /** A fenced span of plain text is rewritten by its own rule and left alone by
      the others, provided the rules' delimiters are distinct. */
  lemma {:induction false} ApplyRulesSpan(rules: seq<Rule>, k: nat, x: string)
    requires forall j :: 0 <= j < |rules| ==> WellFormed(rules[j])
    requires k < |rules|
    requires forall j :: 0 <= j < |rules| && j != k ==> rules[j].delim != rules[k].delim
    requires 1 <= |x|
    requires forall j, i :: 0 <= j < |rules| && 0 <= i < |x| ==> x[i] != rules[j].delim
    ensures ApplyRules(rules[k].fence + x + rules[k].fence, rules)
         == rules[k].replacement + x + rules[k].replacement
    decreases k
  {
    var rule := rules[k];
    if k == 0 {
      ReplaceAllSpan(rule, x);
      var t := rule.replacement + x + rule.replacement;
      forall j | 1 <= j < |rules|
        ensures forall i :: 0 <= i < |t| ==> t[i] != rules[j].delim
      {
        FramedWithout(rule.replacement, x, rules[j].delim);
      }
    } else {
      Untouched(rule.fence, x, rules[0]);
      ApplyRulesSpan(rules[1..], k - 1, x);
    }
  }

  /** The delimiter rules together change only delimiter characters. */
  lemma {:induction false} ApplyRulesKeepsText(s: string, rules: seq<Rule>, cs: set<char>)
    requires forall j :: 0 <= j < |rules| ==> WellFormed(rules[j]) && rules[j].delim in cs
    ensures Strip(ApplyRules(s, rules), cs) == Strip(s, cs)
    decreases |rules|
  {
    if |rules| > 0 {
      ReplaceAllKeepsText(s, rules[0], cs);
      ApplyRulesKeepsText(ReplaceAll(s, rules[0]), rules[1..], cs);
    }
  }

  /** Text with no markup delimiters and no soft line break. */
  predicate Plain(s: string) {
    (forall i :: 0 <= i < |s| ==> s[i] !in Delimiters) && NoSoftBreak(s)
  }

  /** Plain text is returned unchanged. */
  lemma {:induction false} ConvertPlain(s: string)
    requires Plain(s)
    ensures Convert(Some(s)) == s
  {
    if s != "" {
      AllRulesWellFormed();
      ReplaceSoftBreaksNone(s);
    }
  }

  /** `**x**`, `__x__`, `~~x~~` and `` `x` `` become `*x*`, `_x_`, `~x~` and
      ```` ```x``` ```` for plain non-empty `x`. */
  lemma {:induction false} ConvertSpan(k: nat, x: string)
    requires k < |Rules|
    requires 1 <= |x| && Plain(x)
    ensures Convert(Some(Rules[k].fence + x + Rules[k].fence)) == Rules[k].replacement + x + Rules[k].replacement
  {
    var rule := Rules[k];
    AllRulesWellFormed();
    ApplyRulesSpan(Rules, k, x);
    assert forall i :: 0 <= i < |rule.replacement| ==> rule.replacement[i] in Delimiters;
    FramedNoSoftBreak(rule.replacement, x);
    ReplaceSoftBreaksNone(rule.replacement + x + rule.replacement);
  }

  lemma {:induction false} ConvertBold(x: string)
    requires 1 <= |x| && Plain(x)
    ensures Convert(Some("**" + x + "**")) == "*" + x + "*"
  {
    ConvertSpan(0, x);
  }

  lemma {:induction false} ConvertItalic(x: string)
    requires 1 <= |x| && Plain(x)
    ensures Convert(Some("__" + x + "__")) == "_" + x + "_"
  {
    ConvertSpan(1, x);
  }

  lemma {:induction false} ConvertStrike(x: string)
    requires 1 <= |x| && Plain(x)
    ensures Convert(Some("~~" + x + "~~")) == "~" + x + "~"
  {
    ConvertSpan(2, x);
  }

  lemma {:induction false} ConvertMonospace(x: string)
    requires 1 <= |x| && Plain(x)
    ensures Convert(Some("`" + x + "`")) == "```" + x + "```"
  {
    ConvertSpan(3, x);
  }

  /** Framing text with delimiter characters creates no soft line break. */
  lemma {:induction false} FramedNoSoftBreak(d: string, x: string)
    requires forall i :: 0 <= i < |d| ==> d[i] in Delimiters
    requires NoSoftBreak(x)
    ensures NoSoftBreak(d + x + d)
  {
    var s := d + x + d;
    forall i | SoftBreakAt(s, i)
      ensures false
    {
      if |d| <= i && i + 2 < |d| + |x| {
        assert SoftBreakAt(x, i - |d|);
      }
    }
  }

  /** A framed text free of a rule's delimiter passes that rule unchanged. */
  lemma {:induction false} Untouched(d: string, x: string, rule: Rule)
    requires WellFormed(rule)
    requires forall i :: 0 <= i < |d| ==> d[i] != rule.delim
    requires forall i :: 0 <= i < |x| ==> x[i] != rule.delim
    ensures ReplaceAll(d + x + d, rule) == d + x + d
  {
    FramedWithout(d, x, rule.delim);
  }

  /** A character absent from a frame and its content is absent from the framed text. */
  lemma {:induction false} FramedWithout(d: string, x: string, c: char)
    requires forall i :: 0 <= i < |d| ==> d[i] != c
    requires forall i :: 0 <= i < |x| ==> x[i] != c
    ensures forall i :: 0 <= i < |d + x + d| ==> (d + x + d)[i] != c
  {
  }

  /** Two whitespace characters followed by a newline collapse to the newline. */
  lemma {:induction false} ConvertSoftBreak(c1: char, c2: char)
    requires IsWhitespace(c1) && IsWhitespace(c2)
    ensures Convert(Some([c1, c2, '\n'])) == "\n"
  {
    var s := [c1, c2, '\n'];
    AllRulesWellFormed();
    assert forall j :: 0 <= j < |Rules| ==> Rules[j].delim !in s;
    assert ApplyRules(s, Rules) == s;
    assert SoftBreakAt(s, 0);
    assert s[3..] == [];
    assert ReplaceSoftBreaks(s) == "\n" + ReplaceSoftBreaks([]);
  }

  /** The reformatter changes only delimiters and whitespace: with those removed,
      its output and its input read the same. */
  lemma {:induction false} ConvertKeepsText(s: string)
    ensures Strip(Convert(Some(s)), Markup) == Strip(s, Markup)
  {
    if s != "" {
      AllRulesWellFormed();
      ApplyRulesKeepsText(s, Rules, Markup);
      ReplaceSoftBreaksKeepsText(ApplyRules(s, Rules), Markup);
    }
  }
}
