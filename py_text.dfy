/**
 * The Python string operations the markdown tooling relies on, with their
 * edge cases: `str.isspace`/`strip`, `splitlines`, `startswith`/`endswith`,
 * `split(sep)[k]`, `replace`, and the wiki-link scan `[[target]]` performed by
 * `re.findall(r'\[\[([^\]]+)\]\]', text)`.
 */
module PyText {
  import opened Wrappers

  /** `str.isspace` for one character. */
  predicate IsSpace(c: char) {
    ('\t' <= c <= '\r') || ('\U{1C}' <= c <= ' ') || c == '\U{85}' || c == '\U{A0}' ||
    c == '\U{1680}' || ('\U{2000}' <= c <= '\U{200A}') || c == '\U{2028}' || c == '\U{2029}' ||
    c == '\U{202F}' || c == '\U{205F}' || c == '\U{3000}'
  }

  /** A line boundary of `str.splitlines` (`\r\n` counts as one, see `SplitLines`). */
  predicate IsLineBreak(c: char) {
    c == '\n' || c == '\r' || c == '\U{0B}' || c == '\U{0C}' || ('\U{1C}' <= c <= '\U{1E}') ||
    c == '\U{85}' || c == '\U{2028}' || c == '\U{2029}'
  }

  predicate IsBlank(s: string) {
    forall i :: 0 <= i < |s| ==> IsSpace(s[i])
  }

  /** The end of the run of whitespace starting at `from`. */
  function SkipSpace(s: string, from: nat): (k: nat)
    requires from <= |s|
    ensures from <= k <= |s| && (k < |s| ==> !IsSpace(s[k]))
    ensures forall j :: from <= j < k ==> IsSpace(s[j])
    decreases |s| - from
  {
    if from == |s| || !IsSpace(s[from]) then from else SkipSpace(s, from + 1)
  }

  /** The start of the run of whitespace ending at `hi`, not going below `low`. */
  function SkipSpaceBack(s: string, low: nat, hi: nat): (k: nat)
    requires low <= hi <= |s|
    ensures low <= k <= hi && (k > low ==> !IsSpace(s[k - 1]))
    ensures forall j :: k <= j < hi ==> IsSpace(s[j])
    decreases hi - low
  {
    if hi == low || !IsSpace(s[hi - 1]) then hi else SkipSpaceBack(s, low, hi - 1)
  }

  /**
   * `str.strip()`: the text with the whitespace at both ends removed; what is
   * left neither starts nor ends with whitespace.
   */
  function Strip(s: string): (r: string)
    ensures |r| <= |s|
    ensures |r| > 0 ==> !IsSpace(r[0]) && !IsSpace(r[|r| - 1])
    ensures exists a, b :: 0 <= a <= b <= |s| && r == s[a..b] && IsBlank(s[..a]) && IsBlank(s[b..])
  {
    var a := SkipSpace(s, 0);
    var b := SkipSpaceBack(s, a, |s|);
    assert IsBlank(s[..a]) && IsBlank(s[b..]);
    s[a..b]
  }

  /** `not s.strip()`: the text is empty or whitespace only. */
  lemma StripEmptyIffBlank(s: string)
    ensures Strip(s) == "" <==> IsBlank(s)
  {
    var a := SkipSpace(s, 0);
    var b := SkipSpaceBack(s, a, |s|);
    if Strip(s) == "" {
      assert b == a;
      assert forall j :: 0 <= j < |s| ==> (j < a ==> IsSpace(s[j])) && (j >= a ==> IsSpace(s[j]));
    }
  }

  predicate StartsWith(s: string, prefix: string) {
    |prefix| <= |s| && s[..|prefix|] == prefix
  }

  predicate EndsWith(s: string, suffix: string) {
    |suffix| <= |s| && s[|s| - |suffix|..] == suffix
  }

  predicate OccursAt(s: string, pat: string, k: nat) {
    k + |pat| <= |s| && s[k..k + |pat|] == pat
  }

  /** The first index at or after `from` where `pat` occurs (`str.find`). */
  function IndexOf(s: string, pat: string, from: nat): (r: Option<nat>)
    requires |pat| > 0
    ensures r.Some? ==> from <= r.value && OccursAt(s, pat, r.value)
    ensures r.Some? ==> forall k :: from <= k < r.value ==> !OccursAt(s, pat, k)
    ensures r.None? ==> forall k :: from <= k ==> !OccursAt(s, pat, k)
    decreases |s| - from
  {
    if from + |pat| > |s| then None
    else if s[from..from + |pat|] == pat then Some(from)
    else IndexOf(s, pat, from + 1)
  }

  /**
   * `s.split(sep)[0]`: the text before the first separator, or all of it. The
   * field never holds the separator, and when there is one it follows the field;
   * no occurrence of the separator starts inside the field, which pins the field
   * even for a separator that overlaps itself, such as `"::"`.
   */
  function BeforeFirst(s: string, sep: string): (r: string)
    requires |sep| > 0
    ensures StartsWith(s, r)
    ensures IndexOf(s, sep, 0).None? <==> r == s
    ensures IndexOf(s, sep, 0).Some? ==> StartsWith(s, r + sep)
    ensures IndexOf(r, sep, 0).None?
    ensures forall j :: 0 <= j < |r| ==> !OccursAt(s, sep, j)
  {
    match IndexOf(s, sep, 0)
    case None => s
    case Some(k) =>
      PrefixBeforeFirst(s, sep, k);
      assert s[..k] + sep == s[..k + |sep|];
      s[..k]
  }

  /**
   * The contract of `BeforeFirst` pins the field: any prefix that is the whole
   * text or is followed by the separator, and inside which no occurrence
   * starts, is that field.
   */
  lemma BeforeFirstUnique(s: string, sep: string, r: string)
    requires |sep| > 0 && StartsWith(s, r)
    requires r == s || StartsWith(s, r + sep)
    requires forall j :: 0 <= j < |r| ==> !OccursAt(s, sep, j)
    ensures r == BeforeFirst(s, sep)
  {
    var f := BeforeFirst(s, sep);
    if r != s {
      assert s[|r|..|r| + |sep|] == (r + sep)[|r|..];
      assert OccursAt(s, sep, |r|);
    }
    assert r == s[..|r|] && f == s[..|f|];
  }

  /** The text before the first occurrence of `pat` does not contain `pat`. */
  lemma PrefixBeforeFirst(s: string, pat: string, k: nat)
    requires |pat| > 0 && k <= |s| && forall j :: 0 <= j < k ==> !OccursAt(s, pat, j)
    ensures IndexOf(s[..k], pat, 0).None?
  {
    forall j: nat | j + |pat| <= k ensures !OccursAt(s[..k], pat, j) {
      assert !OccursAt(s, pat, j);
      assert s[..k][j..j + |pat|] == s[j..j + |pat|];
    }
  }

  /** What follows the first separator: the text is its first field, the separator, then this. */
  function AfterFirst(s: string, sep: string): (rest: string)
    requires |sep| > 0 && IndexOf(s, sep, 0).Some?
    ensures s == BeforeFirst(s, sep) + sep + rest
  {
    var k := IndexOf(s, sep, 0).value;
    assert s == s[..k] + s[k..k + |sep|] + s[k + |sep|..];
    s[k + |sep|..]
  }

  /**
   * `s.split(sep)[1]` for a text that contains the separator: the text between
   * its first and second occurrence, or to the end when there is no second.
   * The field never holds the separator, and no occurrence of it in the rest
   * starts inside the field.
   */
  function SecondField(s: string, sep: string): (r: string)
    requires |sep| > 0 && IndexOf(s, sep, 0).Some?
    ensures var rest := AfterFirst(s, sep);
            StartsWith(rest, r) &&
            (IndexOf(rest, sep, 0).None? <==> r == rest) &&
            (IndexOf(rest, sep, 0).Some? ==> StartsWith(rest, r + sep))
    ensures IndexOf(r, sep, 0).None?
    ensures forall j :: 0 <= j < |r| ==> !OccursAt(AfterFirst(s, sep), sep, j)
  {
    BeforeFirst(AfterFirst(s, sep), sep)
  }

  /**
   * `str.replace(pat, rep)`: every occurrence, scanned left to right without
   * overlap, is replaced. A replacement of the pattern's length keeps the
   * length, and replacing the pattern by itself changes nothing.
   */
  function ReplaceAll(s: string, pat: string, rep: string): (r: string)
    requires |pat| > 0
    ensures |rep| == |pat| ==> |r| == |s|
    ensures rep == pat ==> r == s
    decreases |s|
  {
    if |s| == 0 then ""
    else if StartsWith(s, pat) then
      assert s == s[..|pat|] + s[|pat|..];
      rep + ReplaceAll(s[|pat|..], pat, rep)
    else
      assert s == [s[0]] + s[1..];
      [s[0]] + ReplaceAll(s[1..], pat, rep)
  }

  /** A text in which the pattern does not occur is left as it is by `replace`. */
  lemma {:induction false} ReplaceAbsent(s: string, pat: string, rep: string)
    requires |pat| > 0 && IndexOf(s, pat, 0).None?
    ensures ReplaceAll(s, pat, rep) == s
    decreases |s|
  {
    if |s| > 0 {
      assert !StartsWith(s, pat);
      NotFoundInSuffix(s, pat, 1);
      ReplaceAbsent(s[1..], pat, rep);
    }
  }

  /**
   * The scan of `replace`: the text before the first occurrence is kept, that
   * occurrence becomes `rep`, and the scan resumes right after it.
   */
  lemma ReplaceAtFirst(s: string, pat: string, rep: string)
    requires |pat| > 0 && IndexOf(s, pat, 0).Some?
    ensures var k := IndexOf(s, pat, 0).value;
            ReplaceAll(s, pat, rep) == s[..k] + rep + ReplaceAll(s[k + |pat|..], pat, rep)
  {
    var k := IndexOf(s, pat, 0).value;
    ReplaceKeeps(s, pat, rep, 0, k);
    assert s[0..] == s && s[0..k] == s[..k];
    assert StartsWith(s[k..], pat);
    assert s[k..][|pat|..] == s[k + |pat|..];
  }

  /** A stretch with no occurrence starting in it is copied unchanged. */
  lemma {:induction false} ReplaceKeeps(s: string, pat: string, rep: string, j: nat, k: nat)
    requires |pat| > 0 && j <= k <= |s| && forall i :: j <= i < k ==> !OccursAt(s, pat, i)
    ensures ReplaceAll(s[j..], pat, rep) == s[j..k] + ReplaceAll(s[k..], pat, rep)
    decreases k - j
  {
    if j < k {
      var t := s[j..];
      assert !StartsWith(t, pat) by {
        if StartsWith(t, pat) {
          OccursShift(s, pat, j, 0);
        }
      }
      assert t[1..] == s[j + 1..];
      assert ReplaceAll(t, pat, rep) == [s[j]] + ReplaceAll(s[j + 1..], pat, rep);
      ReplaceKeeps(s, pat, rep, j + 1, k);
      assert s[j..k] == [s[j]] + s[j + 1..k];
    }
  }

  lemma NotFoundInSuffix(s: string, pat: string, d: nat)
    requires |pat| > 0 && d <= |s| && IndexOf(s, pat, 0).None?
    ensures IndexOf(s[d..], pat, 0).None?
  {
    if IndexOf(s[d..], pat, 0).Some? {
      OccursShift(s, pat, d, IndexOf(s[d..], pat, 0).value);
    }
  }

  lemma OccursShift(s: string, pat: string, d: nat, k: nat)
    requires d <= |s| && OccursAt(s[d..], pat, k)
    ensures OccursAt(s, pat, d + k)
  {
    assert s[d..][k..k + |pat|] == s[d + k..d + k + |pat|];
  }

  /**
   * `str.splitlines()`: lines without their terminators; `\r\n` ends one line;
   * a final terminator does not start an empty line.
   */
  function SplitLines(s: string): (r: seq<string>)
    ensures forall i :: 0 <= i < |r| ==> HasNoBreak(r[i])
    ensures |s| == 0 <==> |r| == 0
    decreases |s|
  {
    if |s| == 0 then []
    else
      var k := LineEnd(s, 0);
      if k == |s| then [s]
      else
        var next := if s[k] == '\r' && k + 1 < |s| && s[k + 1] == '\n' then k + 2 else k + 1;
        [s[..k]] + SplitLines(s[next..])
  }

  predicate HasNoBreak(line: string) {
    forall j :: 0 <= j < |line| ==> !IsLineBreak(line[j])
  }

  /** Lines written out, each followed by `\n`. */
  function Terminated(lines: seq<string>): string {
    if |lines| == 0 then "" else lines[0] + "\n" + Terminated(lines[1..])
  }

  /** A break-free line ended by `\n` is the first line of the text, and the rest is split on its own. */
  lemma SplitLinesCons(line: string, rest: string)
    requires HasNoBreak(line)
    ensures SplitLines(line + "\n" + rest) == [line] + SplitLines(rest)
  {
    var s := line + "\n" + rest;
    LineEndAt(s, 0, |line|);
    assert s[..|line|] == line;
    assert s[|line| + 1..] == rest;
  }

  /** `splitlines` undoes writing lines out one per `\n`-ended line. */
  lemma {:induction false} SplitTerminated(lines: seq<string>)
    requires forall i :: 0 <= i < |lines| ==> HasNoBreak(lines[i])
    ensures SplitLines(Terminated(lines)) == lines
    decreases |lines|
  {
    if |lines| > 0 {
      SplitLinesCons(lines[0], Terminated(lines[1..]));
      SplitTerminated(lines[1..]);
    }
  }

  lemma {:induction false} LineEndAt(s: string, from: nat, k: nat)
    requires from <= k < |s| && IsLineBreak(s[k]) && forall j :: from <= j < k ==> !IsLineBreak(s[j])
    ensures LineEnd(s, from) == k
    decreases k - from
  {
    if from < k {
      LineEndAt(s, from + 1, k);
    }
  }

  /** The index of the first line break at or after `from`, or the length. */
  function LineEnd(s: string, from: nat): (k: nat)
    requires from <= |s|
    ensures from <= k <= |s| && (k < |s| ==> IsLineBreak(s[k]))
    ensures forall j :: from <= j < k ==> !IsLineBreak(s[j])
    decreases |s| - from
  {
    if from == |s| || IsLineBreak(s[from]) then from else LineEnd(s, from + 1)
  }

  // ---------------------------------------------------------------------------
  // Wiki links

  /** The end of the run of non-`]` characters starting at `from`. */
  function RunEnd(s: string, from: nat): (k: nat)
    requires from <= |s|
    ensures from <= k <= |s| && (k < |s| ==> s[k] == ']')
    ensures forall j :: from <= j < k ==> s[j] != ']'
    decreases |s| - from
  {
    if from == |s| || s[from] == ']' then from else RunEnd(s, from + 1)
  }

  /**
   * Whether `[[X]]` matches at the start of `s`: `[[`, then the longest run of
   * one or more non-`]` characters, then `]]` (a shorter run cannot be
   * followed by `]`, so the regular expression's backtracking finds nothing
   * more). The result is the end of the run.
   */
  function LinkAt(s: string): (r: Option<nat>)
    ensures r.Some? ==> 2 < r.value && r.value + 2 <= |s| &&
                        s[..2] == "[[" && s[r.value..r.value + 2] == "]]" &&
                        forall j :: 2 <= j < r.value ==> s[j] != ']'
  {
    if 2 <= |s| && s[0] == '[' && s[1] == '[' then
      var k := RunEnd(s, 2);
      if k > 2 && k + 2 <= |s| && s[k + 1] == ']' then Some(k) else None
    else None
  }

  /**
   * `re.findall(r'\[\[([^\]]+)\]\]', s)`: after a match the scan resumes past
   * its `]]`, otherwise one character on. Every target is non-empty and free
   * of `]`.
   */
  function Links(s: string): (r: seq<string>)
    ensures forall l :: l in r ==> LinkTarget(l)
    decreases |s|
  {
    if |s| == 0 then []
    else match LinkAt(s)
      case Some(k) => [s[2..k]] + Links(s[k + 2..])
      case None => Links(s[1..])
  }

  predicate LinkTarget(l: string) {
    |l| > 0 && forall j :: 0 <= j < |l| ==> l[j] != ']'
  }

  /** A wiki link to `target`. */
  function Wiki(target: string): string { "[[" + target + "]]" }

  function Concat(ss: seq<string>): string {
    if |ss| == 0 then "" else ss[0] + Concat(ss[1..])
  }

  /**
   * The scan inverts rendering: a text made only of wiki links to non-empty,
   * `]`-free targets yields exactly those targets, in order, repeats included.
   */
  lemma {:induction false} LinksOfRendered(targets: seq<string>)
    requires forall k :: 0 <= k < |targets| ==> LinkTarget(targets[k])
    ensures Links(Concat(seq(|targets|, k requires 0 <= k < |targets| => Wiki(targets[k])))) == targets
    decreases |targets|
  {
    var rendered := seq(|targets|, k requires 0 <= k < |targets| => Wiki(targets[k]));
    if |targets| > 0 {
      var t := targets[0];
      var rest := targets[1..];
      var restRendered := seq(|rest|, k requires 0 <= k < |rest| => Wiki(rest[k]));
      assert rendered[1..] == restRendered;
      var s := Concat(rendered);
      var tail := Concat(restRendered);
      assert s == Wiki(t) + tail;
      var k := |t| + 2;
      assert forall j :: 2 <= j < k ==> s[j] == t[j - 2];
      RunEndAt(s, 2, k);
      assert LinkAt(s) == Some(k);
      assert s[2..k] == t;
      assert s[k + 2..] == tail;
      LinksOfRendered(rest);
    }
  }

  lemma {:induction false} RunEndAt(s: string, from: nat, k: nat)
    requires from <= k < |s| && s[k] == ']' && forall j :: from <= j < k ==> s[j] != ']'
    ensures RunEnd(s, from) == k
    decreases k - from
  {
    if from < k {
      RunEndAt(s, from + 1, k);
    }
  }
}
