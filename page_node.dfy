/**
 * A Logseq page as a node of the spring-layout world: its flags, its page
 * text, and whether the page declares itself public with a `public::` line.
 */
module PageNodes {
  import opened Wrappers
  import opened PyText
  import GraphTypes

  const PublicKey: string := "public::"
  const FieldSeparator: string := "::"

  /** `s.lower() == "true"`: only the ASCII letters of "true", in either case, fold to it. */
  predicate IsTrueWord(v: string) {
    |v| == 4 &&
    (v[0] == 't' || v[0] == 'T') && (v[1] == 'r' || v[1] == 'R') &&
    (v[2] == 'u' || v[2] == 'U') && (v[3] == 'e' || v[3] == 'E')
  }

  /** A line that, once stripped, starts with `public::`. */
  predicate IsPublicLine(line: string) {
    StartsWith(Strip(line), PublicKey)
  }

  /** A `public::` line contains the field separator, right after the word `public`. */
  lemma PublicLineHasSeparator(line: string)
    requires IsPublicLine(line)
    ensures IndexOf(line, FieldSeparator, 0).Some?
  {
    var a := SkipSpace(line, 0);
    var b := SkipSpaceBack(line, a, |line|);
    var st := Strip(line);
    assert st == line[a..b];
    assert st[..8] == PublicKey;
    assert st[6] == ':' && st[7] == ':';
    assert line[a + 6] == st[6] && line[a + 7] == st[7];
    assert line[a + 6..a + 8] == FieldSeparator;
    assert OccursAt(line, FieldSeparator, a + 6);
  }

  /** The verdict of a `public::` line: the text between its first and second `::`, stripped, read as "true". */
  predicate LineSaysPublic(line: string)
    requires IsPublicLine(line)
  {
    PublicLineHasSeparator(line);
    IsTrueWord(Strip(SecondField(line, FieldSeparator)))
  }

  /** The scan of the nested `is_page_public`: the first `public::` line decides, with no such line it is false. */
  function FirstPublicVerdict(lines: seq<string>): bool {
    if |lines| == 0 then false
    else if IsPublicLine(lines[0]) then LineSaysPublic(lines[0])
    else FirstPublicVerdict(lines[1..])
  }

  /** `is_page_public(page_content)`. */
  function IsPagePublic(content: string): bool {
    FirstPublicVerdict(SplitLines(content))
  }

  /** A positive verdict comes from a `public::` line that says "true". */
  lemma {:induction false} VerdictHasWitness(lines: seq<string>)
    requires FirstPublicVerdict(lines)
    ensures exists i :: 0 <= i < |lines| && IsPublicLine(lines[i]) && LineSaysPublic(lines[i])
    decreases |lines|
  {
    if !IsPublicLine(lines[0]) {
      VerdictHasWitness(lines[1..]);
      var i :| 0 <= i < |lines| - 1 && IsPublicLine(lines[1..][i]) && LineSaysPublic(lines[1..][i]);
      assert lines[1..][i] == lines[i + 1];
    }
  }

  /** A public page is not empty and has a line that declares it public. */
  lemma PublicPageDeclared(content: string)
    requires IsPagePublic(content)
    ensures |content| > 0
    ensures exists line :: line in SplitLines(content) && IsPublicLine(line) && LineSaysPublic(line)
  {
    var lines := SplitLines(content);
    VerdictHasWitness(lines);
    var i :| 0 <= i < |lines| && IsPublicLine(lines[i]) && LineSaysPublic(lines[i]);
    assert lines[i] in lines;
  }

  /**
   * The scan read on the page text: a first line ended by `\n` decides when it
   * is a `public::` line, and otherwise the rest of the text does.
   */
  lemma PublicVerdictOfText(line: string, rest: string)
    requires HasNoBreak(line)
    ensures IsPagePublic(line + "\n" + rest) ==
            if IsPublicLine(line) then LineSaysPublic(line) else IsPagePublic(rest)
  {
    SplitLinesCons(line, rest);
    assert ([line] + SplitLines(rest))[1..] == SplitLines(rest);
  }

  /** The first `public::` line alone decides; lines after it, `public::` or not, are ignored. */
  lemma {:induction false} FirstPublicLineDecides(lines: seq<string>, i: nat)
    requires i < |lines| && IsPublicLine(lines[i])
    requires forall j :: 0 <= j < i ==> !IsPublicLine(lines[j])
    ensures FirstPublicVerdict(lines) == LineSaysPublic(lines[i])
    decreases i
  {
    if i > 0 {
      var rest := lines[1..];
      assert !IsPublicLine(lines[0]);
      assert FirstPublicVerdict(lines) == FirstPublicVerdict(rest);
      assert rest[i - 1] == lines[i];
      forall j | 0 <= j < i - 1 ensures !IsPublicLine(rest[j]) {
        assert rest[j] == lines[j + 1];
      }
      FirstPublicLineDecides(rest, i - 1);
    }
  }

  /** Without any `public::` line the page is not public. */
  lemma {:induction false} NoPublicLineNotPublic(lines: seq<string>)
    requires forall j :: 0 <= j < |lines| ==> !IsPublicLine(lines[j])
    ensures !FirstPublicVerdict(lines)
    decreases |lines|
  {
    if |lines| > 0 {
      NoPublicLineNotPublic(lines[1..]);
    }
  }

  /**
   * Indentation before `public::` is allowed: a line of whitespace, then
   * `public::`, then a value with no further separator, is a public line whose
   * verdict is that value, stripped, read as "true".
   */
  lemma IndentedPublicLine(indent: string, value: string)
    requires IsBlank(indent) && IndexOf(value, FieldSeparator, 0).None?
    ensures IsPublicLine(indent + PublicKey + value)
    ensures LineSaysPublic(indent + PublicKey + value) == IsTrueWord(Strip(value))
  {
    var line := indent + PublicKey + value;
    IndentedStrip(indent, value);
    IndentedSeparator(indent, value);
    var k := |indent| + 6;
    assert line[k + 2..] == value;
  }

  /** Whitespace, `public::`, anything: once stripped the line starts with `public::`. */
  lemma IndentedStrip(indent: string, value: string)
    requires IsBlank(indent)
    ensures IsPublicLine(indent + PublicKey + value)
  {
    var line := indent + PublicKey + value;
    var a := |indent|;
    assert line[a] == 'p';
    SkipSpaceAt(line, 0, a);
    assert line[a + 7] == ':';
    var b := SkipSpaceBack(line, a, |line|);
    assert b >= a + 8;
    assert Strip(line)[..8] == line[a..a + 8] == PublicKey;
  }

  /** In such a line the first `::` is the one of `public::`. */
  lemma IndentedSeparator(indent: string, value: string)
    requires IsBlank(indent)
    ensures IndexOf(indent + PublicKey + value, FieldSeparator, 0) == Some(|indent| + 6)
  {
    var line := indent + PublicKey + value;
    var a := |indent|;
    forall j | 0 <= j < a + 6 ensures !OccursAt(line, FieldSeparator, j) {
      if j < a {
        assert line[j] == indent[j];
      } else {
        assert line[j] == PublicKey[j - a];
      }
      OccursStartsWithFirst(line, FieldSeparator, j);
    }
    assert line[a + 6..a + 8] == FieldSeparator;
    FirstOccurrence(line, FieldSeparator, 0, a + 6);
  }

  lemma {:induction false} FirstOccurrence(s: string, pat: string, from: nat, k: nat)
    requires |pat| > 0 && from <= k && OccursAt(s, pat, k)
    requires forall j :: from <= j < k ==> !OccursAt(s, pat, j)
    ensures IndexOf(s, pat, from) == Some(k)
    decreases k - from
  {
    if from < k {
      assert !OccursAt(s, pat, from);
      FirstOccurrence(s, pat, from + 1, k);
    }
  }

  lemma OccursStartsWithFirst(s: string, pat: string, j: nat)
    requires |pat| > 0
    ensures OccursAt(s, pat, j) ==> j < |s| && s[j] == pat[0]
  {
    if OccursAt(s, pat, j) {
      assert s[j..j + |pat|][0] == s[j];
    }
  }

  lemma {:induction false} SkipSpaceAt(s: string, from: nat, k: nat)
    requires from <= k < |s| && !IsSpace(s[k]) && forall j :: from <= j < k ==> IsSpace(s[j])
    ensures SkipSpace(s, from) == k
    decreases k - from
  {
    if from < k {
      SkipSpaceAt(s, from + 1, k);
    }
  }

  /** A page node of the spring-layout world. The Blender object handle is not part of this model. */
  class PageNode {
    var id: int
    var name: string
    var position: GraphTypes.Vec3
    var weight: real
    var velocity: GraphTypes.Vec3
    var pined: bool
    var clusterVisited: bool
    var clustered: bool
    var pageContent: string
    var isPublic: bool

    /** A new node: at rest, unpinned, unclustered, not public, with no page text. */
    constructor(nodeId: int, name: string, position: GraphTypes.Vec3, weight: real)
      ensures this.id == nodeId && this.name == name && this.position == position && this.weight == weight
      ensures velocity == GraphTypes.Origin
      ensures !pined && !clusterVisited && !clustered && !isPublic && pageContent == ""
    {
      this.id := nodeId;
      this.name := name;
      this.position := position;
      this.weight := weight;
      this.velocity := GraphTypes.Origin;
      this.pined := false;
      this.clusterVisited := false;
      this.clustered := false;
      this.pageContent := "";
      this.isPublic := false;
    }

    /** `load_data_from_logseq` given the file's text: store it, and the public flag read from exactly that text. */
    method LoadDataFromLogseq(content: string)
      modifies this
      ensures pageContent == content && isPublic == IsPagePublic(pageContent)
      ensures id == old(id) && name == old(name) && position == old(position) && weight == old(weight)
      ensures velocity == old(velocity) && pined == old(pined)
      ensures clusterVisited == old(clusterVisited) && clustered == old(clustered)
    {
      pageContent := content;
      isPublic := IsPagePublic(pageContent);
    }
  }
}
