/**
 * The task-text cleaner (`clean_task`) and its regular-expression helpers
 * `strip_links` and `remove_categories`. Each `re.sub` is written out as
 * a left-to-right scan that tries a match at the current position (with
 * the regex's greedy or lazy choice), replaces it, and resumes after it.
 * `strip_html` and `unidecode` are library calls; `CleanTask` takes them
 * as parameters.
 */
module TaskText {
  import opened Wrappers
  import opened PyStr

  // ---------------------------------------------------------------------------
  // strip_links, first pattern: \[\[.*\|([^]]+)\]\]

  /** The first newline at or after `j`, or the end of `s`: how far `.` can reach. */
  function LineEnd(s: string, j: nat): (e: nat)
    requires j <= |s|
    ensures j <= e <= |s| && (e == |s| || s[e] == '\n')
    ensures forall k :: j <= k < e ==> s[k] != '\n'
    decreases |s| - j
  {
    if j == |s| || s[j] == '\n' then j else LineEnd(s, j + 1)
  }

  /** The first `c` at or after `j`, or -1: how far a `[^c]*` run reaches. */
  function CharFrom(s: string, c: char, j: nat): (m: int)
    requires j <= |s|
    ensures m == -1 || (j <= m < |s| && s[m] == c)
    ensures forall k :: j <= k < |s| && (m == -1 || k < m) ==> s[k] != c
    decreases |s| - j
  {
    if j == |s| then -1 else if s[j] == c then j else CharFrom(s, c, j + 1)
  }

  /**
   * `([^]]+)\]\]` matched at `j`: the index of the first `]` after a
   * non-empty run of other characters, when a second `]` follows it; else -1.
   */
  function DisplayClose(s: string, j: nat): (m: int)
    requires j <= |s|
    ensures m == -1 || (j < m && m + 2 <= |s| && s[m] == ']' && s[m + 1] == ']')
    ensures m != -1 ==> forall k :: j <= k < m ==> s[k] != ']'
  {
    var m := CharFrom(s, ']', j);
    if m > j && m + 1 < |s| && s[m + 1] == ']' then m else -1
  }

  /** A `|` at `b` after which `([^]]+)\]\]` matches. */
  predicate BarMatches(s: string, b: nat) {
    b < |s| && s[b] == '|' && DisplayClose(s, b + 1) >= 0
  }

  /**
   * The greedy `.*` backtracking: the `|` at the highest index below `e`
   * (and at least 2) after which the rest of the pattern matches.
   */
  function LastBar(s: string, e: nat): (r: Option<nat>)
    requires e <= |s|
    ensures r.Some? ==> 2 <= r.value < e && BarMatches(s, r.value)
  {
    if e <= 2 then None
    else if BarMatches(s, e - 1) then Some(e - 1)
    else LastBar(s, e - 1)
  }

  /** A `[[target|display]]` match at the start of `s`: the `|` and the first `]` of the closing `]]`. */
  function WikiLinkAtStart(s: string): (r: Option<(nat, nat)>)
    ensures r.Some? ==> r.value.0 < r.value.1 && r.value.1 + 2 <= |s|
  {
    if |s| >= 2 && s[0] == '[' && s[1] == '[' then
      match LastBar(s, LineEnd(s, 2))
      case Some(b) => Some((b, DisplayClose(s, b + 1) as nat))
      case None => None
    else None
  }

  /** `re.sub(r'\[\[.*\|([^]]+)\]\]', r'\1', s)`. */
  function FoldWikiLinks(s: string): (r: string)
    ensures |r| <= |s|
    decreases |s|
  {
    if s == [] then []
    else match WikiLinkAtStart(s)
      case Some((k, m)) => s[k + 1..m] + FoldWikiLinks(s[m + 2..])
      case None => [s[0]] + FoldWikiLinks(s[1..])
  }

  // ---------------------------------------------------------------------------
  // strip_links, second pattern: \[https?\S* ([^]]+)\]

  /** The first whitespace character at or after `j`, or the end: how far `\S*` reaches. */
  function SpaceFrom(s: string, j: nat): (e: nat)
    requires j <= |s|
    ensures j <= e <= |s| && (e == |s| || IsSpace(s[e]))
    ensures forall k :: j <= k < e ==> !IsSpace(s[k])
    decreases |s| - j
  {
    if j == |s| || IsSpace(s[j]) then j else SpaceFrom(s, j + 1)
  }

  /** A `[http… display]` match at the start of `s`: the space before the display text and the closing `]`. */
  function ExternalLinkAtStart(s: string): (r: Option<(nat, nat)>)
    ensures r.Some? ==> r.value.0 < r.value.1 < |s| && s[r.value.1] == ']'
  {
    if !("[http" <= s) then None
    else
      var q := SpaceFrom(s, 5);
      if q < |s| && s[q] == ' ' then
        var m := CharFrom(s, ']', q + 1);
        if m > q + 1 then Some((q, m as nat)) else None
      else None
  }

  /** `re.sub(r'\[https?\S* ([^]]+)\]', r'\1', s)`. */
  function FoldExternalLinks(s: string): (r: string)
    ensures |r| <= |s|
    decreases |s|
  {
    if s == [] then []
    else match ExternalLinkAtStart(s)
      case Some((q, m)) => s[q + 1..m] + FoldExternalLinks(s[m + 1..])
      case None => [s[0]] + FoldExternalLinks(s[1..])
  }

  /** `strip_links`. */
  function StripLinks(s: string): (r: string)
    ensures |r| <= |s|
  {
    FoldExternalLinks(FoldWikiLinks(s))
  }

  // ---------------------------------------------------------------------------
  // remove_categories: \[\[Category:.*?\]\]

  const CategoryOpen: string := "[[Category:"

  /** The lazy `.*?\]\]` from `j`: the first `]]` before any newline, or -1. */
  function CategoryClose(s: string, j: nat): (m: int)
    requires j <= |s|
    ensures m == -1 || (j <= m && m + 2 <= |s| && s[m..m + 2] == "]]")
    decreases |s| - j
  {
    if j + 2 <= |s| && s[j..j + 2] == "]]" then j
    else if j < |s| && s[j] != '\n' then CategoryClose(s, j + 1)
    else -1
  }

  /** `remove_categories`: `re.sub(r'\[\[Category:.*?\]\]', '', s)`. */
  function RemoveCategories(s: string): (r: string)
    ensures |r| <= |s|
    decreases |s|
  {
    if s == [] then []
    else if CategoryOpen <= s && CategoryClose(s, |CategoryOpen|) >= 0 then
      RemoveCategories(s[CategoryClose(s, |CategoryOpen|) + 2..])
    else [s[0]] + RemoveCategories(s[1..])
  }

  // ---------------------------------------------------------------------------
  // clean_task

  /** Drops a leading image-caption artifact `right` and a blank line. */
  function DropCaption(t: string): (r: string)
    ensures IsSuffix(r, t)
  {
    if "right\n\n" <= t then
      var r := LStrip(t[7..]);
      SuffixTrans(r, t[7..], t);
      r
    else t
  }

  /** Drops one leading `;` (a definition-list marker) and nothing after it. */
  function DropDefinitionMarker(t: string): (r: string)
    ensures IsSuffix(r, t)
  {
    if ";" <= t then t[1..] else t
  }

  /** Drops a leading `Task:` or `task:` and the whitespace after it. */
  function DropTaskLabel(t: string): (r: string)
    ensures IsSuffix(r, t)
  {
    if "Task:" <= t || "task:" <= t then
      var r := LStrip(t[5..]);
      SuffixTrans(r, t[5..], t);
      r
    else t
  }

  /** The steps of `clean_task` after the emptiness test. */
  function StripBoilerplate(t: string): (r: string)
    ensures IsSuffix(r, LStrip(RemoveCategories(t)))
  {
    var t1 := LStrip(RemoveCategories(t));
    var t2 := DropCaption(t1);
    var t3 := DropDefinitionMarker(t2);
    var r := DropTaskLabel(t3);
    SuffixTrans(r, t3, t2);
    SuffixTrans(r, t2, t1);
    r
  }

  /** The text `clean_task` tests for emptiness. */
  function Flattened(task: string, stripHtml: string -> string, transliterate: string -> string): string {
    LStrip(transliterate(LStrip(stripHtml(StripLinks(task)))))
  }

  /**
   * `clean_task`: empty when the flattened text is empty; otherwise a
   * suffix of that text once its category tags are gone and it is
   * left-stripped.
   */
  function CleanTask(task: string, stripHtml: string -> string, transliterate: string -> string): (r: string)
    ensures var b := Flattened(task, stripHtml, transliterate);
      && (b == "" ==> r == "")
      && (b != "" ==> IsSuffix(r, LStrip(RemoveCategories(b))))
  {
    var b := Flattened(task, stripHtml, transliterate);
    if |b| == 0 then "" else StripBoilerplate(b)
  }

  /** Stands for `strip_html` or `unidecode` on text they leave alone. */
  function Identity(s: string): string {
    s
  }

  // ---------------------------------------------------------------------------
  // Properties

  lemma {:induction false} FoldWikiLinksPlain(s: string)
    requires '[' !in s
    ensures FoldWikiLinks(s) == s
    decreases |s|
  {
    if s != [] {
      assert s[0] != '[';
      assert WikiLinkAtStart(s) == None;
      FoldWikiLinksPlain(s[1..]);
      assert s == [s[0]] + s[1..];
    }
  }

  lemma {:induction false} FoldExternalLinksPlain(s: string)
    requires '[' !in s
    ensures FoldExternalLinks(s) == s
    decreases |s|
  {
    if s != [] {
      assert s[0] != '[';
      FoldExternalLinksPlain(s[1..]);
    }
  }

  /** Text without any `[` has no link to fold. */
  lemma StripLinksPlain(s: string)
    requires '[' !in s
    ensures StripLinks(s) == s
  {
    FoldWikiLinksPlain(s);
    FoldExternalLinksPlain(s);
  }

  /**
   * The backtracking answers the last matching bar below `e`, and finds
   * none exactly when no bar from index 2 up to `e` matches.
   */
  lemma {:induction false} LastBarIsLast(s: string, e: nat)
    requires e <= |s|
    ensures var r := LastBar(s, e);
      && (r.Some? ==> forall b :: r.value < b < e ==> !BarMatches(s, b))
      && (r.None? <==> forall b :: 2 <= b < e ==> !BarMatches(s, b))
    decreases e
  {
    if e > 2 && !BarMatches(s, e - 1) {
      LastBarIsLast(s, e - 1);
    }
  }

  /** The backtracking settles on `b` when no bar comes after it below `e`. */
  lemma {:induction false} LastBarSettles(s: string, b: nat, e: nat)
    requires 2 <= b < e <= |s| && BarMatches(s, b)
    requires forall i :: b < i < e ==> s[i] != '|'
    ensures LastBar(s, e) == Some(b)
    decreases e
  {
    if e - 1 > b {
      LastBarSettles(s, b, e - 1);
    }
  }

  lemma {:induction false} CharFromAt(s: string, c: char, j: nat, m: nat)
    requires j <= m < |s| && s[m] == c
    requires forall k :: j <= k < m ==> s[k] != c
    ensures CharFrom(s, c, j) == m
    decreases m - j
  {
    if j < m {
      CharFromAt(s, c, j + 1, m);
    }
  }

  /** Where the parts of `[[x|d]]` stand. */
  lemma WikiLinkLayout(s: string, x: string, d: string)
    requires s == "[[" + x + "|" + d + "]]"
    ensures |s| == |x| + |d| + 5 && s[0] == '[' && s[1] == '['
    ensures forall k :: 2 <= k < 2 + |x| ==> s[k] == x[k - 2]
    ensures s[2 + |x|] == '|'
    ensures forall k :: 3 + |x| <= k < 3 + |x| + |d| ==> s[k] == d[k - 3 - |x|]
    ensures s[3 + |x| + |d|] == ']' && s[4 + |x| + |d|] == ']'
    ensures s[3 + |x|..3 + |x| + |d|] == d
  {
    assert s == ("[[" + x) + ("|" + d + "]]");
  }

  lemma WikiLinkOneLine(s: string, x: string, d: string)
    requires s == "[[" + x + "|" + d + "]]"
    requires '\n' !in x && '\n' !in d
    ensures LineEnd(s, 2) == |s|
  {
    var b := 2 + |x|;
    WikiLinkLayout(s, x, d);
    forall k | 2 <= k < |s| ensures s[k] != '\n' {
      if k < b {
        assert s[k] == x[k - 2];
      } else if b < k < b + 1 + |d| {
        assert s[k] == d[k - b - 1];
      }
    }
  }

  lemma WikiLinkDisplay(s: string, x: string, d: string)
    requires s == "[[" + x + "|" + d + "]]"
    requires d != [] && '|' !in d && ']' !in d
    ensures DisplayClose(s, 3 + |x|) == 3 + |x| + |d|
    ensures forall k :: 2 + |x| < k < |s| ==> s[k] != '|'
  {
    var b := 2 + |x|;
    var m := b + 1 + |d|;
    WikiLinkLayout(s, x, d);
    forall k | b + 1 <= k < m ensures s[k] != ']' && s[k] != '|' {
      assert s[k] == d[k - b - 1];
    }
    CharFromAt(s, ']', b + 1, m);
  }

  /** A wiki link whose last matching bar on the first line is at `b`. */
  lemma WikiLinkAt(s: string, b: nat)
    requires |s| >= 2 && s[0] == '[' && s[1] == '['
    requires LastBar(s, LineEnd(s, 2)) == Some(b)
    ensures WikiLinkAtStart(s) == Some((b, DisplayClose(s, b + 1) as nat))
  {
  }

  lemma WikiLinkMatch(s: string, x: string, d: string)
    requires s == "[[" + x + "|" + d + "]]"
    requires '\n' !in x && '\n' !in d
    requires d != [] && '|' !in d && ']' !in d
    ensures WikiLinkAtStart(s) == Some((2 + |x|, 3 + |x| + |d|))
  {
    WikiLinkLayout(s, x, d);
    WikiLinkOneLine(s, x, d);
    WikiLinkDisplay(s, x, d);
    var e := LineEnd(s, 2);
    LastBarSettles(s, 2 + |x|, e);
    WikiLinkAt(s, 2 + |x|);
  }

  /**
   * The greedy `.*` reaches the last `|` on the line: a line holding
   * `[[x|d]]` folds to `d` even when `x` itself holds bars and brackets,
   * so `[[a|b]] x [[c|d]]` collapses to `d`.
   */
  lemma WikiLinkKeepsLastField(x: string, d: string)
    requires '\n' !in x && '\n' !in d
    requires d != [] && '|' !in d && ']' !in d
    ensures FoldWikiLinks("[[" + x + "|" + d + "]]") == d
  {
    var s := "[[" + x + "|" + d + "]]";
    WikiLinkMatch(s, x, d);
    WikiLinkLayout(s, x, d);
    assert s[3 + |x| + |d| + 2..] == [];
  }

  lemma {:induction false} SpaceFromAt(s: string, j: nat, q: nat)
    requires j <= q < |s| && IsSpace(s[q])
    requires forall k :: j <= k < q ==> !IsSpace(s[k])
    ensures SpaceFrom(s, j) == q
    decreases q - j
  {
    if j < q {
      SpaceFromAt(s, j + 1, q);
    }
  }

  /** `[http… text]` folds to its text. */
  lemma ExternalLinkKeepsText(u: string, d: string)
    requires forall k :: 0 <= k < |u| ==> !IsSpace(u[k])
    requires d != [] && ']' !in d
    ensures FoldExternalLinks("[http" + u + " " + d + "]") == d
  {
    var s := "[http" + u + " " + d + "]";
    var q := 5 + |u|;
    var m := q + 1 + |d|;
    assert s == ("[http" + u) + (" " + d + "]");
    assert |s| == m + 1;
    assert s[..5] == "[http";
    assert s[q] == ' ' && s[m] == ']';
    assert s[q + 1..m] == d;
    forall k | 5 <= k < q ensures !IsSpace(s[k]) {
      assert s[k] == u[k - 5];
    }
    SpaceFromAt(s, 5, q);
    forall k | q + 1 <= k < m ensures s[k] != ']' {
      assert s[k] == d[k - q - 1];
    }
    CharFromAt(s, ']', q + 1, m);
    assert ExternalLinkAtStart(s) == Some((q, m));
    assert s[m + 1..] == [];
  }

  /** A first character other than `[` is copied by the wiki-link pass. */
  lemma FoldWikiLinksSkip(s: string)
    requires s != [] && s[0] != '['
    ensures FoldWikiLinks(s) == [s[0]] + FoldWikiLinks(s[1..])
  {
    assert WikiLinkAtStart(s) == None;
  }

  /** A wiki link matched at the start with display text `d` and text `b` after it. */
  lemma FoldWikiLinksAt(s: string, d: string, b: string)
    requires WikiLinkAtStart(s).Some?
    requires var w := WikiLinkAtStart(s).value; s[w.0 + 1..w.1] == d && s[w.1 + 2..] == b
    ensures FoldWikiLinks(s) == d + FoldWikiLinks(b)
  {
  }

  /** An external link matched at the start with text `d` and text `b` after it. */
  lemma FoldExternalLinksAt(s: string, d: string, b: string)
    requires ExternalLinkAtStart(s).Some?
    requires var w := ExternalLinkAtStart(s).value; s[w.0 + 1..w.1] == d && s[w.1 + 1..] == b
    ensures FoldExternalLinks(s) == d + FoldExternalLinks(b)
  {
  }

  /** A first character other than `[` is copied by the external-link pass. */
  lemma FoldExternalLinksSkip(s: string)
    requires s != [] && s[0] != '['
    ensures FoldExternalLinks(s) == [s[0]] + FoldExternalLinks(s[1..])
  {
    PrefixHead("[http", s);
  }

  /** Text without `[` in front of the rest is copied by the wiki-link pass. */
  lemma {:induction false} FoldWikiLinksPlainPrefix(a: string, r: string)
    requires '[' !in a
    ensures FoldWikiLinks(a + r) == a + FoldWikiLinks(r)
    decreases |a|
  {
    var s := a + r;
    if a != [] {
      assert s[0] == a[0] && s[1..] == a[1..] + r;
      FoldWikiLinksSkip(s);
      FoldWikiLinksPlainPrefix(a[1..], r);
      assert a == [a[0]] + a[1..];
    } else {
      assert s == r;
    }
  }

  /** Where the parts of `[[x|d]]` stand when text follows it. */
  lemma WikiLinkLayoutIn(s: string, x: string, d: string, b: string)
    requires s == "[[" + x + "|" + d + "]]" + b
    ensures |s| == |x| + |d| + 5 + |b| && s[0] == '[' && s[1] == '['
    ensures forall k :: 2 <= k < 2 + |x| ==> s[k] == x[k - 2]
    ensures s[2 + |x|] == '|'
    ensures forall k :: 3 + |x| <= k < 3 + |x| + |d| ==> s[k] == d[k - 3 - |x|]
    ensures s[3 + |x| + |d|] == ']' && s[4 + |x| + |d|] == ']'
    ensures s[3 + |x|..3 + |x| + |d|] == d && s[5 + |x| + |d|..] == b
  {
    var link := "[[" + x + "|" + d + "]]";
    WikiLinkLayout(link, x, d);
    assert forall i :: 0 <= i < |link| ==> s[i] == link[i];
    assert s[..|link|] == link;
  }

  /** The link's line ends with its `]]`, and no `|` follows its last bar on that line. */
  lemma WikiLinkLineIn(s: string, x: string, d: string, b: string)
    requires s == "[[" + x + "|" + d + "]]" + b
    requires '\n' !in x && '\n' !in d && '|' !in d
    requires b == [] || b[0] == '\n'
    ensures LineEnd(s, 2) == |x| + |d| + 5
    ensures forall i :: 2 + |x| < i < |x| + |d| + 5 ==> s[i] != '|'
  {
    var k := 2 + |x|;
    var n := |x| + |d| + 5;
    WikiLinkLayoutIn(s, x, d, b);
    forall i | 2 <= i < n ensures s[i] != '\n' && (k < i ==> s[i] != '|') {
      if i < k {
        assert s[i] == x[i - 2];
      } else if k < i < n - 2 {
        assert s[i] == d[i - k - 1];
      }
    }
    assert n < |s| ==> s[n] == b[0];
  }

  /** `([^]]+)\]\]` after the link's bar matches its display text. */
  lemma WikiLinkDisplayIn(s: string, x: string, d: string, b: string)
    requires s == "[[" + x + "|" + d + "]]" + b
    requires d != [] && ']' !in d
    ensures DisplayClose(s, 3 + |x|) == 3 + |x| + |d|
  {
    var k := 2 + |x|;
    var m := 3 + |x| + |d|;
    WikiLinkLayoutIn(s, x, d, b);
    forall i | k + 1 <= i < m ensures s[i] != ']' {
      assert s[i] == d[i - k - 1];
    }
    CharFromAt(s, ']', k + 1, m);
  }

  lemma WikiLinkMatchIn(s: string, x: string, d: string, b: string)
    requires s == "[[" + x + "|" + d + "]]" + b
    requires '\n' !in x && '\n' !in d
    requires d != [] && '|' !in d && ']' !in d
    requires b == [] || b[0] == '\n'
    ensures WikiLinkAtStart(s) == Some((2 + |x|, 3 + |x| + |d|))
  {
    WikiLinkLayoutIn(s, x, d, b);
    WikiLinkLineIn(s, x, d, b);
    WikiLinkDisplayIn(s, x, d, b);
    var e := LineEnd(s, 2);
    LastBarSettles(s, 2 + |x|, e);
    WikiLinkAt(s, 2 + |x|);
  }

  /**
   * A wiki link that ends its line (or the text) folds to its display text,
   * and the scan resumes after its `]]`.
   */
  lemma WikiLinkEndsLine(x: string, d: string, b: string)
    requires '\n' !in x && '\n' !in d
    requires d != [] && '|' !in d && ']' !in d
    requires b == [] || b[0] == '\n'
    ensures FoldWikiLinks("[[" + x + "|" + d + "]]" + b) == d + FoldWikiLinks(b)
  {
    var s := "[[" + x + "|" + d + "]]" + b;
    WikiLinkMatchIn(s, x, d, b);
    WikiLinkLayoutIn(s, x, d, b);
    FoldWikiLinksAt(s, d, b);
  }

  /** In running text, a wiki link that ends its line is replaced by its display text. */
  lemma WikiLinkInText(a: string, x: string, d: string, b: string)
    requires '[' !in a
    requires '\n' !in x && '\n' !in d
    requires d != [] && '|' !in d && ']' !in d
    requires b == [] || b[0] == '\n'
    ensures FoldWikiLinks(a + ("[[" + x + "|" + d + "]]") + b) == a + d + FoldWikiLinks(b)
  {
    var link := "[[" + x + "|" + d + "]]";
    ConcatAssoc(a, link, b);
    FoldWikiLinksPlainPrefix(a, link + b);
    WikiLinkEndsLine(x, d, b);
    ConcatAssoc(a, d, FoldWikiLinks(b));
  }

  /** Text without `[` in front of the rest is copied by the external-link pass. */
  lemma {:induction false} FoldExternalLinksPlainPrefix(a: string, r: string)
    requires '[' !in a
    ensures FoldExternalLinks(a + r) == a + FoldExternalLinks(r)
    decreases |a|
  {
    var s := a + r;
    if a != [] {
      assert s[0] == a[0] && s[1..] == a[1..] + r;
      FoldExternalLinksSkip(s);
      FoldExternalLinksPlainPrefix(a[1..], r);
      assert a == [a[0]] + a[1..];
    } else {
      assert s == r;
    }
  }

  /** Where the parts of `[http… d]` stand when text follows it, and the match it gives. */
  lemma ExternalLinkMatchIn(s: string, u: string, d: string, b: string)
    requires s == "[http" + u + " " + d + "]" + b
    requires forall k :: 0 <= k < |u| ==> !IsSpace(u[k])
    requires d != [] && ']' !in d
    ensures var q, m := 5 + |u|, 6 + |u| + |d|;
      && ExternalLinkAtStart(s) == Some((q, m))
      && s[q + 1..m] == d && s[m + 1..] == b
  {
    var link := "[http" + u + " " + d + "]";
    var q := 5 + |u|;
    var m := q + 1 + |d|;
    assert link == ("[http" + u) + (" " + d + "]");
    assert |link| == m + 1;
    assert forall i :: 0 <= i < |link| ==> s[i] == link[i];
    assert s[..5] == link[..5] == "[http";
    assert s[q] == ' ' && s[m] == ']';
    assert s[q + 1..m] == d && s[m + 1..] == b;
    forall i | 5 <= i < q ensures !IsSpace(s[i]) {
      assert s[i] == u[i - 5];
    }
    SpaceFromAt(s, 5, q);
    forall i | q + 1 <= i < m ensures s[i] != ']' {
      assert s[i] == d[i - q - 1];
    }
    CharFromAt(s, ']', q + 1, m);
    assert ExternalLinkAtStart(s) == Some((q, m));
  }

  /** An external link folds to its text, and the scan resumes after its `]`. */
  lemma ExternalLinkThen(u: string, d: string, b: string)
    requires forall k :: 0 <= k < |u| ==> !IsSpace(u[k])
    requires d != [] && ']' !in d
    ensures FoldExternalLinks("[http" + u + " " + d + "]" + b) == d + FoldExternalLinks(b)
  {
    var s := "[http" + u + " " + d + "]" + b;
    ExternalLinkMatchIn(s, u, d, b);
    FoldExternalLinksAt(s, d, b);
  }

  /** In running text, an external link is replaced by its text. */
  lemma ExternalLinkInText(a: string, u: string, d: string, b: string)
    requires '[' !in a
    requires forall k :: 0 <= k < |u| ==> !IsSpace(u[k])
    requires d != [] && ']' !in d
    ensures FoldExternalLinks(a + ("[http" + u + " " + d + "]") + b) == a + d + FoldExternalLinks(b)
  {
    var link := "[http" + u + " " + d + "]";
    ConcatAssoc(a, link, b);
    FoldExternalLinksPlainPrefix(a, link + b);
    ExternalLinkThen(u, d, b);
    ConcatAssoc(a, d, FoldExternalLinks(b));
  }

  /*
   * The usual examples. Their pieces are parameters pinned by the requires
   * clauses, so that the verifier works from the lemmas above rather than
   * evaluating the scans on literal text.
   */

  /** `[[Foo|Bar baz]]` becomes `Bar baz`. */
  lemma WikiLinkExample(x: string, d: string)
    requires x == "Foo" && d == "Bar baz"
    ensures StripLinks("[[" + x + "|" + d + "]]") == d
  {
    WikiLinkKeepsLastField(x, d);
    FoldExternalLinksPlain(d);
  }

  /** `[[a|b]] x [[c|d]]` becomes `d`: everything up to the last bar goes. */
  lemma ChainedWikiLinksExample(x: string, d: string)
    requires x == "a|b]] x [[c" && d == "d"
    ensures StripLinks("[[" + x + "|" + d + "]]") == d
  {
    WikiLinkKeepsLastField(x, d);
    FoldExternalLinksPlain(d);
  }

  /** A lone `[` in otherwise bracket-free text is no wiki link. */
  lemma FoldWikiLinksLoneBracket(s: string)
    requires |s| >= 2 && s[0] == '[' && '[' !in s[1..]
    ensures FoldWikiLinks(s) == s
  {
    assert s[1] in s[1..];
    FoldWikiLinksPlain(s[1..]);
  }

  /** `[http://x.example Click here]` becomes `Click here`. */
  lemma ExternalLinkExample(u: string, d: string)
    requires u == "://x.example" && d == "Click here"
    ensures StripLinks("[http" + u + " " + d + "]") == d
  {
    var s := "[http" + u + " " + d + "]";
    assert s == "[" + ("http" + u + " " + d + "]");
    FoldWikiLinksLoneBracket(s);
    ExampleUrl(u);
    ExternalLinkKeepsText(u, d);
  }

  lemma ExampleUrl(u: string)
    requires u == "://x.example"
    ensures forall k :: 0 <= k < |u| ==> !IsSpace(u[k])
  {
  }

  /** A first character other than `[` is copied. */
  lemma RemoveCategoriesSkip(s: string)
    requires s != [] && s[0] != '['
    ensures RemoveCategories(s) == [s[0]] + RemoveCategories(s[1..])
  {
    PrefixHead(CategoryOpen, s);
  }

  lemma {:induction false} RemoveCategoriesPlain(s: string)
    requires '[' !in s
    ensures RemoveCategories(s) == s
    decreases |s|
  {
    if s != [] {
      RemoveCategoriesSkip(s);
      RemoveCategoriesPlain(s[1..]);
      assert s == [s[0]] + s[1..];
    }
  }

  /** Text without `[` in front of the rest passes through unchanged. */
  lemma {:induction false} RemoveCategoriesPlainPrefix(a: string, b: string)
    requires '[' !in a
    ensures RemoveCategories(a + b) == a + RemoveCategories(b)
    decreases |a|
  {
    var s := a + b;
    if a != [] {
      assert s[0] == a[0] && s[1..] == a[1..] + b;
      RemoveCategoriesSkip(s);
      RemoveCategoriesPlainPrefix(a[1..], b);
      assert a == [a[0]] + a[1..];
    } else {
      assert s == b;
    }
  }

  lemma {:induction false} CategoryCloseSkips(s: string, j: nat, m: nat)
    requires j <= m && m + 2 <= |s| && s[m..m + 2] == "]]"
    requires forall k :: j <= k < m ==> s[k] != ']' && s[k] != '\n'
    ensures CategoryClose(s, j) == m
    decreases m - j
  {
    if j < m {
      assert s[j..j + 2][0] == s[j];
      CategoryCloseSkips(s, j + 1, m);
    }
  }

  /** A category tag on one line is deleted whole. */
  lemma RemoveCategoriesDropsTag(x: string, b: string)
    requires ']' !in x && '\n' !in x
    ensures RemoveCategories(CategoryOpen + x + "]]" + b) == RemoveCategories(b)
  {
    var s := CategoryOpen + x + "]]" + b;
    var m := |CategoryOpen| + |x|;
    assert CategoryOpen <= s;
    assert s[m..m + 2] == "]]";
    forall k | |CategoryOpen| <= k < m ensures s[k] != ']' && s[k] != '\n' {
      assert s[k] == x[k - |CategoryOpen|];
    }
    CategoryCloseSkips(s, |CategoryOpen|, m);
    assert s[m + 2..] == b;
  }

  /** `abc[[Category:Sorting]]def` becomes `abcdef`. */
  lemma RemoveCategoriesExample(a: string, x: string, b: string)
    requires a == "abc" && x == "Sorting" && b == "def"
    ensures RemoveCategories(a + CategoryOpen + x + "]]" + b) == a + b
  {
    assert a + CategoryOpen + x + "]]" + b == a + (CategoryOpen + x + "]]" + b);
    RemoveCategoriesPlainPrefix(a, CategoryOpen + x + "]]" + b);
    RemoveCategoriesDropsTag(x, b);
    RemoveCategoriesPlain(b);
  }

  /**
   * Plain text that starts with a non-space, and that `strip_html` and
   * `unidecode` leave alone, passes the flattening steps unchanged.
   */
  lemma FlattenedPlain(s: string, stripHtml: string -> string, transliterate: string -> string)
    requires '[' !in s && s != [] && !IsSpace(s[0])
    requires stripHtml(s) == s && transliterate(s) == s
    ensures Flattened(s, stripHtml, transliterate) == s
    ensures CleanTask(s, stripHtml, transliterate) == DropTaskLabel(DropDefinitionMarker(DropCaption(s)))
  {
    StripLinksPlain(s);
    RemoveCategoriesPlain(s);
  }

  lemma PrefixHead(p: string, s: string)
    ensures p <= s && p != [] ==> s[0] == p[0]
  {
  }

  lemma DropCaptionKeeps(s: string)
    requires s == [] || s[0] != 'r'
    ensures DropCaption(s) == s
  {
    PrefixHead("right\n\n", s);
  }

  /** A leading `right` and blank line go, with all the whitespace after them. */
  lemma DropCaptionStep(w: string, d: string)
    requires forall k :: 0 <= k < |w| ==> IsSpace(w[k])
    requires d == [] || !IsSpace(d[0])
    ensures DropCaption("right\n\n" + w + d) == d
  {
    var t := "right\n\n" + w + d;
    assert t == "right\n\n" + (w + d);
    assert t[7..] == w + d;
    LStripPrefix(w, d);
  }

  lemma DropDefinitionMarkerKeeps(s: string)
    requires s == [] || s[0] != ';'
    ensures DropDefinitionMarker(s) == s
  {
    PrefixHead(";", s);
  }

  lemma DropTaskLabelKeeps(s: string)
    requires s == [] || (s[0] != 'T' && s[0] != 't')
    ensures DropTaskLabel(s) == s
  {
    PrefixHead("Task:", s);
    PrefixHead("task:", s);
  }

  lemma DropTaskLabelStep(tag: string, w: string, d: string)
    requires tag == "Task:" || tag == "task:"
    requires forall k :: 0 <= k < |w| ==> IsSpace(w[k])
    requires d == [] || !IsSpace(d[0])
    ensures DropTaskLabel(tag + w + d) == d
  {
    var s := tag + w + d;
    assert s[..5] == tag && s[5..] == w + d;
    LStripPrefix(w, d);
  }

  /** A leading `Task:` or `task:` goes, with all the whitespace after it. */
  lemma CleanTaskDropsTaskLabel(tag: string, w: string, d: string, stripHtml: string -> string, transliterate: string -> string)
    requires tag == "Task:" || tag == "task:"
    requires forall k :: 0 <= k < |w| ==> IsSpace(w[k])
    requires '[' !in w && '[' !in d && (d == [] || !IsSpace(d[0]))
    requires stripHtml(tag + w + d) == tag + w + d && transliterate(tag + w + d) == tag + w + d
    ensures CleanTask(tag + w + d, stripHtml, transliterate) == d
  {
    var s := tag + w + d;
    assert s[0] == tag[0];
    assert '[' !in s by {
      assert s == tag + (w + d);
    }
    FlattenedPlain(s, stripHtml, transliterate);
    DropCaptionKeeps(s);
    DropDefinitionMarkerKeeps(s);
    DropTaskLabelStep(tag, w, d);
  }

  /** A leading `;` goes, and nothing else: what follows it is not left-stripped. */
  lemma CleanTaskDropsDefinitionMarker(d: string, stripHtml: string -> string, transliterate: string -> string)
    requires '[' !in d
    requires d == [] || (d[0] != 'T' && d[0] != 't')
    requires stripHtml(";" + d) == ";" + d && transliterate(";" + d) == ";" + d
    ensures CleanTask(";" + d, stripHtml, transliterate) == d
  {
    var s := ";" + d;
    assert s[0] == ';' && '[' !in s;
    FlattenedPlain(s, stripHtml, transliterate);
    DefinitionMarkerSteps(d);
  }

  /** The boilerplate steps on `;` and text not starting with a task label. */
  lemma DefinitionMarkerSteps(d: string)
    requires d == [] || (d[0] != 'T' && d[0] != 't')
    ensures DropTaskLabel(DropDefinitionMarker(DropCaption(";" + d))) == d
  {
    var s := ";" + d;
    assert s[0] == ';' && s[1..] == d;
    DropCaptionKeeps(s);
    DropTaskLabelKeeps(d);
  }

  /** `Task:  Do it` becomes `Do it`. */
  lemma TaskLabelExample(tag: string, w: string, d: string)
    requires tag == "Task:" && w == "  " && d == "Do it"
    ensures CleanTask(tag + w + d, Identity, Identity) == d
  {
    CleanTaskDropsTaskLabel(tag, w, d, Identity, Identity);
  }

  /** `;Do it` and `;  Do it` lose the `;` only. */
  lemma DefinitionMarkerExample(d: string, e: string)
    requires d == "Do it" && e == "  Do it"
    ensures CleanTask(";" + d, Identity, Identity) == d
    ensures CleanTask(";" + e, Identity, Identity) == e
  {
    CleanTaskDropsDefinitionMarker(d, Identity, Identity);
    CleanTaskDropsDefinitionMarker(e, Identity, Identity);
  }

  /** Cleaning twice can strip more than cleaning once: `;;x` becomes `;x`, then `x`. */
  lemma CleanTaskNotIdempotent(x: string)
    requires x == "x"
    ensures CleanTask(";;" + x, Identity, Identity) == ";" + x
    ensures CleanTask(";" + x, Identity, Identity) == x
  {
    assert ";;" + x == ";" + (";" + x);
    CleanTaskDropsDefinitionMarker(";" + x, Identity, Identity);
    CleanTaskDropsDefinitionMarker(x, Identity, Identity);
  }

  /**
   * Plain task text that begins with none of the boilerplate comes back
   * whole, so its final newline stays.
   */
  lemma CleanTaskKeepsPlain(s: string, stripHtml: string -> string, transliterate: string -> string)
    requires '[' !in s && s != [] && !IsSpace(s[0])
    requires s[0] != 'r' && s[0] != ';' && s[0] != 'T' && s[0] != 't'
    requires stripHtml(s) == s && transliterate(s) == s
    ensures CleanTask(s, stripHtml, transliterate) == s
  {
    FlattenedPlain(s, stripHtml, transliterate);
    DropCaptionKeeps(s);
    DropDefinitionMarkerKeeps(s);
    DropTaskLabelKeeps(s);
  }

  /** `Compute the sum` and its newline come out as they went in. */
  lemma TrailingNewlineExample(s: string)
    requires s == "Compute the sum\n"
    ensures CleanTask(s, Identity, Identity) == s
  {
    CleanTaskKeepsPlain(s, Identity, Identity);
  }

  /**
   * Emptiness is tested before the boilerplate goes: a task that is only
   * `Task:` flattens to non-empty text, yet cleans to "".
   */
  lemma TaskLabelOnlyEmpties(tag: string, w: string, d: string)
    requires tag == "Task:" || tag == "task:"
    requires w == "" && d == ""
    ensures Flattened(tag, Identity, Identity) != ""
    ensures CleanTask(tag, Identity, Identity) == ""
  {
    assert tag + w + d == tag;
    assert '[' !in tag && !IsSpace(tag[0]);
    FlattenedPlain(tag, Identity, Identity);
    CleanTaskDropsTaskLabel(tag, w, d, Identity, Identity);
  }
}
