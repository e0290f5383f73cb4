/*
 * `parse_rosettacode`: the line-by-line state machine that splits a Rosetta
 * Code page into its task description and one raw section per accepted
 * language label, followed by the pass that cleans every section and keeps
 * the solutions that are long enough.
 *
 * The page's lines are consumed by `Step`; `Run` folds it over a list of
 * lines and `Parse` is the whole function. `ParseRosettaCode` is the loop
 * of the source, proved equal to `Parse`.
 */
module Segmenter {
  import opened Wrappers
  import opened PyStr
  import opened Languages
  import opened CodeBlocks
  import opened TaskText

  /** What an unmarked line belongs to: the source's states 0, 1 and 2. */
  datatype Mode = Idle | InTask | InSolution

  /**
   * The loop's variables. `sections` is the dictionary of raw solution
   * texts and `keys` its keys in insertion order; `language` is the label
   * of the section that unmarked lines extend.
   */
  datatype Config = Config(
    mode: Mode,
    task: string,
    sections: map<string, string>,
    keys: seq<string>,
    headerLang: Option<string>,
    language: string)

  /**
   * How a run ends without output: a `{{trans` line before any header
   * (concatenating None), a `{{trans` line without a `|` field (index out
   * of range), or a section on which `extract_syntaxhighlight` loops forever.
   */
  datatype Failure = HeaderLanguageMissing | TransFieldsMissing | NeverReturns

  datatype Solution = Solution(language: string, code: string)

  datatype Parsed = Parsed(task: string, solutions: seq<Solution>)

  const Init: Config := Config(Idle, "", map[], [], None, "")

  /** Holds for every configuration the loop reaches. */
  predicate Inv(c: Config) {
    && (forall k :: k in c.sections ==> k in c.keys)
    && (forall i :: 0 <= i < |c.keys| ==> c.keys[i] in c.sections)
    && (forall i, j :: 0 <= i < j < |c.keys| ==> c.keys[i] != c.keys[j])
    && (forall k :: k in c.sections ==> Lookup(k).Some?)
    && (c.mode == InSolution ==> c.language in c.sections)
  }

  // ---------------------------------------------------------------------------
  // Line classification, in the order the source tests it

  predicate IsTaskMarker(line: string) {
    || Contains(line, "{{clarify task}}")
    || Contains(line, "{{task}}")
    || Contains(line, "{{Task}}")
    || Contains(line, "{{task heading")
  }

  predicate IsHeaderMarker(line: string) {
    Contains(line, "{{header")
  }

  /** Output and input blocks; `{{in` also catches `{{incorrect`. */
  predicate IsOutputMarker(line: string) {
    "{{Out" <= line || "{{out" <= line || "{{ out" <= line || "{{in" <= line || "{{In" <= line
  }

  predicate IsWorksWithMarker(line: string) {
    Contains(line, "{{works with") || Contains(line, "{{Works with")
  }

  predicate IsTransMarker(line: string) {
    "{{trans" <= line || "{{Trans" <= line
  }

  predicate IsLibMarker(line: string) {
    "{{libheader" <= line
  }

  /** Lines the source skips without changing anything. */
  predicate IsAdvisoryMarker(line: string) {
    "{{omit from" <= Lower(line) || "{{incorrect" <= line || "{{wont work with" <= line || "{{Template:" <= line
  }

  /** A line that reaches the header branch. */
  predicate HeaderLine(line: string) {
    !IsTaskMarker(line) && IsHeaderMarker(line)
  }

  /** A line that reaches the `{{trans` branch. */
  predicate TransLine(line: string) {
    && !IsTaskMarker(line) && !IsHeaderMarker(line) && !IsOutputMarker(line)
    && !IsWorksWithMarker(line) && IsTransMarker(line)
  }

  /** A line that reaches the branch on the current state. */
  predicate Unmarked(line: string) {
    && !IsTaskMarker(line) && !IsHeaderMarker(line) && !IsOutputMarker(line)
    && !IsWorksWithMarker(line) && !IsTransMarker(line) && !IsLibMarker(line)
    && !IsAdvisoryMarker(line)
  }

  /** The label of a header line: from index 11 up to the first `}}`. */
  function HeaderLabel(line: string): (r: string)
    ensures |r| <= |line|
    ensures 11 <= Find(line, "}}") ==> r == line[11..Find(line, "}}")]
    ensures Find(line, "}}") == -1 && 12 <= |line| ==> r == line[11..|line| - 1]
  {
    PySlice(line, 11, Find(line, "}}"))
  }

  /** The `|`-separated fields between the first `{{` and the first `}}`. */
  function TemplateFields(line: string): (r: seq<string>)
    ensures |r| >= 1
    ensures forall k :: 0 <= k < |r| ==> '|' !in r[k]
  {
    Split(PySlice(line, Find(line, "{{") + 2, Find(line, "}}")), '|')
  }

  /** `{{works with|L}}` names `L`, `{{works with|L|V}}` names `L V`. */
  function WorksWithLabel(fields: seq<string>): string
    requires |fields| >= 2
  {
    if |fields| == 3 then fields[1] + " " + fields[2] else fields[1]
  }

  // ---------------------------------------------------------------------------
  // One line

  /**
   * A section label has been read: an accepted label opens (or reopens,
   * emptied) its section, any other label sends the machine idle.
   */
  function Enter(c: Config, name: string): (r: Config)
    requires Inv(c)
    ensures Inv(r) && c.keys <= r.keys
    ensures r.language == name && r.task == c.task && r.headerLang == c.headerLang
    ensures r.mode == InSolution <==> Lookup(name).Some?
    ensures r.mode == Idle <==> Lookup(name).None?
    ensures Lookup(name).Some? ==> r.sections == c.sections[name := ""]
    ensures Lookup(name).Some? ==> r.keys == if name in c.sections then c.keys else c.keys + [name]
    ensures Lookup(name).None? ==> r.sections == c.sections && r.keys == c.keys
  {
    if Lookup(name).Some? then
      c.(mode := InSolution, language := name, sections := c.sections[name := ""],
         keys := if name in c.sections then c.keys else c.keys + [name])
    else
      c.(mode := Idle, language := name)
  }

  /** An unmarked line's text goes to the task, to the open section, or nowhere. */
  function Absorb(c: Config, text: string): (r: Config)
    requires Inv(c)
    ensures Inv(r) && r.keys == c.keys && r.mode == c.mode && r.language == c.language
    ensures r.headerLang == c.headerLang
  {
    match c.mode
    case Idle => c
    case InTask => c.(task := c.task + text)
    case InSolution => c.(sections := c.sections[c.language := c.sections[c.language] + text])
  }

  function Step(c: Config, line: string): (r: Result<Config, Failure>)
    requires Inv(c)
    ensures r.Ok? ==> Inv(r.value) && c.keys <= r.value.keys
    ensures r.Err? ==> TransLine(line) && r.error != NeverReturns
    ensures r.Err? ==> (r.error == HeaderLanguageMissing <==> c.headerLang.None?)
    ensures r.Ok? && r.value.headerLang != c.headerLang ==> HeaderLine(line) && r.value.headerLang.Some?
    ensures r.Ok? && r.value.task != c.task ==> IsTaskMarker(line) || c.mode == InTask
  {
    if IsTaskMarker(line) then
      Ok(c.(mode := InTask, task := PySuffix(line, Find(line, "}}") + 2)))
    else if IsHeaderMarker(line) then
      var name := HeaderLabel(line);
      Ok(Enter(c.(headerLang := Some(name)), name))
    else if IsOutputMarker(line) then
      Ok(c.(mode := Idle))
    else if IsWorksWithMarker(line) then
      var fields := TemplateFields(line);
      if |fields| < 2 then Ok(c) else Ok(Enter(c, WorksWithLabel(fields)))
    else if IsTransMarker(line) then
      var fields := TemplateFields(line);
      if c.headerLang.None? then Err(HeaderLanguageMissing)
      else if |fields| < 2 then Err(TransFieldsMissing)
      else Ok(Enter(c, c.headerLang.value + " from " + fields[1]))
    else if IsLibMarker(line) then
      Ok(c.(mode := Idle))
    else if IsAdvisoryMarker(line) then
      Ok(c)
    else
      Ok(Absorb(c, line + "\n"))
  }

  function Run(c: Config, lines: seq<string>): (r: Result<Config, Failure>)
    requires Inv(c)
    ensures r.Ok? ==> Inv(r.value) && c.keys <= r.value.keys
    ensures r.Err? ==> r.error != NeverReturns
    ensures r.Err? ==> exists i :: 0 <= i < |lines| && TransLine(lines[i])
    decreases |lines|
  {
    if lines == [] then Ok(c)
    else match Step(c, lines[0])
      case Err(e) => Err(e)
      case Ok(next) =>
        var r := Run(next, lines[1..]);
        assert r.Err? ==> exists i :: 1 <= i < |lines| && TransLine(lines[i]) by {
          if r.Err? {
            var i :| 0 <= i < |lines[1..]| && TransLine(lines[1..][i]);
            assert lines[i + 1] == lines[1..][i];
          }
        }
        r
  }

  // ---------------------------------------------------------------------------
  // The output pass

  /** `clean_solution` of every section, in insertion order. */
  function Cleaned(sections: map<string, string>, keys: seq<string>): (r: seq<Option<string>>)
    requires forall i :: 0 <= i < |keys| ==> keys[i] in sections
    ensures |r| == |keys|
    ensures forall i :: 0 <= i < |keys| ==> r[i] == CleanSolution(sections[keys[i]])
  {
    seq(|keys|, i requires 0 <= i < |keys| => CleanSolution(sections[keys[i]]))
  }

  /** A cleaned solution the output keeps: not shorter than `MinSolutionLen`. */
  predicate Kept(code: string) {
    !(code == "" || |code| < MinSolutionLen)
  }

  /** The filter over the cleaned sections, in order. */
  function Keep(keys: seq<string>, cleaned: seq<Option<string>>): (r: Result<seq<Solution>, Failure>)
    requires |cleaned| == |keys|
    ensures r.Err? ==> r.error == NeverReturns
    ensures r.Ok? ==> |r.value| <= |keys|
    ensures r.Ok? ==> forall i :: 0 <= i < |r.value| ==> |r.value[i].code| >= MinSolutionLen
    decreases |keys|
  {
    if keys == [] then Ok([])
    else match cleaned[0]
      case None => Err(NeverReturns)
      case Some(code) =>
        match Keep(keys[1..], cleaned[1..])
        case Err(e) => Err(e)
        case Ok(tail) => if Kept(code) then Ok([Solution(keys[0], code)] + tail) else Ok(tail)
  }

  /** The filter fails exactly when some section never returns. */
  lemma {:induction false} KeepFails(keys: seq<string>, cleaned: seq<Option<string>>)
    requires |cleaned| == |keys|
    ensures Keep(keys, cleaned).Err? <==> exists p :: 0 <= p < |keys| && cleaned[p].None?
    decreases |keys|
  {
    if keys != [] {
      KeepFails(keys[1..], cleaned[1..]);
      forall p | 1 <= p < |keys| ensures cleaned[p] == cleaned[1..][p - 1] { }
    }
  }

  /** Every kept solution is a section's cleaned text under its own label. */
  lemma {:induction false} KeepSound(keys: seq<string>, cleaned: seq<Option<string>>, i: nat)
    requires |cleaned| == |keys|
    requires Keep(keys, cleaned).Ok? && i < |Keep(keys, cleaned).value|
    ensures var s := Keep(keys, cleaned).value[i];
      exists p :: 0 <= p < |keys| && keys[p] == s.language && cleaned[p] == Some(s.code) && Kept(s.code)
    decreases |keys|
  {
    var s := Keep(keys, cleaned).value[i];
    var tail := Keep(keys[1..], cleaned[1..]).value;
    if Kept(cleaned[0].value) && i == 0 {
      assert keys[0] == s.language && cleaned[0] == Some(s.code);
    } else {
      var k := if Kept(cleaned[0].value) then i - 1 else i;
      assert s == tail[k];
      KeepSound(keys[1..], cleaned[1..], k);
      var p :| 0 <= p < |keys[1..]| && keys[1..][p] == s.language && cleaned[1..][p] == Some(s.code) && Kept(s.code);
      assert keys[p + 1] == s.language && cleaned[p + 1] == Some(s.code);
    }
  }

  /** Every section whose cleaned text is long enough is kept. */
  lemma {:induction false} KeepComplete(keys: seq<string>, cleaned: seq<Option<string>>, p: nat)
    requires |cleaned| == |keys|
    requires Keep(keys, cleaned).Ok? && p < |keys|
    requires cleaned[p].Some? && Kept(cleaned[p].value)
    ensures Solution(keys[p], cleaned[p].value) in Keep(keys, cleaned).value
    decreases |keys|
  {
    var r := Keep(keys, cleaned).value;
    var tail := Keep(keys[1..], cleaned[1..]).value;
    if p > 0 {
      assert keys[1..][p - 1] == keys[p] && cleaned[1..][p - 1] == cleaned[p];
      KeepComplete(keys[1..], cleaned[1..], p - 1);
      assert Solution(keys[p], cleaned[p].value) in tail;
    }
  }

  /** Distinct labels stay distinct. */
  lemma {:induction false} KeepDistinct(keys: seq<string>, cleaned: seq<Option<string>>)
    requires |cleaned| == |keys|
    requires forall i, j :: 0 <= i < j < |keys| ==> keys[i] != keys[j]
    requires Keep(keys, cleaned).Ok?
    ensures var r := Keep(keys, cleaned).value;
      forall i, j :: 0 <= i < j < |r| ==> r[i].language != r[j].language
    decreases |keys|
  {
    var r := Keep(keys, cleaned).value;
    if keys != [] {
      var tail := Keep(keys[1..], cleaned[1..]).value;
      KeepDistinct(keys[1..], cleaned[1..]);
      if Kept(cleaned[0].value) {
        forall j | 1 <= j < |r| ensures r[0].language != r[j].language {
          assert r[j] == tail[j - 1];
          KeepSound(keys[1..], cleaned[1..], j - 1);
          var p :| 0 <= p < |keys[1..]| && keys[1..][p] == r[j].language;
          assert keys[p + 1] == r[j].language;
        }
        forall i, j | 1 <= i < j < |r| ensures r[i].language != r[j].language {
          assert r[i] == tail[i - 1] && r[j] == tail[j - 1];
        }
      }
    }
  }

  lemma AfterEmpty(acc: seq<Solution>, r: Result<seq<Solution>, Failure>)
    ensures After([], r) == r
    ensures After(acc, Ok([])) == Ok(acc)
  {
    if r.Ok? {
      assert [] + r.value == r.value;
    }
    assert acc + [] == acc;
  }

  lemma KeepStops(keys: seq<string>, cleaned: seq<Option<string>>, j: nat)
    requires |cleaned| == |keys| && j < |keys| && cleaned[j].None?
    ensures Keep(keys[j..], cleaned[j..]) == Err(NeverReturns)
  {
    assert cleaned[j..][0] == cleaned[j];
  }

  lemma KeepStep(keys: seq<string>, cleaned: seq<Option<string>>, j: nat, acc: seq<Solution>)
    requires |cleaned| == |keys| && j < |keys| && cleaned[j].Some?
    ensures var code := cleaned[j].value;
      After(acc, Keep(keys[j..], cleaned[j..]))
      == After(if Kept(code) then acc + [Solution(keys[j], code)] else acc, Keep(keys[j + 1..], cleaned[j + 1..]))
  {
    assert keys[j..][0] == keys[j] && keys[j..][1..] == keys[j + 1..];
    assert cleaned[j..][0] == cleaned[j] && cleaned[j..][1..] == cleaned[j + 1..];
    var code := cleaned[j].value;
    match Keep(keys[j + 1..], cleaned[j + 1..])
    case Err(e) =>
    case Ok(tail) =>
      if Kept(code) {
        assert acc + ([Solution(keys[j], code)] + tail) == acc + [Solution(keys[j], code)] + tail;
      }
  }

  /** The output pass: every section cleaned, the long enough ones kept. */
  function Collect(sections: map<string, string>, keys: seq<string>): Result<seq<Solution>, Failure>
    requires forall i :: 0 <= i < |keys| ==> keys[i] in sections
  {
    Keep(keys, Cleaned(sections, keys))
  }

  /** `After(acc, r)`: the result `r` of a later part of the pass, behind `acc`. */
  function After(acc: seq<Solution>, r: Result<seq<Solution>, Failure>): Result<seq<Solution>, Failure> {
    match r
    case Ok(rest) => Ok(acc + rest)
    case Err(e) => Err(e)
  }

  function Parse(lines: seq<string>, stripHtml: string -> string, transliterate: string -> string): (r: Result<Parsed, Failure>)
    ensures r.Ok? ==> Run(Init, lines).Ok?
    ensures r.Ok? ==> forall i :: 0 <= i < |r.value.solutions| ==> |r.value.solutions[i].code| >= MinSolutionLen
  {
    match Run(Init, lines)
    case Err(e) => Err(e)
    case Ok(c) =>
      match Collect(c.sections, c.keys)
      case Err(e) => Err(e)
      case Ok(solutions) => Ok(Parsed(CleanTask(c.task, stripHtml, transliterate), solutions))
  }

  // ---------------------------------------------------------------------------
  // What the segmenter does with a page

  /** Every line reaches the branch on the current state. */
  predicate AllUnmarked(lines: seq<string>)
    decreases |lines|
  {
    lines == [] || (Unmarked(lines[0]) && AllUnmarked(lines[1..]))
  }

  /** The text unmarked lines contribute: each line followed by a newline. */
  function Body(lines: seq<string>): string
    decreases |lines|
  {
    if lines == [] then "" else lines[0] + "\n" + Body(lines[1..])
  }

  lemma AbsorbNothing(c: Config)
    requires Inv(c)
    ensures Absorb(c, "") == c
  {
    match c.mode
    case Idle =>
    case InTask =>
      assert c.task + "" == c.task;
    case InSolution =>
      assert c.sections[c.language] + "" == c.sections[c.language];
      assert c.sections[c.language := c.sections[c.language]] == c.sections;
  }

  lemma AbsorbTwice(c: Config, a: string, b: string)
    requires Inv(c)
    ensures Absorb(Absorb(c, a), b) == Absorb(c, a + b)
  {
    match c.mode
    case Idle =>
    case InTask =>
      assert c.task + a + b == c.task + (a + b);
    case InSolution =>
      var t := c.sections[c.language];
      assert t + a + b == t + (a + b);
      var once := Absorb(c, a);
      assert once.sections == c.sections[c.language := t + a];
      assert once.sections[c.language] == t + a;
      MapOverride(c.sections, c.language, t + a, t + (a + b));
  }

  /**
   * A run of unmarked lines adds their text, a newline after each line, to
   * the task or to the open section, and is dropped while the machine is idle.
   */
  lemma {:induction false} UnmarkedLinesAppend(c: Config, lines: seq<string>)
    requires Inv(c) && AllUnmarked(lines)
    ensures Run(c, lines) == Ok(Absorb(c, Body(lines)))
    decreases |lines|
  {
    if lines == [] {
      AbsorbNothing(c);
    } else {
      var next := Absorb(c, lines[0] + "\n");
      assert Step(c, lines[0]) == Ok(next);
      UnmarkedLinesAppend(next, lines[1..]);
      AbsorbTwice(c, lines[0] + "\n", Body(lines[1..]));
    }
  }

  /**
   * A task marker starts the task over with what follows the first `}}` of
   * its line; the unmarked lines after it are appended to it.
   */
  lemma TaskCollectsFollowingLines(c: Config, marker: string, body: seq<string>)
    requires Inv(c) && IsTaskMarker(marker)
    requires AllUnmarked(body)
    ensures Run(c, [marker] + body)
      == Ok(c.(mode := InTask, task := PySuffix(marker, Find(marker, "}}") + 2) + Body(body)))
  {
    var lines := [marker] + body;
    assert lines[0] == marker && lines[1..] == body;
    var next := c.(mode := InTask, task := PySuffix(marker, Find(marker, "}}") + 2));
    assert Step(c, marker) == Ok(next);
    UnmarkedLinesAppend(next, body);
  }

  /** What a header line with an accepted label does to each variable. */
  lemma HeaderOpens(c: Config, header: string)
    requires Inv(c) && HeaderLine(header) && Lookup(HeaderLabel(header)).Some?
    ensures var name := HeaderLabel(header);
      var r := Step(c, header);
      && r.Ok?
      && r.value.mode == InSolution && r.value.language == name && r.value.headerLang == Some(name)
      && r.value.sections == c.sections[name := ""]
      && r.value.keys == (if name in c.sections then c.keys else c.keys + [name])
      && r.value.task == c.task
  {
  }

  /**
   * A header line with an accepted label opens that label's section empty,
   * and the unmarked lines after it become the section's text. A new label
   * joins the keys at the end; a label seen before keeps its place and
   * loses its earlier text.
   */
  lemma SectionCollectsFollowingLines(c: Config, header: string, body: seq<string>)
    requires Inv(c) && HeaderLine(header) && Lookup(HeaderLabel(header)).Some?
    requires AllUnmarked(body)
    ensures var name := HeaderLabel(header);
      var r := Run(c, [header] + body);
      && r.Ok?
      && r.value.mode == InSolution && r.value.language == name && r.value.headerLang == Some(name)
      && r.value.sections == c.sections[name := Body(body)]
      && r.value.keys == (if name in c.sections then c.keys else c.keys + [name])
      && r.value.task == c.task
  {
    var name := HeaderLabel(header);
    HeaderOpens(c, header);
    var next := Step(c, header).value;
    RunCons(c, header, body);
    UnmarkedLinesAppend(next, body);
    FreshSectionAbsorbs(next, Body(body));
    var final := next.(sections := next.sections[name := Body(body)]);
    assert Run(c, [header] + body) == Ok(final);
    MapOverride(c.sections, name, "", Body(body));
  }

  /**
   * After an output, input or `{{libheader` marker the unmarked lines go
   * nowhere: the task and every section stay as they were.
   */
  lemma ClosingMarkerDropsFollowingLines(c: Config, marker: string, body: seq<string>)
    requires Inv(c) && !IsTaskMarker(marker) && !IsHeaderMarker(marker)
    requires IsOutputMarker(marker) || (!IsWorksWithMarker(marker) && !IsTransMarker(marker) && IsLibMarker(marker))
    requires AllUnmarked(body)
    ensures Run(c, [marker] + body) == Ok(c.(mode := Idle))
  {
    var next := c.(mode := Idle);
    assert Step(c, marker) == Ok(next);
    RunCons(c, marker, body);
    UnmarkedLinesAppend(next, body);
  }

  /**
   * A header line whose label is not accepted sends the machine idle: the
   * unmarked lines after it go nowhere, and only the header language changes.
   */
  lemma RejectedHeaderDropsFollowingLines(c: Config, header: string, body: seq<string>)
    requires Inv(c) && HeaderLine(header) && Lookup(HeaderLabel(header)).None?
    requires AllUnmarked(body)
    ensures var name := HeaderLabel(header);
      Run(c, [header] + body) == Ok(c.(mode := Idle, language := name, headerLang := Some(name)))
  {
    var name := HeaderLabel(header);
    var next := c.(mode := Idle, language := name, headerLang := Some(name));
    assert Step(c, header) == Ok(next);
    RunCons(c, header, body);
    UnmarkedLinesAppend(next, body);
  }

  lemma MapOverride(m: map<string, string>, k: string, a: string, b: string)
    ensures m[k := a][k := b] == m[k := b]
  {
  }

  lemma RunCons(c: Config, line: string, rest: seq<string>)
    requires Inv(c) && Step(c, line).Ok?
    ensures Run(c, [line] + rest) == Run(Step(c, line).value, rest)
  {
    assert ([line] + rest)[0] == line && ([line] + rest)[1..] == rest;
  }

  lemma FreshSectionAbsorbs(d: Config, text: string)
    requires Inv(d) && d.mode == InSolution && d.sections[d.language] == ""
    ensures Absorb(d, text) == d.(sections := d.sections[d.language := text])
  {
    assert "" + text == text;
  }

  /** A line the source skips can be deleted from the page without changing the run. */
  lemma SkippedLineChangesNothing(c: Config, line: string, rest: seq<string>)
    requires Inv(c)
    requires !IsTaskMarker(line) && !IsHeaderMarker(line) && !IsOutputMarker(line)
    requires !IsWorksWithMarker(line) && !IsTransMarker(line) && !IsLibMarker(line)
    requires IsAdvisoryMarker(line)
    ensures Run(c, [line] + rest) == Run(c, rest)
  {
    assert ([line] + rest)[0] == line && ([line] + rest)[1..] == rest;
  }

  /**
   * `{{incorrect` lines meet the `{{in` test of the output rule before the
   * rule that skips them: instead of being skipped they close the open
   * section, so what follows them is dropped.
   */
  lemma IncorrectMarkerEndsSection(c: Config, line: string)
    requires Inv(c) && "{{incorrect" <= line
    requires !IsTaskMarker(line) && !IsHeaderMarker(line)
    ensures IsAdvisoryMarker(line)
    ensures Step(c, line) == Ok(c.(mode := Idle))
  {
    assert line[..4] == "{{incorrect"[..4];
    assert "{{in" <= line;
  }

  lemma {:induction false} HeaderLanguageStaysSet(c: Config, lines: seq<string>)
    requires Inv(c) && c.headerLang.Some?
    ensures Run(c, lines) != Err(HeaderLanguageMissing)
    decreases |lines|
  {
    if lines != [] {
      var r := Step(c, lines[0]);
      if r.Ok? {
        HeaderLanguageStaysSet(r.value, lines[1..]);
      }
    }
  }

  /**
   * Some `{{trans` line comes before any header line: scanning from the
   * front, a trans line is met before a header line (a trans line is never
   * a header line).
   */
  predicate TransBeforeHeader(lines: seq<string>)
    decreases |lines|
  {
    lines != [] && (TransLine(lines[0]) || (!HeaderLine(lines[0]) && TransBeforeHeader(lines[1..])))
  }

  /**
   * With no header seen yet, a run fails for want of a header language
   * exactly when a `{{trans` line comes before any header line.
   */
  lemma {:induction false} HeaderLanguageMissingIff(c: Config, lines: seq<string>)
    requires Inv(c) && c.headerLang.None?
    ensures Run(c, lines) == Err(HeaderLanguageMissing) <==> TransBeforeHeader(lines)
    decreases |lines|
  {
    if lines != [] {
      var first := lines[0];
      if !TransLine(first) {
        var next := Step(c, first).value;
        if HeaderLine(first) {
          HeaderLanguageStaysSet(next, lines[1..]);
        } else {
          HeaderLanguageMissingIff(next, lines[1..]);
        }
      }
    }
  }

  /**
   * The filter keeps exactly the sections whose cleaned text is long
   * enough, each under its own label and each label once.
   */
  lemma CollectOutput(sections: map<string, string>, keys: seq<string>)
    requires forall i :: 0 <= i < |keys| ==> keys[i] in sections
    requires forall k :: k in sections ==> k in keys
    requires forall i, j :: 0 <= i < j < |keys| ==> keys[i] != keys[j]
    requires Collect(sections, keys).Ok?
    ensures var out := Collect(sections, keys).value;
      && (forall i :: 0 <= i < |out| ==>
            && out[i].language in sections
            && CleanSolution(sections[out[i].language]) == Some(out[i].code)
            && |out[i].code| >= MinSolutionLen)
      && (forall k ::
            (k in sections && CleanSolution(sections[k]).Some? && |CleanSolution(sections[k]).value| >= MinSolutionLen)
            ==> Solution(k, CleanSolution(sections[k]).value) in out)
      && (forall i, j :: 0 <= i < j < |out| ==> out[i].language != out[j].language)
  {
    var cleaned := Cleaned(sections, keys);
    var out := Keep(keys, cleaned).value;
    forall i | 0 <= i < |out|
      ensures out[i].language in sections
      ensures CleanSolution(sections[out[i].language]) == Some(out[i].code)
    {
      KeepSound(keys, cleaned, i);
    }
    forall k | k in sections && CleanSolution(sections[k]).Some?
      && |CleanSolution(sections[k]).value| >= MinSolutionLen
      ensures Solution(k, CleanSolution(sections[k]).value) in out
    {
      var p :| 0 <= p < |keys| && keys[p] == k;
      KeepComplete(keys, cleaned, p);
    }
    KeepDistinct(keys, cleaned);
  }

  /**
   * The output's solutions are exactly the sections whose cleaned text is
   * long enough, each under an accepted label and each label once; the task
   * is the cleaned task text.
   */
  lemma ParseOutput(lines: seq<string>, stripHtml: string -> string, transliterate: string -> string)
    requires Parse(lines, stripHtml, transliterate).Ok?
    ensures var c := Run(Init, lines).value;
      var out := Parse(lines, stripHtml, transliterate).value;
      && out.task == CleanTask(c.task, stripHtml, transliterate)
      && (forall i :: 0 <= i < |out.solutions| ==>
            && out.solutions[i].language in c.sections
            && Lookup(out.solutions[i].language).Some?
            && CleanSolution(c.sections[out.solutions[i].language]) == Some(out.solutions[i].code)
            && |out.solutions[i].code| >= MinSolutionLen)
      && (forall k ::
            (k in c.sections && CleanSolution(c.sections[k]).Some? && |CleanSolution(c.sections[k]).value| >= MinSolutionLen)
            ==> Solution(k, CleanSolution(c.sections[k]).value) in out.solutions)
      && (forall i, j :: 0 <= i < j < |out.solutions| ==> out.solutions[i].language != out.solutions[j].language)
  {
    var c := Run(Init, lines).value;
    assert Inv(c);
    CollectOutput(c.sections, c.keys);
  }

  /** Some section holds a start tag with no `>` anywhere after it. */
  ghost predicate Unterminated(sections: map<string, string>) {
    exists k, p: nat :: k in sections && StartTagAt(sections[k], p) && FindFrom(sections[k], ">", p) < 0
  }

  /** The output pass fails exactly when some section has an unterminated start tag. */
  lemma CollectNeverReturnsIff(sections: map<string, string>, keys: seq<string>)
    requires forall i :: 0 <= i < |keys| ==> keys[i] in sections
    requires forall k :: k in sections ==> k in keys
    ensures Collect(sections, keys).Err? <==> Unterminated(sections)
  {
    var cleaned := Cleaned(sections, keys);
    KeepFails(keys, cleaned);
    if Unterminated(sections) {
      var k, p: nat :| k in sections && StartTagAt(sections[k], p) && FindFrom(sections[k], ">", p) < 0;
      ExtractTerminates(sections[k]);
      var q :| 0 <= q < |keys| && keys[q] == k;
      assert cleaned[q].None?;
    }
    if Collect(sections, keys).Err? {
      var q :| 0 <= q < |keys| && cleaned[q].None?;
      ExtractTerminates(sections[keys[q]]);
    }
  }

  /**
   * The parse never returns exactly when the lines segment without error
   * and some section holds a start tag with no `>` anywhere after it.
   */
  lemma ParseNeverReturnsIff(lines: seq<string>, stripHtml: string -> string, transliterate: string -> string)
    ensures Parse(lines, stripHtml, transliterate) == Err(NeverReturns) <==>
      Run(Init, lines).Ok? && Unterminated(Run(Init, lines).value.sections)
  {
    var run := Run(Init, lines);
    if run.Ok? {
      CollectNeverReturnsIff(run.value.sections, run.value.keys);
    }
  }

  // ---------------------------------------------------------------------------
  // Where the labels come from

  /** The first `}}` of a line ends the first run of text without `}`. */
  lemma FirstClose(line: string, m: nat)
    requires m + 2 <= |line| && line[m] == '}' && line[m + 1] == '}'
    requires forall k :: 0 <= k < m ==> line[k] != '}'
    ensures Find(line, "}}") == m
  {
    assert line[m..m + 2] == "}}";
    forall k | 0 <= k < m ensures !OccursAt(line, "}}", k) {
      OccursAtHead(line, "}}", k);
    }
    var r := Find(line, "}}");
    assert OccursAt(line, "}}", m);
    assert r != -1 && !(r < m) && !(r > m);
  }

  /** In `=={{header|L}}…` the label is `L`: index 11 is just past `=={{header|`. */
  lemma HeadingLabel(name: string, tail: string)
    requires '}' !in name
    ensures IsHeaderMarker("=={{header|" + name + "}}" + tail)
    ensures HeaderLabel("=={{header|" + name + "}}" + tail) == name
  {
    var front := "=={{header|";
    var line := front + name + "}}" + tail;
    var m := |front| + |name|;
    assert line[2..10] == "{{header";
    ContainsAt(line, "{{header", 2);
    forall k | 0 <= k < m ensures line[k] != '}' {
      if k < |front| {
        assert line[k] == front[k];
      } else {
        assert line[k] == name[k - |front|];
      }
    }
    assert line[m] == '}' && line[m + 1] == '}';
    FirstClose(line, m);
    assert line[11..m] == name;
  }

  /** The fields of `{{inner}}…` are the `|`-separated pieces of `inner`. */
  lemma TemplateFieldsOf(inner: string, tail: string)
    requires '}' !in inner
    ensures TemplateFields("{{" + inner + "}}" + tail) == Split(inner, '|')
  {
    var line := "{{" + inner + "}}" + tail;
    var m := 2 + |inner|;
    assert line[0..2] == "{{";
    assert OccursAt(line, "{{", 0);
    forall k | 0 <= k < m ensures line[k] != '}' {
      if k >= 2 {
        assert line[k] == inner[k - 2];
      }
    }
    assert line[m] == '}' && line[m + 1] == '}';
    FirstClose(line, m);
    assert line[2..m] == inner;
  }

  /** A line that opens with `{{` and a lower-case letter other than `i` starts no output block. */
  lemma NotOutputMarker(line: string)
    requires |line| >= 3 && line[..2] == "{{" && 'a' <= line[2] <= 'z' && line[2] != 'i' && line[2] != 'o'
    ensures !IsOutputMarker(line)
  {
    PrefixThird("{{Out", line);
    PrefixThird("{{out", line);
    PrefixThird("{{ out", line);
    PrefixThird("{{in", line);
    PrefixThird("{{In", line);
  }

  lemma PrefixThird(p: string, s: string)
    ensures |p| >= 3 && p <= s ==> s[2] == p[2]
  {
  }

  lemma WorksWithStep(c: Config, line: string)
    requires Inv(c)
    requires !IsTaskMarker(line) && !IsHeaderMarker(line) && !IsOutputMarker(line) && IsWorksWithMarker(line)
    requires |TemplateFields(line)| >= 2
    ensures Step(c, line) == Ok(Enter(c, WorksWithLabel(TemplateFields(line))))
  {
  }

  lemma TransStep(c: Config, line: string)
    requires Inv(c) && TransLine(line)
    ensures c.headerLang.None? ==> Step(c, line) == Err(HeaderLanguageMissing)
    ensures c.headerLang.Some? && |TemplateFields(line)| >= 2 ==>
      Step(c, line) == Ok(Enter(c, c.headerLang.value + " from " + TemplateFields(line)[1]))
  {
  }

  /** The template call `{{f0|f1|…}}`. */
  function Template(fields: seq<string>): string
    requires |fields| >= 1
  {
    "{{" + Join(fields, '|') + "}}"
  }

  /** The fields of a template call are read back as they were written. */
  lemma TemplateRoundTrip(fields: seq<string>, tail: string)
    requires |fields| >= 1
    requires forall k :: 0 <= k < |fields| ==> '|' !in fields[k] && '}' !in fields[k]
    ensures TemplateFields(Template(fields) + tail) == fields
  {
    NotInJoin(fields, '|', '}');
    TemplateFieldsOf(Join(fields, '|'), tail);
    JoinSplit(fields, '|');
  }

  /** A template call starts with `{{` and its first field. */
  lemma TemplateStart(fields: seq<string>, tail: string)
    requires |fields| >= 2
    ensures "{{" + fields[0] + "|" <= Template(fields) + tail
  {
    assert Template(fields) + tail == "{{" + fields[0] + "|" + (Join(fields[1..], '|') + "}}" + tail);
  }

  /** `{{works with…` is a works-with marker and starts no output block. */
  lemma WorksWithMarkers(line: string)
    requires "{{works with|" <= line
    ensures IsWorksWithMarker(line) && !IsOutputMarker(line)
  {
    assert line[..12] == "{{works with";
    assert line[..2] == "{{" && line[2] == 'w';
    NotOutputMarker(line);
    ContainsAt(line, "{{works with", 0);
  }

  /** `{{trans…` is a trans marker and starts no output block. */
  lemma TransMarkers(line: string)
    requires "{{trans|" <= line
    ensures IsTransMarker(line) && !IsOutputMarker(line)
  {
    assert line[..7] == "{{trans";
    assert line[..2] == "{{" && line[2] == 't';
    NotOutputMarker(line);
  }

  /** A template call whose first field is `works with` is a works-with marker. */
  lemma WorksWithTemplate(fields: seq<string>, tail: string)
    requires |fields| >= 2 && fields[0] == "works with"
    ensures IsWorksWithMarker(Template(fields) + tail) && !IsOutputMarker(Template(fields) + tail)
  {
    TemplateStart(fields, tail);
    assert "{{" + fields[0] + "|" == "{{works with|";
    WorksWithMarkers(Template(fields) + tail);
  }

  /** What the source reads off a `{{works with|L|V}}` line. */
  lemma WorksWithLine(lang: string, version: string, tail: string)
    requires '|' !in lang && '}' !in lang && '|' !in version && '}' !in version
    ensures var line := Template(["works with", lang, version]) + tail;
      IsWorksWithMarker(line) && !IsOutputMarker(line)
      && TemplateFields(line) == ["works with", lang, version]
  {
    var fields := ["works with", lang, version];
    TemplateRoundTrip(fields, tail);
    WorksWithTemplate(fields, tail);
  }

  /**
   * `{{works with|L|V}}` names the section `L V`, which is opened when that
   * label is accepted.
   */
  lemma WorksWithVersion(c: Config, lang: string, version: string, tail: string)
    requires Inv(c)
    requires '|' !in lang && '}' !in lang && '|' !in version && '}' !in version
    requires var line := Template(["works with", lang, version]) + tail;
      !IsTaskMarker(line) && !IsHeaderMarker(line)
    ensures Step(c, Template(["works with", lang, version]) + tail) == Ok(Enter(c, lang + " " + version))
  {
    WorksWithLine(lang, version, tail);
    WorksWithStep(c, Template(["works with", lang, version]) + tail);
  }

  /** A template call whose first field is `trans` is a trans marker. */
  lemma TransTemplate(fields: seq<string>, tail: string)
    requires |fields| >= 2 && fields[0] == "trans"
    ensures IsTransMarker(Template(fields) + tail) && !IsOutputMarker(Template(fields) + tail)
  {
    TemplateStart(fields, tail);
    assert "{{" + fields[0] + "|" == "{{trans|";
    TransMarkers(Template(fields) + tail);
  }

  /** What the source reads off a `{{trans|L}}` line. */
  lemma TransLineFields(source: string, tail: string)
    requires '|' !in source && '}' !in source
    ensures var line := Template(["trans", source]) + tail;
      IsTransMarker(line) && !IsOutputMarker(line)
      && TemplateFields(line) == ["trans", source]
  {
    var fields := ["trans", source];
    TemplateRoundTrip(fields, tail);
    TransTemplate(fields, tail);
  }

  /**
   * `{{trans|L}}` names the section `H from L`, with `H` the last header
   * label seen; with no header seen the source fails.
   */
  lemma TransSource(c: Config, source: string, tail: string)
    requires Inv(c)
    requires '|' !in source && '}' !in source
    requires var line := Template(["trans", source]) + tail;
      !IsTaskMarker(line) && !IsHeaderMarker(line) && !IsWorksWithMarker(line)
    ensures Step(c, Template(["trans", source]) + tail)
      == if c.headerLang.None? then Err(HeaderLanguageMissing)
         else Ok(Enter(c, c.headerLang.value + " from " + source))
  {
    TransLineFields(source, tail);
    TransStep(c, Template(["trans", source]) + tail);
  }

  // ---------------------------------------------------------------------------
  // The source's loop

  /** The body of the loop: one line through the source's chain of tests. */
  method Feed(c: Config, line: string) returns (r: Result<Config, Failure>)
    requires Inv(c)
    ensures r == Step(c, line)
  {
    var state, task, sections, keys, headerLang, language := c.mode, c.task, c.sections, c.keys, c.headerLang, c.language;
    if IsTaskMarker(line) {
      state := InTask;
      task := PySuffix(line, Find(line, "}}") + 2);
      assert Step(c, line) == Ok(Config(state, task, sections, keys, headerLang, language));
    } else if IsHeaderMarker(line) {
      language := PySlice(line, 11, Find(line, "}}"));
      headerLang := Some(language);
      if Lookup(language).Some? {
        state := InSolution;
        if language !in sections {
          keys := keys + [language];
        }
        sections := sections[language := ""];
      } else {
        state := Idle;
      }
      assert Config(state, task, sections, keys, headerLang, language) == Enter(c.(headerLang := Some(language)), language);
      assert Step(c, line) == Ok(Config(state, task, sections, keys, headerLang, language));
    } else if IsOutputMarker(line) {
      state := Idle;
      assert Step(c, line) == Ok(Config(state, task, sections, keys, headerLang, language));
    } else if IsWorksWithMarker(line) {
      var worksWith := Split(PySlice(line, Find(line, "{{") + 2, Find(line, "}}")), '|');
      if |worksWith| >= 2 {
        language := if |worksWith| == 3 then worksWith[1] + " " + worksWith[2] else worksWith[1];
        if Lookup(language).Some? {
          state := InSolution;
          if language !in sections {
            keys := keys + [language];
          }
          sections := sections[language := ""];
        } else {
          state := Idle;
        }
        assert Config(state, task, sections, keys, headerLang, language) == Enter(c, WorksWithLabel(worksWith));
      }
      assert Step(c, line) == Ok(Config(state, task, sections, keys, headerLang, language));
    } else if IsTransMarker(line) {
      var trans := Split(PySlice(line, Find(line, "{{") + 2, Find(line, "}}")), '|');
      if headerLang.None? {
        return Err(HeaderLanguageMissing);
      }
      if |trans| < 2 {
        return Err(TransFieldsMissing);
      }
      language := headerLang.value + " from " + trans[1];
      if Lookup(language).Some? {
        state := InSolution;
        if language !in sections {
          keys := keys + [language];
        }
        sections := sections[language := ""];
      } else {
        state := Idle;
      }
      assert Config(state, task, sections, keys, headerLang, language) == Enter(c, language);
      assert Step(c, line) == Ok(Config(state, task, sections, keys, headerLang, language));
    } else if IsLibMarker(line) {
      state := Idle;
      assert Step(c, line) == Ok(Config(state, task, sections, keys, headerLang, language));
    } else if IsAdvisoryMarker(line) {
      assert Step(c, line) == Ok(Config(state, task, sections, keys, headerLang, language));
    } else {
      if state == InTask {
        task := task + (line + "\n");
      } else if state == InSolution {
        sections := sections[language := sections[language] + (line + "\n")];
      }
      assert Config(state, task, sections, keys, headerLang, language) == Absorb(c, line + "\n");
      assert Step(c, line) == Ok(Config(state, task, sections, keys, headerLang, language));
    }
    r := Ok(Config(state, task, sections, keys, headerLang, language));
  }

  /** The loop over the page's lines. */
  method Segment(lines: seq<string>) returns (r: Result<Config, Failure>)
    ensures r == Run(Init, lines)
  {
    var c := Init;
    var i := 0;
    while i < |lines|
      invariant i <= |lines| && Inv(c)
      invariant Run(Init, lines) == Run(c, lines[i..])
    {
      assert lines[i..][0] == lines[i] && lines[i..][1..] == lines[i + 1..];
      var next := Feed(c, lines[i]);
      if next.Err? {
        return Err(next.error);
      }
      c := next.value;
      i := i + 1;
    }
    assert lines[i..] == [];
    r := Ok(c);
  }

  /** The loop over the sections, in insertion order. */
  method Filter(sections: map<string, string>, keys: seq<string>) returns (r: Result<seq<Solution>, Failure>)
    requires forall i :: 0 <= i < |keys| ==> keys[i] in sections
    ensures r == Collect(sections, keys)
  {
    var solutions: seq<Solution> := [];
    ghost var cleaned := Cleaned(sections, keys);
    var j := 0;
    assert keys[j..] == keys && cleaned[j..] == cleaned;
    AfterEmpty(solutions, Keep(keys, cleaned));
    while j < |keys|
      invariant j <= |keys|
      invariant Keep(keys, cleaned) == After(solutions, Keep(keys[j..], cleaned[j..]))
    {
      var solution := CleanSolution(sections[keys[j]]);
      assert cleaned[j] == solution;
      if solution.None? {
        KeepStops(keys, cleaned, j);
        return Err(NeverReturns);
      }
      KeepStep(keys, cleaned, j, solutions);
      if !(solution.value == "" || |solution.value| < MinSolutionLen) {
        solutions := solutions + [Solution(keys[j], solution.value)];
      } else {
        assert !Kept(solution.value);
      }
      j := j + 1;
    }
    assert keys[j..] == [] && cleaned[j..] == [];
    AfterEmpty(solutions, Keep(keys, cleaned));
    r := Ok(solutions);
  }

  method ParseRosettaCode(lines: seq<string>, stripHtml: string -> string, transliterate: string -> string)
    returns (r: Result<Parsed, Failure>)
    ensures r == Parse(lines, stripHtml, transliterate)
  {
    var segmented := Segment(lines);
    if segmented.Err? {
      return Err(segmented.error);
    }
    var c := segmented.value;
    var output := CleanTask(c.task, stripHtml, transliterate);
    var solutions := Filter(c.sections, c.keys);
    if solutions.Err? {
      return Err(solutions.error);
    }
    r := Ok(Parsed(output, solutions.value));
  }
}
