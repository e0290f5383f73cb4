/**
 * The code block extractor (`extract_syntaxhighlight`) and the solution
 * cleaner built on it (`clean_solution`).
 *
 * The extractor is specified in three steps that the source interleaves in
 * one loop: `TokensFrom` lists the tags the scanner meets, `Match` pairs
 * them with a stack, and `Pick` keeps the first strictly longest content.
 * When the scanner meets a start tag with no `>` after it, the source's
 * index falls back to 0 and the loop never ends; the model answers `None`
 * for such input.
 */
module CodeBlocks {
  import opened Wrappers
  import opened PyStr

  const StartTag: string := "<syntaxhighlight"
  const EndTag: string := "</syntaxhighlight>"

  predicate StartTagAt(s: string, i: int) {
    OccursAt(s, StartTag, i)
  }

  predicate EndTagAt(s: string, i: int) {
    OccursAt(s, EndTag, i)
  }

  /** A tag the scanner meets: the content start after a start tag's `>`, or the index of an end tag. */
  datatype Tag = Open(content: nat) | Close(at: nat)

  function Pos(t: Tag): nat {
    match t
    case Open(a) => a
    case Close(b) => b
  }

  /** The content between a start tag (one past its `>`) and the end tag that closes it. */
  datatype Pair = Pair(start: nat, stop: nat)

  function Prepend(t: Tag, rest: Option<seq<Tag>>): Option<seq<Tag>> {
    match rest
    case None => None
    case Some(ts) => Some([t] + ts)
  }

  /** The tags met by a scan starting at index `i`; `None` if the scan never ends. */
  function TokensFrom(s: string, i: nat): Option<seq<Tag>>
    requires i <= |s|
    decreases |s| - i
  {
    if i == |s| then Some([])
    else if StartTagAt(s, i) then
      var q := FindFrom(s, ">", i);
      if q < 0 then None else Prepend(Open(q + 1), TokensFrom(s, q + 1))
    else if EndTagAt(s, i) then Prepend(Close(i), TokensFrom(s, i + |EndTag|))
    else TokensFrom(s, i + 1)
  }

  /** Stack matching: an end tag closes the latest open start tag; with none open it is ignored. */
  function Match(tags: seq<Tag>, stack: seq<nat>): seq<Pair>
    decreases |tags|
  {
    if tags == [] then []
    else match tags[0]
      case Open(a) => Match(tags[1..], stack + [a])
      case Close(b) =>
        if stack == [] then Match(tags[1..], stack)
        else [Pair(stack[|stack| - 1], b)] + Match(tags[1..], stack[..|stack| - 1])
  }

  function Content(s: string, p: Pair): string {
    PySlice(s, p.start, p.stop)
  }

  /** Scan `pairs` in order, replacing `best` only by strictly longer content. */
  function Pick(s: string, pairs: seq<Pair>, best: string): (r: string)
    ensures r == best || (|best| < |r| <= |s|)
    decreases |pairs|
  {
    if pairs == [] then best
    else
      var c := Content(s, pairs[0]);
      Pick(s, pairs[1..], if |c| > |best| then c else best)
  }

  /** Every matched pair of a terminating scan of `s`, in the order their end tags are met. */
  function Pairs(s: string): seq<Pair> {
    match TokensFrom(s, 0)
    case None => []
    case Some(t) => Match(t, [])
  }

  /** What `extract_syntaxhighlight(s)` returns, or `None` when it never returns. */
  function Extracted(s: string): (r: Option<string>)
    ensures r.Some? ==> |r.value| <= |s|
  {
    match TokensFrom(s, 0)
    case None => None
    case Some(t) => Some(Pick(s, Pairs(s), ""))
  }

  /** The rest of a scan resumed at index `i` with `stack` open and `best` kept so far. */
  function Resume(s: string, i: nat, stack: seq<nat>, best: string): Option<string>
    requires i <= |s|
  {
    match TokensFrom(s, i)
    case None => None
    case Some(t) => Some(Pick(s, Match(t, stack), best))
  }

  /** A start tag pushes its content start, or ends the scan when no `>` follows it. */
  lemma ResumeOpen(s: string, i: nat, stack: seq<nat>, best: string)
    requires i < |s| && StartTagAt(s, i)
    ensures var q := FindFrom(s, ">", i);
      Resume(s, i, stack, best) == if q < 0 then None else Resume(s, q + 1, stack + [q + 1], best)
  {
    var q := FindFrom(s, ">", i);
    if q >= 0 {
      match TokensFrom(s, q + 1)
      case None =>
      case Some(t) =>
        assert ([Open(q + 1)] + t)[1..] == t;
    }
  }

  /** An end tag pops the latest start and offers the content between them. */
  lemma ResumeClose(s: string, i: nat, stack: seq<nat>, best: string)
    requires i < |s| && !StartTagAt(s, i) && EndTagAt(s, i)
    ensures i + |EndTag| <= |s|
    ensures Resume(s, i, stack, best) ==
      if stack == [] then Resume(s, i + |EndTag|, stack, best)
      else
        var c := PySlice(s, stack[|stack| - 1], i);
        Resume(s, i + |EndTag|, stack[..|stack| - 1], if |c| > |best| then c else best)
  {
    match TokensFrom(s, i + |EndTag|)
    case None =>
    case Some(t) =>
      assert ([Close(i)] + t)[1..] == t;
  }

  lemma ResumeOther(s: string, i: nat, stack: seq<nat>, best: string)
    requires i < |s| && !StartTagAt(s, i) && !EndTagAt(s, i)
    ensures Resume(s, i, stack, best) == Resume(s, i + 1, stack, best)
  {
  }

  /** `extract_syntaxhighlight`: the source's scanning loop. */
  method ExtractSyntaxHighlight(s: string) returns (r: Option<string>)
    ensures r == Extracted(s)
  {
    var maxContents := "";
    var stack: seq<nat> := [];
    var i: nat := 0;
    while i < |s|
      invariant i <= |s|
      invariant Resume(s, i, stack, maxContents) == Extracted(s)
      decreases |s| - i
    {
      if StartTagAt(s, i) {
        ResumeOpen(s, i, stack, maxContents);
        var startTagEnd := FindFrom(s, ">", i) + 1;
        if startTagEnd == 0 {
          // `find` answered -1: the source's index returns to 0 and the scan repeats forever
          return None;
        }
        stack := stack + [startTagEnd];
        i := startTagEnd;
      } else if EndTagAt(s, i) {
        ResumeClose(s, i, stack, maxContents);
        if stack != [] {
          var startIndex := stack[|stack| - 1];
          stack := stack[..|stack| - 1];
          var contents := PySlice(s, startIndex, i);
          if |contents| > |maxContents| {
            maxContents := contents;
          }
        }
        i := i + |EndTag|;
      } else {
        ResumeOther(s, i, stack, maxContents);
        i := i + 1;
      }
    }
    r := Some(maxContents);
  }

  // ---------------------------------------------------------------------------
  // What the extractor returns

  /** `a` is one past the `>` that closes a start tag. */
  ghost predicate OpenAt(s: string, a: int) {
    exists p: nat :: StartTagAt(s, p) && FindFrom(s, ">", p) == a - 1
  }

  ghost predicate TagOk(s: string, t: Tag) {
    match t
    case Open(a) => a <= |s| && OpenAt(s, a)
    case Close(b) => EndTagAt(s, b)
  }

  /** Tags that really stand in `s`, at or after `lo`, in increasing position. */
  ghost predicate TokensOk(s: string, lo: nat, t: seq<Tag>) {
    && (forall k :: 0 <= k < |t| ==> TagOk(s, t[k]) && lo <= Pos(t[k]))
    && (forall j, k :: 0 <= j < k < |t| ==> Pos(t[j]) <= Pos(t[k]))
  }

  ghost predicate PairOk(s: string, p: Pair) {
    OpenAt(s, p.start) && EndTagAt(s, p.stop) && p.start <= p.stop
  }

  lemma TokensOkCons(s: string, lo: nat, x: Tag, m: nat, ts: seq<Tag>)
    requires TagOk(s, x) && lo <= Pos(x) <= m
    requires TokensOk(s, m, ts)
    ensures TokensOk(s, lo, [x] + ts)
  {
    var t := [x] + ts;
    forall k | 0 < k < |t| ensures t[k] == ts[k - 1] {
    }
  }

  lemma TokensOkWeaken(s: string, lo: nat, m: nat, ts: seq<Tag>)
    requires lo <= m && TokensOk(s, m, ts)
    ensures TokensOk(s, lo, ts)
  {
  }

  lemma PrependOk(s: string, lo: nat, x: Tag, m: nat, rest: Option<seq<Tag>>)
    requires TagOk(s, x) && lo <= Pos(x) <= m
    requires rest.Some? ==> TokensOk(s, m, rest.value)
    ensures Prepend(x, rest).Some? ==> TokensOk(s, lo, Prepend(x, rest).value)
  {
    if rest.Some? {
      TokensOkCons(s, lo, x, m, rest.value);
    }
  }

  lemma TokensAtOpen(s: string, i: nat)
    requires i < |s| && StartTagAt(s, i) && FindFrom(s, ">", i) >= 0
    ensures var q := FindFrom(s, ">", i);
      q + 1 <= |s| && OpenAt(s, q + 1) && TokensFrom(s, i) == Prepend(Open(q + 1), TokensFrom(s, q + 1))
  {
  }

  lemma TokensAtClose(s: string, i: nat)
    requires i < |s| && !StartTagAt(s, i) && EndTagAt(s, i)
    ensures i + |EndTag| <= |s| && TokensFrom(s, i) == Prepend(Close(i), TokensFrom(s, i + |EndTag|))
  {
  }

  lemma TokensAtOther(s: string, i: nat)
    requires i < |s| && !StartTagAt(s, i) && !EndTagAt(s, i)
    ensures TokensFrom(s, i) == TokensFrom(s, i + 1)
  {
  }

  lemma {:induction false} TokensWellFormed(s: string, i: nat)
    requires i <= |s|
    ensures TokensFrom(s, i).Some? ==> TokensOk(s, i, TokensFrom(s, i).value)
    decreases |s| - i
  {
    if i < |s| {
      if StartTagAt(s, i) {
        var q := FindFrom(s, ">", i);
        if q >= 0 {
          TokensAtOpen(s, i);
          TokensWellFormed(s, q + 1);
          PrependOk(s, i, Open(q + 1), q + 1, TokensFrom(s, q + 1));
        }
      } else if EndTagAt(s, i) {
        TokensAtClose(s, i);
        TokensWellFormed(s, i + |EndTag|);
        PrependOk(s, i, Close(i), i + |EndTag|, TokensFrom(s, i + |EndTag|));
      } else {
        TokensAtOther(s, i);
        TokensWellFormed(s, i + 1);
        if TokensFrom(s, i + 1).Some? {
          TokensOkWeaken(s, i, i + 1, TokensFrom(s, i + 1).value);
        }
      }
    }
  }

  lemma {:induction false} MatchWellFormed(s: string, t: seq<Tag>, stack: seq<nat>, lo: nat)
    requires TokensOk(s, lo, t)
    requires forall k :: 0 <= k < |stack| ==> stack[k] <= lo && stack[k] <= |s| && OpenAt(s, stack[k])
    ensures forall k :: 0 <= k < |Match(t, stack)| ==> PairOk(s, Match(t, stack)[k])
    decreases |t|
  {
    if t != [] {
      assert TagOk(s, t[0]);
      forall k | 0 <= k < |t[1..]| ensures TagOk(s, t[1..][k]) && Pos(t[0]) <= Pos(t[1..][k]) {
        assert t[1..][k] == t[k + 1];
      }
      match t[0]
      case Open(a) =>
        MatchWellFormed(s, t[1..], stack + [a], a);
      case Close(b) =>
        if stack == [] {
          MatchWellFormed(s, t[1..], stack, b);
        } else {
          MatchWellFormed(s, t[1..], stack[..|stack| - 1], b);
        }
    }
  }

  /** Every pair joins a start tag's content start to a later end tag. */
  lemma PairsWellFormed(s: string)
    ensures forall k :: 0 <= k < |Pairs(s)| ==> PairOk(s, Pairs(s)[k])
  {
    TokensWellFormed(s, 0);
    if TokensFrom(s, 0).Some? {
      MatchWellFormed(s, TokensFrom(s, 0).value, [], 0);
    }
  }

  /** `Pick` keeps the first pair of greatest length, unless `best` is at least as long. */
  lemma {:induction false} PickFirstLongest(s: string, pairs: seq<Pair>, best: string)
    ensures var r := Pick(s, pairs, best);
      && (forall k :: 0 <= k < |pairs| ==> |Content(s, pairs[k])| <= |r|)
      && (r == best || exists k :: 0 <= k < |pairs| && r == Content(s, pairs[k]) && |best| < |r|
                                 && forall j :: 0 <= j < k ==> |Content(s, pairs[j])| < |r|)
    decreases |pairs|
  {
    if pairs != [] {
      var c := Content(s, pairs[0]);
      var best' := if |c| > |best| then c else best;
      var r := Pick(s, pairs, best);
      PickFirstLongest(s, pairs[1..], best');
      forall k | 0 <= k < |pairs| ensures |Content(s, pairs[k])| <= |r| {
        if k > 0 {
          assert pairs[k] == pairs[1..][k - 1];
        }
      }
      if r != best && r != best' {
        var k' :| 0 <= k' < |pairs[1..]| && r == Content(s, pairs[1..][k']) && |best'| < |r|
                  && forall j :: 0 <= j < k' ==> |Content(s, pairs[1..][j])| < |r|;
        forall j | 0 <= j < k' + 1 ensures |Content(s, pairs[j])| < |r| {
          if j > 0 {
            assert pairs[j] == pairs[1..][j - 1];
          }
        }
        assert r == Content(s, pairs[k' + 1]);
      }
    }
  }

  /**
   * The extracted text is empty or the content of a matched pair; no pair is
   * longer, and every earlier pair is strictly shorter (a tie goes to the
   * end tag met first).
   */
  lemma ExtractedIsFirstLongest(s: string)
    requires Extracted(s).Some?
    ensures var r := Extracted(s).value; var ps := Pairs(s);
      && (forall k :: 0 <= k < |ps| ==> ps[k].stop - ps[k].start <= |r|)
      && (r == "" || exists k :: 0 <= k < |ps| && ps[k].start <= ps[k].stop <= |s| && r == s[ps[k].start..ps[k].stop]
                             && forall j :: 0 <= j < k ==> ps[j].stop - ps[j].start < |r|)
  {
    var ps := Pairs(s);
    PairsWellFormed(s);
    forall k | 0 <= k < |ps| ensures Content(s, ps[k]) == s[ps[k].start..ps[k].stop] {
      assert PairOk(s, ps[k]);
    }
    PickFirstLongest(s, ps, "");
  }

  lemma StartTagOpensWithAngle(s: string, p: int)
    ensures StartTagAt(s, p) ==> s[p] == '<'
  {
    if StartTagAt(s, p) {
      assert s[p] == s[p..p + |StartTag|][0];
    }
  }

  /** An end tag has no `<` after its first character, so no start tag begins inside it. */
  lemma NoStartInsideEndTag(s: string, i: nat, p: int)
    requires EndTagAt(s, i) && i < p < i + |EndTag|
    ensures !StartTagAt(s, p)
  {
    assert s[p] == s[i..i + |EndTag|][p - i] == EndTag[p - i];
    assert EndTag[p - i] in EndTag[1..];
    assert '<' !in EndTag[1..];
    StartTagOpensWithAngle(s, p);
  }

  /** Every start tag at or after `i` has a `>` after it. */
  ghost predicate AllClosed(s: string, i: nat) {
    forall p: nat :: i <= p && StartTagAt(s, p) ==> FindFrom(s, ">", p) >= 0
  }

  lemma AllClosedAtEnd(s: string)
    ensures AllClosed(s, |s|)
  {
    forall p: nat | |s| <= p ensures !StartTagAt(s, p) { }
  }

  lemma AllClosedOther(s: string, i: nat)
    requires !StartTagAt(s, i)
    ensures AllClosed(s, i) <==> AllClosed(s, i + 1)
  {
  }

  lemma AllClosedClose(s: string, i: nat)
    requires !StartTagAt(s, i) && EndTagAt(s, i)
    ensures AllClosed(s, i) <==> AllClosed(s, i + |EndTag|)
  {
    forall p: nat | i < p < i + |EndTag| ensures !StartTagAt(s, p) {
      NoStartInsideEndTag(s, i, p);
    }
  }

  /** A `>` at `q` serves every start tag at or before it. */
  lemma ClosedBefore(s: string, p: nat, q: nat)
    requires p <= q && OccursAt(s, ">", q)
    ensures FindFrom(s, ">", p) >= 0
  {
  }

  lemma AllClosedOpen(s: string, i: nat)
    requires StartTagAt(s, i)
    ensures FindFrom(s, ">", i) < 0 ==> !AllClosed(s, i)
    ensures FindFrom(s, ">", i) >= 0 ==> (AllClosed(s, i) <==> AllClosed(s, FindFrom(s, ">", i) + 1))
  {
    var q := FindFrom(s, ">", i);
    if q >= 0 {
      forall p: nat | i <= p <= q ensures FindFrom(s, ">", p) >= 0 {
        ClosedBefore(s, p, q);
      }
    }
  }

  lemma DefinedOpen(s: string, i: nat)
    requires i < |s| && StartTagAt(s, i)
    requires var q := FindFrom(s, ">", i);
      q >= 0 ==> (TokensFrom(s, q + 1).Some? <==> AllClosed(s, q + 1))
    ensures TokensFrom(s, i).Some? <==> AllClosed(s, i)
  {
    AllClosedOpen(s, i);
    if FindFrom(s, ">", i) >= 0 {
      TokensAtOpen(s, i);
    }
  }

  lemma DefinedClose(s: string, i: nat)
    requires i < |s| && !StartTagAt(s, i) && EndTagAt(s, i)
    requires i + |EndTag| <= |s|
    requires TokensFrom(s, i + |EndTag|).Some? <==> AllClosed(s, i + |EndTag|)
    ensures TokensFrom(s, i).Some? <==> AllClosed(s, i)
  {
    TokensAtClose(s, i);
    AllClosedClose(s, i);
  }

  lemma DefinedOther(s: string, i: nat)
    requires i < |s| && !StartTagAt(s, i) && !EndTagAt(s, i)
    requires TokensFrom(s, i + 1).Some? <==> AllClosed(s, i + 1)
    ensures TokensFrom(s, i).Some? <==> AllClosed(s, i)
  {
    TokensAtOther(s, i);
    AllClosedOther(s, i);
  }

  lemma {:induction false} TokensDefinedIff(s: string, i: nat)
    requires i <= |s|
    ensures TokensFrom(s, i).Some? <==> AllClosed(s, i)
    decreases |s| - i
  {
    if i == |s| {
      AllClosedAtEnd(s);
    } else if StartTagAt(s, i) {
      var q := FindFrom(s, ">", i);
      if q >= 0 {
        TokensDefinedIff(s, q + 1);
      }
      DefinedOpen(s, i);
    } else if EndTagAt(s, i) {
      TokensAtClose(s, i);
      TokensDefinedIff(s, i + |EndTag|);
      DefinedClose(s, i);
    } else {
      TokensDefinedIff(s, i + 1);
      DefinedOther(s, i);
    }
  }

  /**
   * The source's loop ends exactly when every start tag in the input has a
   * `>` somewhere after it.
   */
  lemma ExtractTerminates(s: string)
    ensures Extracted(s).Some? <==> forall p: nat :: StartTagAt(s, p) ==> FindFrom(s, ">", p) >= 0
  {
    TokensDefinedIff(s, 0);
  }

  /** A start tag after the last tag of the input contributes no pair. */
  lemma {:induction false} MatchIgnoresTrailingOpen(t: seq<Tag>, stack: seq<nat>, a: nat)
    ensures Match(t + [Open(a)], stack) == Match(t, stack)
    decreases |t|
  {
    if t == [] {
      assert [] + [Open(a)] == [Open(a)];
    } else {
      assert (t + [Open(a)])[1..] == t[1..] + [Open(a)];
      match t[0]
      case Open(b) => MatchIgnoresTrailingOpen(t[1..], stack + [b], a);
      case Close(b) =>
        if stack == [] {
          MatchIgnoresTrailingOpen(t[1..], stack, a);
        } else {
          MatchIgnoresTrailingOpen(t[1..], stack[..|stack| - 1], a);
        }
    }
  }

  /** The stack the scan is left with once it has read `tags`, starting from `stack`. */
  function Unclosed(tags: seq<Tag>, stack: seq<nat>): seq<nat>
    decreases |tags|
  {
    if tags == [] then stack
    else match tags[0]
      case Open(a) => Unclosed(tags[1..], stack + [a])
      case Close(b) =>
        if stack == [] then Unclosed(tags[1..], stack) else Unclosed(tags[1..], stack[..|stack| - 1])
  }

  /** Every start tag in `t` has its content start above `lo` and above those of earlier start tags. */
  ghost predicate OpensAbove(t: seq<Tag>, lo: int) {
    forall k :: 0 <= k < |t| && t[k].Open? ==>
      lo < t[k].content && forall j :: k < j < |t| && t[j].Open? ==> t[k].content < t[j].content
  }

  lemma OpensAboveTail(t: seq<Tag>, lo: int)
    requires t != [] && OpensAbove(t, lo)
    ensures OpensAbove(t[1..], if t[0].Open? then t[0].content else lo)
  {
    forall k | 0 <= k < |t[1..]| ensures t[1..][k] == t[k + 1] {
    }
  }

  lemma OpensAboveCons(x: Tag, lo: nat, m: nat, ts: seq<Tag>)
    requires x.Open? ==> lo < x.content && x.content <= m
    requires lo <= m && OpensAbove(ts, m)
    ensures OpensAbove([x] + ts, lo)
  {
    var t := [x] + ts;
    forall k | 0 < k < |t| ensures t[k] == ts[k - 1] {
    }
  }

  lemma OpensAboveWeaken(t: seq<Tag>, lo: int, m: int)
    requires lo <= m && OpensAbove(t, m)
    ensures OpensAbove(t, lo)
  {
  }

  /** The scan meets start tags in strictly increasing order of their content starts. */
  lemma {:induction false} TokensOpensAbove(s: string, i: nat)
    requires i <= |s|
    ensures TokensFrom(s, i).Some? ==> OpensAbove(TokensFrom(s, i).value, i)
    decreases |s| - i
  {
    if i < |s| {
      if StartTagAt(s, i) {
        var q := FindFrom(s, ">", i);
        if q >= 0 {
          TokensAtOpen(s, i);
          TokensOpensAbove(s, q + 1);
          if TokensFrom(s, q + 1).Some? {
            OpensAboveCons(Open(q + 1), i, q + 1, TokensFrom(s, q + 1).value);
          }
        }
      } else if EndTagAt(s, i) {
        TokensAtClose(s, i);
        TokensOpensAbove(s, i + |EndTag|);
        if TokensFrom(s, i + |EndTag|).Some? {
          OpensAboveCons(Close(i), i, i + |EndTag|, TokensFrom(s, i + |EndTag|).value);
        }
      } else {
        TokensAtOther(s, i);
        TokensOpensAbove(s, i + 1);
        if TokensFrom(s, i + 1).Some? {
          OpensAboveWeaken(TokensFrom(s, i + 1).value, i, i + 1);
        }
      }
    }
  }

  /** What is left on the stack was on it at the start or is a later start tag's content start. */
  lemma {:induction false} UnclosedFrom(t: seq<Tag>, stack: seq<nat>, lo: int)
    requires OpensAbove(t, lo)
    ensures forall x :: x in Unclosed(t, stack) ==> x in stack || lo < x
    decreases |t|
  {
    if t != [] {
      OpensAboveTail(t, lo);
      match t[0]
      case Open(a) =>
        UnclosedFrom(t[1..], stack + [a], a);
      case Close(b) =>
        if stack == [] {
          UnclosedFrom(t[1..], stack, lo);
        } else {
          UnclosedFrom(t[1..], stack[..|stack| - 1], lo);
          assert forall x :: x in stack[..|stack| - 1] ==> x in stack;
        }
    }
  }

  /**
   * No pair starts at a position still on the stack when the tags run out:
   * a start tag left open contributes nothing, wherever it stands.
   */
  lemma {:induction false} MatchAvoidsUnclosed(t: seq<Tag>, stack: seq<nat>, lo: nat)
    requires OpensAbove(t, lo)
    requires forall k :: 0 <= k < |stack| ==> stack[k] <= lo
    requires forall i, j :: 0 <= i < j < |stack| ==> stack[i] != stack[j]
    ensures forall k :: 0 <= k < |Match(t, stack)| ==> Match(t, stack)[k].start !in Unclosed(t, stack)
    decreases |t|
  {
    if t != [] {
      OpensAboveTail(t, lo);
      match t[0]
      case Open(a) =>
        var pushed := stack + [a];
        forall i, j | 0 <= i < j < |pushed| ensures pushed[i] != pushed[j] {
          if j == |stack| {
            assert pushed[i] == stack[i] <= lo < a;
          }
        }
        MatchAvoidsUnclosed(t[1..], pushed, a);
      case Close(b) =>
        if stack == [] {
          MatchAvoidsUnclosed(t[1..], stack, lo);
        } else {
          var top := stack[|stack| - 1];
          var rest := stack[..|stack| - 1];
          MatchAvoidsUnclosed(t[1..], rest, lo);
          UnclosedFrom(t[1..], rest, lo);
          assert top !in rest;
          var m := Match(t, stack);
          assert m == [Pair(top, b)] + Match(t[1..], rest);
          forall k | 0 <= k < |m| ensures m[k].start !in Unclosed(t, stack) {
            if k > 0 {
              assert m[k] == Match(t[1..], rest)[k - 1];
            }
          }
        }
    }
  }

  /**
   * The start tags a terminating scan leaves on its stack contribute no
   * pair, whether they stand after the last end tag or before a matched pair.
   */
  lemma UnclosedContributeNothing(s: string)
    requires TokensFrom(s, 0).Some?
    ensures var t := TokensFrom(s, 0).value;
      forall k :: 0 <= k < |Pairs(s)| ==> Pairs(s)[k].start !in Unclosed(t, [])
  {
    TokensOpensAbove(s, 0);
    MatchAvoidsUnclosed(TokensFrom(s, 0).value, [], 0);
  }

  lemma {:induction false} MatchWithoutOpens(t: seq<Tag>)
    requires forall k :: 0 <= k < |t| ==> t[k].Close?
    ensures Match(t, []) == []
    decreases |t|
  {
    if t != [] {
      assert t[0].Close?;
      MatchWithoutOpens(t[1..]);
    }
  }

  /** Without any start tag there is no pair, so the extractor answers "". */
  lemma ExtractedWithoutStartTag(s: string)
    requires forall p :: !StartTagAt(s, p)
    ensures Extracted(s) == Some("")
  {
    TokensDefinedIff(s, 0);
    TokensWellFormed(s, 0);
    var t := TokensFrom(s, 0).value;
    forall k | 0 <= k < |t| ensures t[k].Close? {
      assert TagOk(s, t[k]);
    }
    MatchWithoutOpens(t);
  }

  // ---------------------------------------------------------------------------
  // clean_solution

  /**
   * `clean_solution`: the longest block, or the whole text when none was
   * found, with `<pre>` and then `</pre>` deleted and leading whitespace
   * stripped. `None` when the extractor never returns.
   */
  function CleanSolution(text: string): (r: Option<string>)
    ensures r.None? <==> Extracted(text).None?
    ensures r.Some? ==> |r.value| <= |text| && (r.value == [] || !IsSpace(r.value[0]))
  {
    match Extracted(text)
    case None => None
    case Some(code) =>
      var chosen := if code != "" then code else text;
      Some(LStrip(Remove(Remove(chosen, "<pre>"), "</pre>")))
  }

  /** Plain text without any tag falls back to the whole text, left-stripped. */
  lemma CleanSolutionFallback(text: string)
    requires forall p :: !StartTagAt(text, p)
    requires !Contains(text, "<pre>") && !Contains(text, "</pre>")
    ensures CleanSolution(text) == Some(LStrip(text))
  {
    ExtractedWithoutStartTag(text);
    RemoveAbsent(text, "<pre>");
    RemoveAbsent(text, "</pre>");
  }

  /** A non-empty extracted block free of `pre` tags is the solution, left-stripped. */
  lemma CleanSolutionUsesBlock(text: string)
    requires Extracted(text).Some? && Extracted(text).value != ""
    requires !Contains(Extracted(text).value, "<pre>") && !Contains(Extracted(text).value, "</pre>")
    ensures CleanSolution(text) == Some(LStrip(Extracted(text).value))
  {
    var code := Extracted(text).value;
    RemoveAbsent(code, "<pre>");
    RemoveAbsent(code, "</pre>");
  }
  /** `<pre>` is not deleted from `</pre>`. */
  lemma RemoveOpenFromClose(open: string, close: string)
    requires open == "<pre>" && close == "</pre>"
    ensures Remove(close, open) == close
  {
    assert close == [close[0]] + close[1..];
    PrefixAt(open, close, 1);
    RemovePlainPrefix(close[1..], [], open);
    assert close[1..] + [] == close[1..];
  }

  /** `<pre>` and `</pre>` around text without any tag are deleted; the rest is left-stripped. */
  lemma CleanSolutionStripsPre(x: string)
    requires '<' !in x
    ensures CleanSolution("<pre>" + x + "</pre>") == Some(LStrip(x))
  {
    var open, close := "<pre>", "</pre>";
    var text := open + x + close;
    var n := |open| + |x|;
    assert |text| == n + 6;
    assert forall k :: 0 <= k < |open| ==> text[k] == open[k];
    assert forall k :: |open| <= k < n ==> text[k] == x[k - |open|];
    forall p ensures !StartTagAt(text, p) {
      OccursAtIndex(text, StartTag, p, 0);
      OccursAtIndex(text, StartTag, p, 1);
      if StartTagAt(text, p) {
        assert false;
      }
    }
    ExtractedWithoutStartTag(text);
    assert text == open + (x + close);
    RemoveAtHead(open, x + close);
    RemovePlainPrefix(x, close, open);
    RemoveOpenFromClose(open, close);
    RemovePlainPrefix(x, close, close);
    RemoveAtHead(close, []);
    assert close + [] == close && x + [] == x;
  }

  /** When every matched block is empty, the whole section is used. */
  lemma CleanSolutionEmptyBlocks(text: string)
    requires Extracted(text).Some?
    requires forall k :: 0 <= k < |Pairs(text)| ==> Content(text, Pairs(text)[k]) == ""
    requires !Contains(text, "<pre>") && !Contains(text, "</pre>")
    ensures CleanSolution(text) == Some(LStrip(text))
  {
    PickFirstLongest(text, Pairs(text), "");
    assert Extracted(text) == Some("");
    RemoveAbsent(text, "<pre>");
    RemoveAbsent(text, "</pre>");
  }

}
