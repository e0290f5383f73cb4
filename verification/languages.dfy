/**
 * The language classifier: a free-text name from a solution header is
 * mapped to one entry of a fixed whitelist, or rejected.
 */
module Languages {
  import opened Wrappers

  /** Solutions shorter than this are dropped. */
  const MinSolutionLen: nat := 60

  /** The accepted languages, in the order the prefix search visits them. */
  const Whitelist: seq<string> := ["Python", "C", "C++", "JavaScript"]

  /** The first entry of `langs` other than "C" that `name` starts with. */
  function FirstPrefix(name: string, langs: seq<string>): (r: Option<string>)
    ensures r.Some? ==> r.value in langs && r.value <= name && r.value != "C"
    ensures r.None? <==> forall k :: 0 <= k < |langs| ==> langs[k] == "C" || !(langs[k] <= name)
  {
    if langs == [] then None
    else if langs[0] <= name && langs[0] != "C" then Some(langs[0])
    else FirstPrefix(name, langs[1..])
  }

  /** `language_lookup`: an exact whitelist name maps to itself, otherwise the first non-"C" prefix. */
  function Lookup(name: string): (r: Option<string>)
    ensures r.Some? ==> r.value in Whitelist
    ensures name in Whitelist ==> r == Some(name)
    ensures r.Some? ==> r.value == name || (r.value <= name && r.value != "C")
    ensures r.None? <==> name !in Whitelist && forall k :: 0 <= k < |Whitelist| ==> Whitelist[k] == "C" || !(Whitelist[k] <= name)
  {
    if name in Whitelist then Some(name) else FirstPrefix(name, Whitelist)
  }

  /** The prefix rule answers the earliest matching entry in list order. */
  lemma {:induction false} FirstPrefixIsEarliest(name: string, langs: seq<string>) returns (i: nat)
    requires FirstPrefix(name, langs).Some?
    ensures i < |langs| && langs[i] == FirstPrefix(name, langs).value
    ensures forall j :: 0 <= j < i ==> langs[j] == "C" || !(langs[j] <= name)
    decreases |langs|
  {
    if langs[0] <= name && langs[0] != "C" {
      i := 0;
    } else {
      var i' := FirstPrefixIsEarliest(name, langs[1..]);
      i := i' + 1;
      forall j | 1 <= j < i ensures langs[j] == "C" || !(langs[j] <= name) {
        assert langs[j] == langs[1..][j - 1];
      }
    }
  }

  /**
   * No two entries the prefix rule can answer prefix the same label, so the
   * order of the whitelist never decides the answer.
   */
  lemma PrefixCandidatesExclusive(name: string, i: nat, j: nat)
    requires i < j < |Whitelist|
    requires Whitelist[i] != "C" && Whitelist[j] != "C"
    ensures !(Whitelist[i] <= name && Whitelist[j] <= name)
  {
    assert Whitelist[i][0] != Whitelist[j][0];
  }

  /** An exact entry maps to itself; `C++11` lands on `C++`, not on `C`. */
  lemma LookupCFamily()
    ensures Lookup("C") == Some("C")
    ensures Lookup("C++11") == Some("C++")
  {
    assert "C++11"[..3] == "C++";
  }

  /** Names that only `C` prefixes are rejected. */
  lemma LookupRejects()
    ensures Lookup("C#") == None
    ensures Lookup("Cobol") == None
  {
    assert "C#"[1] == '#';
    assert "Cobol"[1] == 'o';
  }

  /** Trans and version labels land on the language they start with. */
  lemma LookupLongLabels()
    ensures Lookup("JavaScript from Python") == Some("JavaScript")
    ensures Lookup("Python 3") == Some("Python")
  {
    assert "JavaScript from Python"[..10] == "JavaScript";
    assert "Python 3"[..6] == "Python";
    assert "JavaScript from Python"[0] == 'J';
  }
}
