/** How the measures scripts name their measures: a base name, joined to the
    subgroup suffix unless the suffix is empty, and the `safe_label`
    normalisation of a key or label. */
module MeasureNames {

  /** `base` for the "" subgroup, `base + sep + suffix` for any other. */
  function JoinName(base: string, sep: string, suffix: string): (name: string)
    ensures |base| <= |name| && name[..|base|] == base
    ensures suffix == "" <==> |name| == |base|
    ensures suffix != "" ==> |name| == |base| + |sep| + |suffix| && name[|base| + |sep|..] == suffix
    ensures suffix != "" ==> name[|base|..|base| + |sep|] == sep
  {
    if suffix == "" then base else base + sep + suffix
  }

  /** Neither string is a prefix of the other: they differ at some position both have. */
  predicate Diverge(a: string, b: string) {
    exists k :: 0 <= k < |a| && k < |b| && a[k] != b[k]
  }

  lemma DivergeAt(a: string, b: string, k: int)
    requires 0 <= k < |a| && k < |b| && a[k] != b[k]
    ensures Diverge(a, b)
  {
  }

  /** Strings that diverge still diverge behind a common prefix. */
  lemma DivergeBehindPrefix(c: string, a: string, b: string)
    requires Diverge(a, b)
    ensures Diverge(c + a, c + b)
  {
    var k :| 0 <= k < |a| && k < |b| && a[k] != b[k];
    assert (c + a)[|c| + k] == a[k] && (c + b)[|c| + k] == b[k];
    DivergeAt(c + a, c + b, |c| + k);
  }

  /** Names built on diverging bases differ, whatever the suffixes. */
  lemma DivergentBasesGiveDistinctNames(b1: string, b2: string, sep: string, s1: string, s2: string)
    requires Diverge(b1, b2)
    ensures JoinName(b1, sep, s1) != JoinName(b2, sep, s2)
  {
    var k :| 0 <= k < |b1| && k < |b2| && b1[k] != b2[k];
    var n1, n2 := JoinName(b1, sep, s1), JoinName(b2, sep, s2);
    assert n1[k] == n1[..|b1|][k] == b1[k];
    assert n2[k] == n2[..|b2|][k] == b2[k];
  }

  /** On one base, different suffixes give different names. */
  lemma DistinctSuffixesGiveDistinctNames(b: string, sep: string, s1: string, s2: string)
    requires s1 != s2
    ensures JoinName(b, sep, s1) != JoinName(b, sep, s2)
  {
    if s1 != "" && s2 != "" {
      assert JoinName(b, sep, s1)[|b| + |sep|..] != JoinName(b, sep, s2)[|b| + |sep|..];
    }
  }

  /** Every two of the strings diverge. */
  predicate PairwiseDiverge(bases: seq<string>) {
    forall i, j :: 0 <= i < |bases| && 0 <= j < |bases| && i != j ==> Diverge(bases[i], bases[j])
  }

  lemma PairwiseDivergeBehindPrefix(c: string, bases: seq<string>, prefixed: seq<string>)
    requires PairwiseDiverge(bases)
    requires |prefixed| == |bases| && forall i :: 0 <= i < |bases| ==> prefixed[i] == c + bases[i]
    ensures PairwiseDiverge(prefixed)
  {
    forall i, j | 0 <= i < |bases| && 0 <= j < |bases| && i != j
      ensures Diverge(prefixed[i], prefixed[j])
    {
      DivergeBehindPrefix(c, bases[i], bases[j]);
    }
  }

  // ---------------------------------------------------------------------
  // safe_label
  // ---------------------------------------------------------------------

  predicate IsUpper(c: char) {
    'A' <= c <= 'Z'
  }

  /** `str.lower` on one character, for the ASCII letters. */
  function LowerChar(c: char): (r: char)
    ensures !IsUpper(r)
    ensures IsUpper(c) ==> r as int == c as int + 32
    ensures !IsUpper(c) ==> r == c
  {
    if IsUpper(c) then (c as int + 32) as char else c
  }

  /** One character of `key.lower().replace(" ", "_").replace("-", "_")`:
      lower-casing leaves spaces and hyphens alone, so the three steps can be
      taken one character at a time. */
  function SafeChar(c: char): (r: char)
    ensures r != ' ' && r != '-' && !IsUpper(r)
    ensures c == ' ' || c == '-' ==> r == '_'
    ensures IsUpper(c) ==> r as int == c as int + 32
    ensures c != ' ' && c != '-' && !IsUpper(c) ==> r == c
  {
    var lower := LowerChar(c);
    if lower == ' ' then '_' else if lower == '-' then '_' else lower
  }

  /** `safe_label`: lower-case, with spaces and hyphens replaced by "_". */
  function SafeLabel(s: string): (r: string)
    ensures |r| == |s|
    ensures forall i :: 0 <= i < |r| ==> r[i] != ' ' && r[i] != '-' && !IsUpper(r[i])
    ensures forall i :: 0 <= i < |s| ==> (s[i] == ' ' || s[i] == '-' ==> r[i] == '_')
    ensures forall i :: 0 <= i < |s| ==> (IsUpper(s[i]) ==> r[i] as int == s[i] as int + 32)
    ensures forall i :: 0 <= i < |s| ==> (s[i] != ' ' && s[i] != '-' && !IsUpper(s[i]) ==> r[i] == s[i])
  {
    seq(|s|, i requires 0 <= i < |s| => SafeChar(s[i]))
  }

  /** A string with no upper-case letter, space or hyphen is its own safe label. */
  lemma SafeLabelFixes(s: string)
    requires forall i :: 0 <= i < |s| ==> s[i] != ' ' && s[i] != '-' && !IsUpper(s[i])
    ensures SafeLabel(s) == s
  {
  }

  /** Applying `safe_label` twice changes nothing. */
  lemma SafeLabelIdempotent(s: string)
    ensures SafeLabel(SafeLabel(s)) == SafeLabel(s)
  {
    SafeLabelFixes(SafeLabel(s));
  }
}
