/**
 * Removing one administrative suffix from the end of a region name, as
 * `name.replace(/(市|省|自治区|特别行政区|自治州|地区|盟)$/g, '')` does.
 *
 * Two definitions are given and proved equal: `ReplaceFrom` follows the way a
 * global regular-expression replace scans the string (leftmost position first,
 * alternatives in pattern order, the `$` anchor), and `StripFirstOf` says what
 * the result is in terms of the suffix list alone. The lemmas are stated for
 * any list of non-empty suffixes none of which ends another, and then applied
 * to the pattern's seven.
 */
module SuffixStrip {
  import opened Wrappers

  /** The pattern's alternatives, in the pattern's order. */
  const Suffixes: seq<string> := ["市", "省", "自治区", "特别行政区", "自治州", "地区", "盟"]

  predicate EndsWith(s: string, suffix: string) {
    |suffix| <= |s| && s[|s| - |suffix|..] == suffix
  }

  predicate NonEmptyAll(suffixes: seq<string>) {
    forall k :: 0 <= k < |suffixes| ==> |suffixes[k]| > 0
  }

  /** No suffix of the list ends another one; this also makes them pairwise distinct. */
  predicate SuffixFree(suffixes: seq<string>) {
    forall i, j :: 0 <= i < |suffixes| && 0 <= j < |suffixes| && i != j ==> !EndsWith(suffixes[j], suffixes[i])
  }

  /** A list fit for stripping: every suffix non-empty, none ending another. */
  predicate Proper(suffixes: seq<string>) {
    NonEmptyAll(suffixes) && SuffixFree(suffixes)
  }

  // ---------------------------------------------------------------------------
  // The pattern's seven suffixes form a proper list.

  /** A non-empty suffix agrees with the string on its last character, and on the one before it when it has two. */
  lemma EndsWithLastChars(s: string, suffix: string)
    requires EndsWith(s, suffix) && |suffix| >= 1
    ensures suffix[|suffix| - 1] == s[|s| - 1]
    ensures |suffix| >= 2 ==> suffix[|suffix| - 2] == s[|s| - 2]
  {
    assert s[|s| - |suffix|..][|suffix| - 1] == s[|s| - 1];
    if |suffix| >= 2 {
      assert s[|s| - |suffix|..][|suffix| - 2] == s[|s| - 2];
    }
  }

  /** The last character of a string, and the one before it when there is one. */
  function Tail(s: string): (char, Option<char>)
    requires |s| >= 1
  {
    (s[|s| - 1], if |s| >= 2 then Some(s[|s| - 2]) else None)
  }

  lemma SuffixesNonEmpty()
    ensures NonEmptyAll(Suffixes)
  {
  }

  /** The last two characters of the seven suffixes differ wherever one suffix could end another. */
  lemma {:induction false} SuffixesAreSuffixFree()
    ensures SuffixFree(Suffixes)
  {
    var tails := [('市', None), ('省', None), ('区', Some('治')), ('区', Some('政')), ('州', Some('治')), ('区', Some('地')), ('盟', None)];
    assert Tail(Suffixes[0]) == tails[0] && |Suffixes[0]| == 1;
    assert Tail(Suffixes[1]) == tails[1] && |Suffixes[1]| == 1;
    assert Tail(Suffixes[2]) == tails[2] && |Suffixes[2]| == 3;
    assert Tail(Suffixes[3]) == tails[3] && |Suffixes[3]| == 5;
    assert Tail(Suffixes[4]) == tails[4] && |Suffixes[4]| == 3;
    assert Tail(Suffixes[5]) == tails[5] && |Suffixes[5]| == 2;
    assert Tail(Suffixes[6]) == tails[6] && |Suffixes[6]| == 1;
    forall i, j | 0 <= i < |Suffixes| && 0 <= j < |Suffixes| && i != j
      ensures !EndsWith(Suffixes[j], Suffixes[i])
    {
      if EndsWith(Suffixes[j], Suffixes[i]) {
        EndsWithLastChars(Suffixes[j], Suffixes[i]);
      }
    }
  }

  lemma SuffixesAreProper()
    ensures Proper(Suffixes)
  {
    SuffixesNonEmpty();
    SuffixesAreSuffixFree();
  }

  // ---------------------------------------------------------------------------
  // Stripping, stated on the suffix list alone.

  /** When two suffixes both end a name, the shorter one ends the longer one. */
  lemma ShorterEndsLonger(name: string, a: string, b: string)
    requires EndsWith(name, a) && EndsWith(name, b) && |a| <= |b|
    ensures EndsWith(b, a)
  {
    assert b[|b| - |a|..] == name[|name| - |a|..];
  }

  /** At most one suffix of a suffix-free list can end any given name. */
  lemma AtMostOneSuffixMatches(name: string, suffixes: seq<string>, i: nat, j: nat)
    requires SuffixFree(suffixes) && i < |suffixes| && j < |suffixes|
    requires EndsWith(name, suffixes[i]) && EndsWith(name, suffixes[j])
    ensures i == j
  {
    var a, b := suffixes[i], suffixes[j];
    ShorterEndsLonger(name, if |a| <= |b| then a else b, if |a| <= |b| then b else a);
  }

  /** Removes the first suffix of `suffixes` that ends `name`; `name` itself when none does. */
  function StripFirstOf(name: string, suffixes: seq<string>): (r: string)
    requires NonEmptyAll(suffixes)
    ensures r <= name
    ensures r == name <==> forall k :: 0 <= k < |suffixes| ==> !EndsWith(name, suffixes[k])
    ensures r != name ==> exists k :: 0 <= k < |suffixes| && EndsWith(name, suffixes[k]) && r == name[..|name| - |suffixes[k]|]
    decreases |suffixes|
  {
    if suffixes == [] then name
    else if EndsWith(name, suffixes[0]) then name[..|name| - |suffixes[0]|]
    else
      var r := StripFirstOf(name, suffixes[1..]);
      assert forall k :: 1 <= k < |suffixes| ==> suffixes[k] == suffixes[1..][k - 1];
      r
  }

  /** In a proper list, whichever suffix ends the name is exactly the one removed: the list order does not matter. */
  lemma StripRemovesMatched(name: string, suffixes: seq<string>, i: nat)
    requires Proper(suffixes) && i < |suffixes| && EndsWith(name, suffixes[i])
    ensures StripFirstOf(name, suffixes) == name[..|name| - |suffixes[i]|]
  {
    var r := StripFirstOf(name, suffixes);
    var k :| 0 <= k < |suffixes| && EndsWith(name, suffixes[k]) && r == name[..|name| - |suffixes[k]|];
    AtMostOneSuffixMatches(name, suffixes, i, k);
  }

  // ---------------------------------------------------------------------------
  // The regular-expression replace, step by step.

  /** Alternative `alt` matches at position `p` and the end anchor `$` holds right after it. */
  predicate MatchesAnchored(s: string, p: nat, alt: string) {
    p + |alt| == |s| && s[p..p + |alt|] == alt
  }

  /** The index of the first alternative (in pattern order) that matches at `p`, if any. */
  function AlternativeAt(s: string, p: nat, alternatives: seq<string>): (r: Option<nat>)
    requires p <= |s|
    ensures r.Some? ==> r.value < |alternatives| && MatchesAnchored(s, p, alternatives[r.value])
    ensures r.Some? ==> forall k :: 0 <= k < r.value ==> !MatchesAnchored(s, p, alternatives[k])
    ensures r.None? ==> forall k :: 0 <= k < |alternatives| ==> !MatchesAnchored(s, p, alternatives[k])
    decreases |alternatives|
  {
    if alternatives == [] then None
    else if MatchesAnchored(s, p, alternatives[0]) then Some(0)
    else
      assert forall k :: 1 <= k < |alternatives| ==> alternatives[k] == alternatives[1..][k - 1];
      match AlternativeAt(s, p, alternatives[1..])
      case Some(k) => Some(k + 1)
      case None => None
  }

  /**
   * A global replace by the empty string, scanning from position `p`: where a match
   * starts it is dropped and the scan resumes after it; elsewhere the character is
   * kept and the scan moves one position on. No alternative is empty, so no match
   * starts at the very end.
   */
  function ReplaceFrom(s: string, p: nat, alternatives: seq<string>): string
    requires p <= |s| && NonEmptyAll(alternatives)
    decreases |s| - p
  {
    if p == |s| then []
    else match AlternativeAt(s, p, alternatives)
      case Some(k) => ReplaceFrom(s, p + |alternatives[k]|, alternatives)
      case None => [s[p]] + ReplaceFrom(s, p + 1, alternatives)
  }

  /** A match of alternative `k` at `p` is the suffix that stripping removes, so the stripped name ends at `p`. */
  lemma MatchIsCut(s: string, p: nat, alternatives: seq<string>, k: nat)
    requires Proper(alternatives) && k < |alternatives| && MatchesAnchored(s, p, alternatives[k])
    ensures |StripFirstOf(s, alternatives)| == p
  {
    assert s[|s| - |alternatives[k]|..] == s[p..p + |alternatives[k]|];
    StripRemovesMatched(s, alternatives, k);
  }

  /** When stripping removes something, the removed suffix matches where the stripped name ends. */
  lemma CutIsMatch(s: string, alternatives: seq<string>)
    requires NonEmptyAll(alternatives) && StripFirstOf(s, alternatives) != s
    ensures AlternativeAt(s, |StripFirstOf(s, alternatives)|, alternatives).Some?
  {
    var r := StripFirstOf(s, alternatives);
    var i :| 0 <= i < |alternatives| && EndsWith(s, alternatives[i]) && r == s[..|s| - |alternatives[i]|];
    assert MatchesAnchored(s, |r|, alternatives[i]);
  }

  lemma {:induction false} ReplaceFromIsStrip(s: string, p: nat, alternatives: seq<string>)
    requires Proper(alternatives) && p <= |StripFirstOf(s, alternatives)|
    ensures ReplaceFrom(s, p, alternatives) == s[p..|StripFirstOf(s, alternatives)|]
    decreases |s| - p
  {
    var c := |StripFirstOf(s, alternatives)|;
    if p < |s| {
      var alt := AlternativeAt(s, p, alternatives);
      if alt.Some? {
        MatchIsCut(s, p, alternatives, alt.value);
        assert ReplaceFrom(s, p, alternatives) == ReplaceFrom(s, |s|, alternatives) == [];
      } else {
        if p == c {
          CutIsMatch(s, alternatives);
        }
        ReplaceFromIsStrip(s, p + 1, alternatives);
        assert [s[p]] + s[p + 1..c] == s[p..c];
      }
    }
  }

  // ---------------------------------------------------------------------------
  // The pattern of the tooltip formatter and the click handler.

  /** `name.replace(/(市|省|自治区|特别行政区|自治州|地区|盟)$/g, '')`. */
  function SimpleName(name: string): (r: string)
    ensures r == StripFirstOf(name, Suffixes)
  {
    SuffixesAreProper();
    ReplaceFromIsStrip(name, 0, Suffixes);
    ReplaceFrom(name, 0, Suffixes)
  }

  /** True when none of the seven suffixes ends `name`. */
  predicate HasNoSuffix(name: string) {
    forall i :: 0 <= i < |Suffixes| ==> !EndsWith(name, Suffixes[i])
  }

  /** The simple name is a prefix of the name; it is the name itself exactly when no suffix ends it. */
  lemma SimpleNameShape(name: string)
    ensures SimpleName(name) <= name
    ensures SimpleName(name) == name <==> HasNoSuffix(name)
    ensures SimpleName(name) != name ==>
      exists i :: 0 <= i < |Suffixes| && EndsWith(name, Suffixes[i]) && SimpleName(name) == name[..|name| - |Suffixes[i]|]
  {
  }

  /** Whichever of the seven suffixes ends the name, it is exactly that suffix that is removed. */
  lemma SimpleNameRemovesMatched(name: string, i: nat)
    requires i < |Suffixes| && EndsWith(name, Suffixes[i])
    ensures SimpleName(name) == name[..|name| - |Suffixes[i]|]
  {
    SuffixesAreProper();
    StripRemovesMatched(name, Suffixes, i);
  }

  /** A repeated suffix ("X市市") loses only one copy. */
  lemma SimpleNameStripsOnce(base: string, i: nat)
    requires i < |Suffixes|
    ensures SimpleName(base + Suffixes[i] + Suffixes[i]) == base + Suffixes[i]
  {
    var s := Suffixes[i];
    var name := base + s + s;
    assert name[|name| - |s|..] == s;
    SimpleNameRemovesMatched(name, i);
    assert name[..|name| - |s|] == base + s;
  }
}
