/** `blendfile`: the sub-model reference an element's description may carry,
    found with `re.search('3DMODEL=(.+?).blend', descrip)`.

    The search is modelled position by position: a match at start `p` with a
    capture of `k` characters is `MatchAt(s, p, k, ...)`; `re.search` takes
    the leftmost start that has any match and, because `+?` is lazy, the
    shortest capture there. In the pattern as written the `.` before `blend`
    is unescaped and, like the capture, accepts any character but a newline;
    `EscapedDot` selects the pattern `3DMODEL=(.+?)\.blend` instead. */
module Marker {
  import opened Wrappers
  import opened Lattice

  const Tag: string := "3DMODEL="
  const Extension: string := "blend"

  /** What `blendfile` appends to the captured stem. */
  const Suffix: string := "." + Extension

  /** How the character between the capture and `blend` is matched. */
  datatype Dot = AnyChar | EscapedDot

  predicate DotMatches(c: char, dot: Dot) {
    match dot
    case AnyChar => c != '\n'
    case EscapedDot => c == '.'
  }

  /** The pattern matches `s` from position `p` with a capture of length `k`. */
  predicate MatchAt(s: string, p: nat, k: nat, dot: Dot) {
    var c := p + |Tag|;
    1 <= k && c + k + 1 + |Extension| <= |s| &&
    s[p..c] == Tag &&
    '\n' !in s[c..c + k] &&
    DotMatches(s[c + k], dot) &&
    s[c + k + 1..c + k + 1 + |Extension|] == Extension
  }

  /** The lazy `(.+?)`: the shortest capture, at least `k` long, that lets
      the pattern match from `p`. */
  function ShortestCapture(s: string, p: nat, k: nat, dot: Dot): (r: Option<nat>)
    requires 1 <= k
    ensures r.Some? ==> k <= r.value && MatchAt(s, p, r.value, dot)
    ensures r.Some? ==> forall k': nat :: k <= k' < r.value ==> !MatchAt(s, p, k', dot)
    ensures r.None? ==> forall k': nat :: k <= k' ==> !MatchAt(s, p, k', dot)
    decreases |s| - k
  {
    if p + |Tag| + k + 1 + |Extension| > |s| then None
    else if MatchAt(s, p, k, dot) then Some(k)
    else ShortestCapture(s, p, k + 1, dot)
  }

  /** `re.search` from position `p` on: the leftmost start with a match and
      the capture length found there. */
  function Search(s: string, p: nat, dot: Dot): (r: Option<(nat, nat)>)
    ensures r.Some? ==> p <= r.value.0 && MatchAt(s, r.value.0, r.value.1, dot)
    ensures r.Some? ==> forall p': nat, k: nat :: p <= p' < r.value.0 ==> !MatchAt(s, p', k, dot)
    ensures r.Some? ==> forall k: nat :: k < r.value.1 ==> !MatchAt(s, r.value.0, k, dot)
    ensures r.None? ==> forall p': nat, k: nat :: p <= p' ==> !MatchAt(s, p', k, dot)
    decreases |s| - p
  {
    if p + |Tag| + 2 + |Extension| > |s| then None
    else match ShortestCapture(s, p, 1, dot)
      case Some(k) => Some((p, k))
      case None => Search(s, p + 1, dot)
  }

  /** The match `re.search` reports: the leftmost start that has a match,
      and there the shortest capture. */
  ghost predicate FirstMatch(s: string, p: nat, k: nat, dot: Dot) {
    MatchAt(s, p, k, dot) &&
    (forall p': nat, k': nat :: p' < p ==> !MatchAt(s, p', k', dot)) &&
    (forall k': nat :: k' < k ==> !MatchAt(s, p, k', dot))
  }

  /** `match.group(1)` followed by `'.blend'`. */
  function FileName(s: string, p: nat, k: nat): (r: string)
    requires p + |Tag| + k <= |s|
    ensures |r| == k + |Suffix| && r[k..] == Suffix
  {
    s[p + |Tag|..p + |Tag| + k] + Suffix
  }

  /** The file name the pattern yields on `s`: the capture of the leftmost,
      laziest match with `.blend` appended. */
  function FindModel(s: string, dot: Dot): (r: Option<string>)
    ensures r.None? <==> forall p: nat, k: nat :: !MatchAt(s, p, k, dot)
    ensures r.Some? ==> exists p: nat, k: nat :: FirstMatch(s, p, k, dot) && r.value == FileName(s, p, k)
    ensures r.Some? ==> |r.value| > |Suffix| && r.value[|r.value| - |Suffix|..] == Suffix
  {
    match Search(s, 0, dot)
    case None => None
    case Some((p, k)) =>
      assert FirstMatch(s, p, k, dot);
      Some(FileName(s, p, k))
  }

  /** `blendfile` as written: `None` when the description has no match,
      otherwise a non-empty stem followed by `.blend`. */
  function BlendFile(ele: Element): (r: Option<string>)
    ensures r.None? <==> forall p: nat, k: nat :: !MatchAt(ele.descrip, p, k, AnyChar)
    ensures r.Some? ==> |r.value| > |Suffix| && r.value[|r.value| - |Suffix|..] == Suffix
  {
    FindModel(ele.descrip, AnyChar)
  }

  /** `blendfile` with the dot escaped, as its name suggests it means. */
  function BlendFileEscaped(ele: Element): (r: Option<string>)
    ensures r.None? <==> forall p: nat, k: nat :: !MatchAt(ele.descrip, p, k, EscapedDot)
    ensures r.Some? ==> |r.value| > |Suffix| && r.value[|r.value| - |Suffix|..] == Suffix
  {
    FindModel(ele.descrip, EscapedDot)
  }

  predicate OccursAt(w: string, s: string, i: nat) {
    i + |w| <= |s| && s[i..i + |w|] == w
  }

  /** `s` contains `w` at some position. */
  ghost predicate Occurs(w: string, s: string) {
    exists i: nat :: OccursAt(w, s, i)
  }

  /** With the dot escaped, the name returned is spelled out in the
      description right after a `3DMODEL=` tag. */
  lemma EscapedNameIsQuoted(ele: Element)
    requires BlendFileEscaped(ele).Some?
    ensures Occurs(Tag + BlendFileEscaped(ele).value, ele.descrip)
  {
    var s := ele.descrip;
    var m := Search(s, 0, EscapedDot);
    assert m.Some?;
    MatchSpellsName(s, m.value.0, m.value.1);
  }

  lemma MatchSpellsName(s: string, p: nat, k: nat)
    requires MatchAt(s, p, k, EscapedDot)
    ensures OccursAt(Tag + FileName(s, p, k), s, p)
  {
    var c := p + |Tag|;
    var e := c + k + 1 + |Extension|;
    assert s[c + k..e] == Suffix by {
      assert s[c + k..e] == [s[c + k]] + s[c + k + 1..e];
    }
    assert s[p..e] == s[p..c] + s[c..c + k] + s[c + k..e];
  }

  /** The description of the counterexample below. */
  const NoDotDescrip: string := "3DMODEL=abcblend"

  /** As written, a description without any `.blend` in it can still yield a
      `.blend` file name: `3DMODEL=abcblend` gives `ab.blend`, while the
      escaped pattern finds nothing. */
  lemma UnescapedDotAcceptsAnyChar()
    ensures var ele := Element("M", 0, 0.0, 0.0, 0.0, 0.0, 0.0, 0.0, "PIPE", 1.0, None, "3DMODEL=abcblend");
      !Occurs(Suffix, ele.descrip) &&
      BlendFile(ele) == Some("ab.blend") &&
      BlendFileEscaped(ele) == None
  {
    NoDotBlend();
    UnescapedFindsName();
    EscapedFindsNothing();
  }

  lemma NoDotBlend()
    ensures !Occurs(Suffix, NoDotDescrip)
  {
    var s := NoDotDescrip;
    forall i: nat
      ensures !OccursAt(Suffix, s, i)
    {
      if i + |Suffix| <= |s| {
        assert s[i..i + |Suffix|][0] == s[i] != '.';
      }
    }
  }

  lemma UnescapedFindsName()
    ensures FindModel(NoDotDescrip, AnyChar) == Some("ab.blend")
  {
    var s := NoDotDescrip;
    assert !MatchAt(s, 0, 1, AnyChar) by {
      assert s[10..15] != Extension by { assert s[10] == 'c'; }
    }
    assert MatchAt(s, 0, 2, AnyChar) by {
      assert s[11..16] == Extension;
    }
    assert ShortestCapture(s, 0, 1, AnyChar) == Some(2);
    assert Search(s, 0, AnyChar) == Some((0, 2));
    assert s[8..10] == "ab";
    assert FileName(s, 0, 2) == "ab.blend";
  }

  lemma EscapedFindsNothing()
    ensures FindModel(NoDotDescrip, EscapedDot) == None
  {
    forall p: nat, k: nat
      ensures !MatchAt(NoDotDescrip, p, k, EscapedDot)
    {
    }
  }
}
