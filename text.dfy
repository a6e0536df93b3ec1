/** The two string built-ins the table reader relies on: `str.split(sep)`
    with an explicit one-character separator, and `str.strip()` with no
    argument. */
module Text {

  /** The characters Python's `str.isspace` accepts, which are the ones
      `str.strip()` removes. */
  const Whitespace: set<char> := {'\U{0020}', '\U{0009}', '\U{000A}', '\U{000B}', '\U{000C}', '\U{000D}', '\U{001C}', '\U{001D}',
    '\U{001E}', '\U{001F}', '\U{0085}', '\U{00A0}', '\U{1680}', '\U{2000}', '\U{2001}', '\U{2002}',
    '\U{2003}', '\U{2004}', '\U{2005}', '\U{2006}', '\U{2007}', '\U{2008}', '\U{2009}', '\U{200A}',
    '\U{2028}', '\U{2029}', '\U{202F}', '\U{205F}', '\U{3000}'}

  predicate IsSpace(c: char) {
    c in Whitespace
  }

  predicate AllSpace(s: string) {
    forall i :: 0 <= i < |s| ==> IsSpace(s[i])
  }

  /** Neither end of `s` is whitespace. */
  predicate Trimmed(s: string) {
    s == [] || (!IsSpace(s[0]) && !IsSpace(s[|s| - 1]))
  }

  /** `s.strip()`: `s` without its leading and trailing whitespace. */
  function Strip(s: string): (r: string)
    ensures Trimmed(r)
    decreases |s|
  {
    if s != [] && IsSpace(s[0]) then Strip(s[1..])
    else if s != [] && IsSpace(s[|s| - 1]) then Strip(s[..|s| - 1])
    else s
  }

  /** `s` is `r` with only whitespace added on either side. */
  ghost predicate Padded(s: string, r: string) {
    exists a, b :: s == a + r + b && AllSpace(a) && AllSpace(b)
  }

  /** What `strip()` removes is whitespace, and only from the two ends. */
  lemma {:induction false} StripIsInfix(s: string)
    ensures Padded(s, Strip(s))
    decreases |s|
  {
    if s != [] && IsSpace(s[0]) {
      StripIsInfix(s[1..]);
      assert s == [s[0]] + s[1..];
      PadFront(s[0], s[1..], Strip(s));
    } else if s != [] && IsSpace(s[|s| - 1]) {
      StripIsInfix(s[..|s| - 1]);
      assert s == s[..|s| - 1] + [s[|s| - 1]];
      PadBack(s[..|s| - 1], s[|s| - 1], Strip(s));
    } else {
      var e: string := [];
      assert AllSpace(e);
      assert s == e + s + e;
    }
  }

  lemma PadFront(c: char, t: string, r: string)
    requires IsSpace(c) && Padded(t, r)
    ensures Padded([c] + t, r)
  {
    var a, b :| t == a + r + b && AllSpace(a) && AllSpace(b);
    SpacesCons(c, a);
    assert [c] + t == ([c] + a) + r + b;
  }

  lemma PadBack(t: string, c: char, r: string)
    requires IsSpace(c) && Padded(t, r)
    ensures Padded(t + [c], r)
  {
    var a, b :| t == a + r + b && AllSpace(a) && AllSpace(b);
    SpacesSnoc(b, c);
    assert t + [c] == a + r + (b + [c]);
  }

  lemma SpacesCons(c: char, a: string)
    requires IsSpace(c) && AllSpace(a)
    ensures AllSpace([c] + a)
  {
    assert forall k :: 1 <= k < |a| + 1 ==> ([c] + a)[k] == a[k - 1];
  }

  lemma SpacesSnoc(a: string, c: char)
    requires IsSpace(c) && AllSpace(a)
    ensures AllSpace(a + [c])
  {
    assert forall k :: 0 <= k < |a| ==> (a + [c])[k] == a[k];
  }

  /** `strip()` is characterised by its contract: whatever splits `s` into
      whitespace, a trimmed core and whitespace, that core is `Strip(s)`. */
  lemma {:induction false} StripCharacterised(a: string, t: string, b: string)
    requires AllSpace(a) && AllSpace(b) && Trimmed(t)
    ensures Strip(a + t + b) == t
    decreases |a| + |b|
  {
    var s := a + t + b;
    if a != [] {
      assert s[0] == a[0];
      assert s[1..] == a[1..] + t + b;
      StripCharacterised(a[1..], t, b);
    } else if b != [] {
      assert s == t + b;
      if t == [] {
        assert s[0] == b[0];
        assert s[1..] == a + t + b[1..];
        StripCharacterised(a, t, b[1..]);
      } else {
        assert s[0] == t[0];
        assert s[|s| - 1] == b[|b| - 1];
        assert s[..|s| - 1] == a + t + b[..|b| - 1];
        StripCharacterised(a, t, b[..|b| - 1]);
      }
    } else {
      assert s == t;
    }
  }

  /** The position of the first `sep` in `s`. */
  function IndexOf(s: string, sep: char): (i: nat)
    requires sep in s
    ensures i < |s| && s[i] == sep && sep !in s[..i]
  {
    if s[0] == sep then 0 else
      assert sep in s[1..] by { assert s == [s[0]] + s[1..]; }
      1 + IndexOf(s[1..], sep)
  }

  /** `sep.join(parts)`. */
  function Join(parts: seq<string>, sep: char): string {
    if parts == [] then ""
    else if |parts| == 1 then parts[0]
    else parts[0] + [sep] + Join(parts[1..], sep)
  }

  /** `s.split(sep)`: the pieces between separators, including empty ones;
      always at least one piece, none holds `sep`, and joining them back
      with `sep` gives `s`. */
  function Split(s: string, sep: char): (r: seq<string>)
    ensures |r| >= 1
    ensures forall i :: 0 <= i < |r| ==> sep !in r[i]
    ensures Join(r, sep) == s
    decreases |s|
  {
    if sep !in s then [s]
    else
      var i := IndexOf(s, sep);
      var rest := Split(s[i + 1..], sep);
      assert s == s[..i] + [sep] + s[i + 1..];
      [s[..i]] + rest
  }

  /** The first separator of `a + [sep] + b` is the one after `a` when `a`
      holds none. */
  lemma FirstSeparator(a: string, b: string, sep: char)
    requires sep !in a
    ensures sep in a + [sep] + b && IndexOf(a + [sep] + b, sep) == |a|
  {
    var s := a + [sep] + b;
    assert s[|a|] == sep;
    assert forall k :: 0 <= k < |a| ==> s[k] == a[k];
  }

  /** Splitting is the only way to cut `s` into separator-free pieces that
      join back to `s`. */
  lemma {:induction false} SplitUnique(parts: seq<string>, sep: char)
    requires |parts| >= 1
    requires forall i :: 0 <= i < |parts| ==> sep !in parts[i]
    ensures Split(Join(parts, sep), sep) == parts
    decreases |parts|
  {
    var s := Join(parts, sep);
    if |parts| == 1 {
      assert sep !in s;
    } else {
      var tail := parts[1..];
      var rest := Join(tail, sep);
      assert s == parts[0] + [sep] + rest;
      FirstSeparator(parts[0], rest, sep);
      var i := |parts[0]|;
      assert s[..i] == parts[0];
      assert s[i + 1..] == rest;
      assert Split(s, sep) == [parts[0]] + Split(rest, sep);
      SplitUnique(tail, sep);
      assert parts == [parts[0]] + tail;
    }
  }
}
