/**
 * The JavaScript string operations the scripts rely on, on `string` (a sequence of chars):
 * `includes`, `split` and `join` with a literal separator, `replace` with a global regex that
 * matches one literal string, and `trim`.
 */
module JsString {

  /** `pat` occurs in `s` starting at index `p`. */
  predicate OccursAt(s: string, pat: string, p: int) {
    0 <= p && p + |pat| <= |s| && s[p..p + |pat|] == pat
  }

  /** `s.includes(pat)`. */
  function Includes(s: string, pat: string): (r: bool)
    ensures r <==> exists p :: OccursAt(s, pat, p)
    decreases |s|
  {
    if |s| < |pat| then false
    else if s[..|pat|] == pat then (assert OccursAt(s, pat, 0); true)
    else
      IncludesStep(s, pat);
      Includes(s[1..], pat)
  }

  /** An occurrence past index 0 of `s` is an occurrence in `s[1..]`, and back. */
  lemma IncludesStep(s: string, pat: string)
    requires |s| >= |pat| && s[..|pat|] != pat
    ensures (exists p :: OccursAt(s, pat, p)) <==> (exists p :: OccursAt(s[1..], pat, p))
  {
    if p :| OccursAt(s, pat, p) {
      assert p != 0;
      assert s[1..][p - 1..p - 1 + |pat|] == s[p..p + |pat|];
      assert OccursAt(s[1..], pat, p - 1);
    }
    if p :| OccursAt(s[1..], pat, p) {
      assert s[1..][p..p + |pat|] == s[p + 1..p + 1 + |pat|];
      assert OccursAt(s, pat, p + 1);
    }
  }

  /** `parts.join(sep)`; an empty array joins to the empty string. */
  function Join(parts: seq<string>, sep: string): string
    decreases |parts|
  {
    if |parts| == 0 then ""
    else if |parts| == 1 then parts[0]
    else parts[0] + sep + Join(parts[1..], sep)
  }

  /** Putting a character in front of the first piece puts it in front of the joined text. */
  lemma JoinConsChar(c: char, parts: seq<string>, sep: string)
    requires |parts| >= 1
    ensures Join([[c] + parts[0]] + parts[1..], sep) == [c] + Join(parts, sep)
  {
    var q := [[c] + parts[0]] + parts[1..];
    if |parts| > 1 {
      assert q[1..] == parts[1..];
    }
  }

  /**
   * `s.split(sep)` for a non-empty separator: the pieces between the occurrences of `sep`
   * found from left to right without overlap. Joining the pieces with `sep` gives `s` back.
   */
  function Split(s: string, sep: string): (parts: seq<string>)
    requires |sep| > 0
    ensures |parts| >= 1
    ensures Join(parts, sep) == s
    decreases |s|
  {
    if |s| < |sep| then [s]
    else if s[..|sep|] == sep then
      var rest := Split(s[|sep|..], sep);
      assert s == sep + s[|sep|..];
      [""] + rest
    else
      var rest := Split(s[1..], sep);
      JoinConsChar(s[0], rest, sep);
      assert s == [s[0]] + s[1..];
      [[s[0]] + rest[0]] + rest[1..]
  }

  /** No piece of a split contains the separator. */
  lemma {:induction false} SplitPiecesFree(s: string, sep: string)
    requires |sep| > 0
    ensures forall i :: 0 <= i < |Split(s, sep)| ==> !Includes(Split(s, sep)[i], sep)
    decreases |s|
  {
    var parts := Split(s, sep);
    if |s| < |sep| {
      assert parts == [s];
      assert !Includes(s, sep);
    } else if s[..|sep|] == sep {
      SplitPiecesFree(s[|sep|..], sep);
      assert !Includes("", sep);
      assert parts[1..] == Split(s[|sep|..], sep);
    } else {
      var rest := Split(s[1..], sep);
      SplitPiecesFree(s[1..], sep);
      var head := [s[0]] + rest[0];
      assert parts == [head] + rest[1..];
      // rest[0] is a prefix of s[1..], so `head` is a prefix of `s`
      SplitHeadIsPrefix(s[1..], sep);
      assert head == s[..|head|];
    }
  }

  /** The first piece of a split is a prefix of the text. */
  lemma SplitHeadIsPrefix(s: string, sep: string)
    requires |sep| > 0
    ensures |Split(s, sep)[0]| <= |s| && Split(s, sep)[0] == s[..|Split(s, sep)[0]|]
  {
    var parts := Split(s, sep);
    if |parts| > 1 {
      assert s == parts[0] + sep + Join(parts[1..], sep);
    }
  }

  /** A text splits into more than one piece exactly when it contains the separator. */
  lemma {:induction false} SplitsIffIncludes(s: string, sep: string)
    requires |sep| > 0
    ensures |Split(s, sep)| > 1 <==> Includes(s, sep)
    decreases |s|
  {
    var parts := Split(s, sep);
    SplitPiecesFree(s, sep);
    if |parts| == 1 {
      assert s == parts[0];
    } else {
      assert s == parts[0] + sep + Join(parts[1..], sep);
      assert OccursAt(s, sep, |parts[0]|);
    }
  }

  /**
   * `s.replace(/pat/g, rep)` where the regex matches exactly the literal `pat` and `rep` holds
   * no `$` substitution pattern: every occurrence of `pat`, found from left to right without
   * overlap, becomes `rep`.
   */
  function ReplaceAll(s: string, pat: string, rep: string): string
    requires |pat| > 0
    decreases |s|
  {
    if |s| < |pat| then s
    else if s[..|pat|] == pat then rep + ReplaceAll(s[|pat|..], pat, rep)
    else [s[0]] + ReplaceAll(s[1..], pat, rep)
  }

  /** Replacing is splitting at the pattern and joining with the replacement: the text between
      the occurrences is kept as it is. */
  lemma {:induction false} ReplaceAllIsSplitJoin(s: string, pat: string, rep: string)
    requires |pat| > 0
    ensures ReplaceAll(s, pat, rep) == Join(Split(s, pat), rep)
    decreases |s|
  {
    if |s| < |pat| {
    } else if s[..|pat|] == pat {
      ReplaceAllIsSplitJoin(s[|pat|..], pat, rep);
      var rest := Split(s[|pat|..], pat);
      assert Split(s, pat) == [""] + rest;
      assert ([""] + rest)[1..] == rest;
    } else {
      ReplaceAllIsSplitJoin(s[1..], pat, rep);
      JoinConsChar(s[0], Split(s[1..], pat), rep);
    }
  }

  /** A text without the pattern comes back unchanged. */
  lemma ReplaceAllWithoutMatch(s: string, pat: string, rep: string)
    requires |pat| > 0 && !Includes(s, pat)
    ensures ReplaceAll(s, pat, rep) == s
  {
    SplitsIffIncludes(s, pat);
    ReplaceAllIsSplitJoin(s, pat, rep);
    assert Split(s, pat) == [s];
  }

  /** `c` is the first character of `x` and occurs nowhere else in it. */
  predicate LeadsOnce(x: string, c: char) {
    |x| > 0 && x[0] == c && c !in x[1..]
  }

  /** `x` and `y` differ at an index they both have (neither is a prefix of the other). */
  predicate Diverge(x: string, y: string) {
    exists k :: 0 <= k < |x| && k < |y| && x[k] != y[k]
  }

  /** A prefix free of the pattern's first character is left alone by the replacement. */
  lemma {:induction false} PrefixKept(t: string, u: string, pat: string, rep: string)
    requires |pat| > 0 && pat[0] !in u
    requires |u| <= |t| && t[..|u|] == u
    ensures |u| <= |ReplaceAll(t, pat, rep)| && ReplaceAll(t, pat, rep)[..|u|] == u
    decreases |t|
  {
    if |u| > 0 && |t| >= |pat| {
      assert t[..|pat|][0] == u[0];
      PrefixKept(t[1..], u[1..], pat, rep);
      assert ReplaceAll(t, pat, rep) == [t[0]] + ReplaceAll(t[1..], pat, rep);
      assert u == [t[0]] + u[1..];
    }
  }

  /** When the replacement starts with the pattern's first character, an output prefix free of
      that character was copied from the input. */
  lemma {:induction false} PrefixOriginal(t: string, k: nat, pat: string, rep: string)
    requires |pat| > 0 && |rep| > 0 && rep[0] == pat[0]
    requires k <= |ReplaceAll(t, pat, rep)|
    requires forall i :: 0 <= i < k ==> ReplaceAll(t, pat, rep)[i] != pat[0]
    ensures k <= |t| && t[..k] == ReplaceAll(t, pat, rep)[..k]
    decreases |t|
  {
    var r := ReplaceAll(t, pat, rep);
    if |t| < |pat| {
    } else if t[..|pat|] == pat {
      assert r[0] == rep[0];
    } else if k > 0 {
      var r1 := ReplaceAll(t[1..], pat, rep);
      assert r == [t[0]] + r1;
      assert r1[..k - 1] == r[1..k];
      PrefixOriginal(t[1..], k - 1, pat, rep);
      assert t[..k] == [t[0]] + t[1..][..k - 1];
      assert r[..k] == [t[0]] + r1[..k - 1];
    }
  }

  /** An occurrence in the right part of a concatenation is an occurrence in that part. */
  lemma OccursAtRight(a: string, b: string, q: string, p: int)
    requires OccursAt(a + b, q, p) && p >= |a|
    ensures OccursAt(b, q, p - |a|)
  {
    assert (a + b)[p..p + |q|] == b[p - |a|..p - |a| + |q|];
  }

  /** An occurrence in `b` is an occurrence in `a + b`, shifted by `|a|`. */
  lemma OccursAtShift(a: string, b: string, q: string, p: int)
    requires OccursAt(b, q, p)
    ensures OccursAt(a + b, q, |a| + p)
  {
    assert (a + b)[|a| + p..|a| + p + |q|] == b[p..p + |q|];
  }

  /** A `q` that leads with `rep`'s lead character and diverges from `rep` cannot start inside
      `rep`. */
  lemma LeadBlocks(rep: string, x: string, q: string, p: int)
    requires |rep| > 0 && LeadsOnce(rep, rep[0]) && LeadsOnce(q, rep[0]) && Diverge(q, rep)
    requires 0 <= p < |rep|
    ensures !OccursAt(rep + x, q, p)
  {
  }

  /** An occurrence at the front of the output, in a step that copied one character, was at
      the front of the input. */
  lemma OriginAtFront(s: string, q: string, pat: string, rep: string)
    requires |pat| > 0 && LeadsOnce(rep, pat[0]) && LeadsOnce(q, pat[0])
    requires |s| >= |pat| && s[..|pat|] != pat
    requires OccursAt([s[0]] + ReplaceAll(s[1..], pat, rep), q, 0)
    ensures OccursAt(s, q, 0) && q != pat
  {
    var t := s[1..];
    var r1 := ReplaceAll(t, pat, rep);
    var k := |q| - 1;
    assert ([s[0]] + r1)[..|q|] == q;
    assert k <= |r1|;
    forall i | 0 <= i < k
      ensures r1[i] != pat[0]
    {
      assert r1[i] == ([s[0]] + r1)[i + 1] == q[i + 1];
    }
    PrefixOriginal(t, k, pat, rep);
    assert s[..|q|] == [s[0]] + t[..k];
  }

  /**
   * Replacing `pat` by a `rep` that starts like `pat` creates no new occurrence of a `q` that
   * starts with that same character and diverges from `rep`: every occurrence of `q` in the
   * output was already in the input, and `pat` itself never survives.
   */
  lemma {:induction false} OccurrenceOrigin(s: string, q: string, pat: string, rep: string)
    requires |pat| > 0 && LeadsOnce(rep, pat[0]) && LeadsOnce(q, pat[0]) && Diverge(q, rep)
    ensures Includes(ReplaceAll(s, pat, rep), q) ==> Includes(s, q) && q != pat
    decreases |s|
  {
    var r := ReplaceAll(s, pat, rep);
    if Includes(r, q) {
      var p :| OccursAt(r, q, p);
      if |s| < |pat| {
        assert OccursAt(s, q, p);
      } else if s[..|pat|] == pat {
        OccurrenceOrigin(s[|pat|..], q, pat, rep);
        OriginAfterMatch(s, ReplaceAll(s[|pat|..], pat, rep), q, pat, rep, p);
      } else if p == 0 {
        OriginAtFront(s, q, pat, rep);
      } else {
        OccurrenceOrigin(s[1..], q, pat, rep);
        OriginAfterCopy(s, ReplaceAll(s[1..], pat, rep), q, pat, p);
      }
    }
  }

  /** The step of `OccurrenceOrigin` where the input starts with the pattern, which became
      `rep` in front of the rest `r1` of the output. */
  lemma OriginAfterMatch(s: string, r1: string, q: string, pat: string, rep: string, p: int)
    requires |pat| > 0 && LeadsOnce(rep, pat[0]) && LeadsOnce(q, pat[0]) && Diverge(q, rep)
    requires |s| >= |pat| && s[..|pat|] == pat
    requires OccursAt(rep + r1, q, p)
    requires Includes(r1, q) ==> Includes(s[|pat|..], q) && q != pat
    ensures Includes(s, q) && q != pat
  {
    var s1 := s[|pat|..];
    if p < |rep| {
      LeadBlocks(rep, r1, q, p);
    } else {
      assert Includes(r1, q) by {
        OccursAtRight(rep, r1, q, p);
      }
      var p1 :| OccursAt(s1, q, p1);
      assert OccursAt(s, q, |pat| + p1) by {
        assert s == pat + s1;
        OccursAtShift(pat, s1, q, p1);
      }
    }
  }

  /** The step of `OccurrenceOrigin` where the first input character was copied in front of
      the rest `r1` of the output, and the occurrence is not at the front. */
  lemma OriginAfterCopy(s: string, r1: string, q: string, pat: string, p: int)
    requires |s| > 0 && p > 0 && OccursAt([s[0]] + r1, q, p)
    requires Includes(r1, q) ==> Includes(s[1..], q) && q != pat
    ensures Includes(s, q) && q != pat
  {
    var s1 := s[1..];
    assert Includes(r1, q) by {
      OccursAtRight([s[0]], r1, q, p);
    }
    var p1 :| OccursAt(s1, q, p1);
    assert OccursAt(s, q, 1 + p1) by {
      assert s == [s[0]] + s1;
      OccursAtShift([s[0]], s1, q, p1);
    }
  }

  /** An occurrence at the front of the input, in a step that copies one character, stays at
      the front of the output. */
  lemma KeptAtFront(s: string, q: string, pat: string, rep: string)
    requires |pat| > 0 && LeadsOnce(q, pat[0])
    requires |s| >= |pat| && s[..|pat|] != pat && OccursAt(s, q, 0)
    ensures OccursAt([s[0]] + ReplaceAll(s[1..], pat, rep), q, 0)
  {
    var r1 := ReplaceAll(s[1..], pat, rep);
    assert s[1..][..|q| - 1] == q[1..];
    PrefixKept(s[1..], q[1..], pat, rep);
    assert ([s[0]] + r1)[..|q|] == [s[0]] + r1[..|q| - 1];
  }

  /**
   * An occurrence of a `q` that starts with the pattern's first character and diverges from
   * the pattern is never touched by the replacement, so it is still in the output.
   */
  lemma {:induction false} OccurrenceKept(s: string, q: string, pat: string, rep: string)
    requires |pat| > 0 && LeadsOnce(pat, pat[0]) && LeadsOnce(q, pat[0]) && Diverge(q, pat)
    ensures Includes(s, q) ==> Includes(ReplaceAll(s, pat, rep), q)
    decreases |s|
  {
    if Includes(s, q) {
      var r := ReplaceAll(s, pat, rep);
      var p :| OccursAt(s, q, p);
      if |s| < |pat| {
        assert OccursAt(r, q, p);
      } else if s[..|pat|] == pat {
        OccurrenceKept(s[|pat|..], q, pat, rep);
        KeptAfterMatch(s[|pat|..], ReplaceAll(s[|pat|..], pat, rep), q, pat, rep, p);
      } else if p == 0 {
        KeptAtFront(s, q, pat, rep);
      } else {
        OccurrenceKept(s[1..], q, pat, rep);
        KeptAfterCopy(s, ReplaceAll(s[1..], pat, rep), q, p);
      }
    }
  }

  /** The step of `OccurrenceKept` where the input is the pattern followed by `s1`, and the
      output `rep` followed by `r1`. */
  lemma KeptAfterMatch(s1: string, r1: string, q: string, pat: string, rep: string, p: int)
    requires |pat| > 0 && LeadsOnce(pat, pat[0]) && LeadsOnce(q, pat[0]) && Diverge(q, pat)
    requires OccursAt(pat + s1, q, p)
    requires Includes(s1, q) ==> Includes(r1, q)
    ensures Includes(rep + r1, q)
  {
    if p < |pat| {
      LeadBlocks(pat, s1, q, p);
    } else {
      assert Includes(s1, q) by {
        OccursAtRight(pat, s1, q, p);
      }
      var p1 :| OccursAt(r1, q, p1);
      OccursAtShift(rep, r1, q, p1);
    }
  }

  /** The step of `OccurrenceKept` where the first input character was copied in front of the
      rest `r1` of the output, and the occurrence is not at the front. */
  lemma KeptAfterCopy(s: string, r1: string, q: string, p: int)
    requires |s| > 0 && p > 0 && OccursAt(s, q, p)
    requires Includes(s[1..], q) ==> Includes(r1, q)
    ensures Includes([s[0]] + r1, q)
  {
    var s1 := s[1..];
    assert Includes(s1, q) by {
      assert s == [s[0]] + s1;
      OccursAtRight([s[0]], s1, q, p);
    }
    var p1 :| OccursAt(r1, q, p1);
    OccursAtShift([s[0]], r1, q, p1);
  }

  /** Including a one-character string is containing that character. */
  lemma IncludesChar(s: string, c: char)
    ensures Includes(s, [c]) <==> c in s
  {
    if c in s {
      var i :| 0 <= i < |s| && s[i] == c;
      assert s[i..i + 1] == [c];
      assert OccursAt(s, [c], i);
    }
    if Includes(s, [c]) {
      var p :| OccursAt(s, [c], p);
      assert s[p..p + 1][0] == s[p];
    }
  }

  /** No piece of a split at a one-character separator contains that character. */
  lemma SplitCharPiecesFree(s: string, c: char)
    ensures forall i :: 0 <= i < |Split(s, [c])| ==> c !in Split(s, [c])[i]
  {
    SplitPiecesFree(s, [c]);
    forall i | 0 <= i < |Split(s, [c])|
      ensures c !in Split(s, [c])[i]
    {
      IncludesChar(Split(s, [c])[i], c);
    }
  }

  /** Every character of a piece is a character of the joined text. */
  lemma {:induction false} JoinKeepsChars(parts: seq<string>, sep: string, i: int, c: char)
    requires 0 <= i < |parts| && c in parts[i]
    ensures c in Join(parts, sep)
    decreases |parts|
  {
    if |parts| > 1 {
      if i == 0 {
        assert Join(parts, sep) == parts[0] + (sep + Join(parts[1..], sep));
      } else {
        JoinKeepsChars(parts[1..], sep, i - 1, c);
        assert Join(parts, sep) == (parts[0] + sep) + Join(parts[1..], sep);
      }
    }
  }

  /** Splitting text without the separator character gives the text alone. */
  lemma SplitWithout(s: string, c: char)
    requires c !in s
    ensures Split(s, [c]) == [s]
  {
    IncludesChar(s, c);
    SplitsIffIncludes(s, [c]);
  }

  /** Splitting at the first separator: the text before it is the first piece and the rest
      splits on its own. */
  lemma {:induction false} SplitAtFirst(a: string, c: char, b: string)
    requires c !in a
    ensures Split(a + [c] + b, [c]) == [a] + Split(b, [c])
    decreases |a|
  {
    var s := a + [c] + b;
    if a == [] {
      assert s == [c] + b;
      assert s[..1] == [c];
      assert s[1..] == b;
    } else {
      assert s[..1] != [c] by { assert s[..1][0] == a[0]; }
      assert s[1..] == a[1..] + [c] + b;
      SplitAtFirst(a[1..], c, b);
      var rest := Split(s[1..], [c]);
      assert rest == [a[1..]] + Split(b, [c]);
      assert Split(s, [c]) == [[s[0]] + rest[0]] + rest[1..];
      assert [s[0]] + rest[0] == a;
      assert rest[1..] == Split(b, [c]);
    }
  }

  /** The first piece of a split of `x + y`, with no separator in `x`, is `x` followed by the
      first piece of `y`. */
  lemma {:induction false} SplitHeadAppend(x: string, c: char, y: string)
    requires c !in x
    ensures Split(x + y, [c])[0] == x + Split(y, [c])[0]
    decreases |x|
  {
    if x != [] {
      var s := x + y;
      assert s[0] == x[0] && s[1..] == x[1..] + y;
      SplitHeadStep(s, c);
      SplitHeadAppend(x[1..], c, y);
      assert x == [x[0]] + x[1..];
    } else {
      assert x + y == y;
    }
  }

  /** Text that does not start with the separator character keeps its first character at the
      front of the first piece. */
  lemma SplitHeadStep(s: string, c: char)
    requires |s| > 0 && s[0] != c
    ensures Split(s, [c])[0] == [s[0]] + Split(s[1..], [c])[0]
  {
    assert s[..1] != [c] by { assert s[..1][0] == s[0]; }
  }

  /** The characters `String.prototype.trim` removes: white space and line terminators. */
  predicate IsSpace(c: char) {
    || c in {' ', '\t', '\n', '\r', '\U{B}', '\U{C}', '\U{A0}', '\U{1680}'}
    || ('\U{2000}' <= c <= '\U{200A}')
    || c in {'\U{2028}', '\U{2029}', '\U{202F}', '\U{205F}', '\U{3000}', '\U{FEFF}'}
  }

  /** `s.trimStart()`: the suffix left after removing all leading white space. */
  function TrimStart(s: string): (r: string)
    ensures |r| <= |s| && r == s[|s| - |r|..]
    ensures forall i :: 0 <= i < |s| - |r| ==> IsSpace(s[i])
    ensures r == "" || !IsSpace(r[0])
    decreases |s|
  {
    if |s| > 0 && IsSpace(s[0]) then TrimStart(s[1..]) else s
  }

  /** `s.trimEnd()`: the prefix left after removing all trailing white space. */
  function TrimEnd(s: string): (r: string)
    ensures |r| <= |s| && r == s[..|r|]
    ensures forall i :: |r| <= i < |s| ==> IsSpace(s[i])
    ensures r == "" || !IsSpace(r[|r| - 1])
    decreases |s|
  {
    if |s| > 0 && IsSpace(s[|s| - 1]) then TrimEnd(s[..|s| - 1]) else s
  }

  /** `s.trim()`: white space removed from both ends. */
  function Trim(s: string): (r: string)
    ensures |r| <= |s|
  {
    TrimEnd(TrimStart(s))
  }

  /** Trimming yields the empty string exactly for all-white-space text. */
  lemma TrimEmpty(s: string)
    ensures Trim(s) == "" <==> forall i :: 0 <= i < |s| ==> IsSpace(s[i])
  {
    var t := TrimStart(s);
    assert t != "" ==> t[0] == s[|s| - |t|];
  }

  /** Trimmed text neither starts nor ends with white space. */
  lemma TrimEnds(s: string)
    ensures Trim(s) != "" ==> !IsSpace(Trim(s)[0]) && !IsSpace(Trim(s)[|Trim(s)| - 1])
  {
    var t := TrimStart(s);
    var r := TrimEnd(t);
    assert r != "" ==> r[0] == t[0];
  }

  /** Text that neither starts nor ends with white space is left unchanged. */
  lemma TrimUnchanged(s: string)
    requires s != "" && !IsSpace(s[0]) && !IsSpace(s[|s| - 1])
    ensures Trim(s) == s
  {
    assert TrimStart(s) == s;
  }
}
