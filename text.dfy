/**
 * The string primitives the search normaliser and the filter rely on:
 * `trim`, removal of combining diacritical marks, `includes`, `join`,
 * and the normaliser itself. Unicode decomposition (NFKD) and lower-casing
 * are library behaviour and enter as the parameters of a `TextLib`.
 */
module Text {
  import opened Seqs

  // ---------------------------------------------------------------- trim

  /**
   * The code points `String.prototype.trim` removes: the ECMAScript
   * WhiteSpace set (tab, vertical tab, form feed, space, no-break space,
   * byte order mark and the Unicode space separators) and the line terminators.
   */
  predicate IsJsWhiteSpace(c: char) {
    || c == '\t' || c == '\U{B}' || c == '\U{C}' || c == ' ' || c == '\U{A0}' || c == '\U{FEFF}'
    || c == '\U{1680}' || ('\U{2000}' <= c <= '\U{200A}') || c == '\U{202F}' || c == '\U{205F}' || c == '\U{3000}'
    || c == '\n' || c == '\r' || c == '\U{2028}' || c == '\U{2029}'
  }

  /** The first position at or after `i` that does not hold white space, or `|s|`. */
  function SkipSpaceForward(s: string, i: nat): (r: nat)
    requires i <= |s|
    ensures i <= r <= |s|
    ensures forall k :: i <= k < r ==> IsJsWhiteSpace(s[k])
    ensures r < |s| ==> !IsJsWhiteSpace(s[r])
    decreases |s| - i
  {
    if i < |s| && IsJsWhiteSpace(s[i]) then SkipSpaceForward(s, i + 1) else i
  }

  /** The last position `r`, from `j` down to `lo`, such that `s[r - 1]` is not white space, or `lo`. */
  function SkipSpaceBackward(s: string, lo: nat, j: nat): (r: nat)
    requires lo <= j <= |s|
    ensures lo <= r <= j
    ensures forall k :: r <= k < j ==> IsJsWhiteSpace(s[k])
    ensures r > lo ==> !IsJsWhiteSpace(s[r - 1])
    decreases j
  {
    if j > lo && IsJsWhiteSpace(s[j - 1]) then SkipSpaceBackward(s, lo, j - 1) else j
  }

  /** `String.prototype.trim`: the text between the leading and the trailing white space. */
  function Trim(s: string): string {
    var i := SkipSpaceForward(s, 0);
    s[i..SkipSpaceBackward(s, i, |s|)]
  }

  /** `s[..i]` and `s[j..]` are all white space. */
  predicate CutAt(s: string, i: int, j: int) {
    && 0 <= i <= j <= |s|
    && (forall k :: 0 <= k < i ==> IsJsWhiteSpace(s[k]))
    && (forall k :: j <= k < |s| ==> IsJsWhiteSpace(s[k]))
  }

  /**
   * Trim cuts `s` into white space, a middle and white space, and returns the
   * middle, which neither starts nor ends with white space.
   */
  lemma TrimSpec(s: string)
    ensures exists i, j :: CutAt(s, i, j) && Trim(s) == s[i..j]
    ensures Trim(s) != [] ==> !IsJsWhiteSpace(Trim(s)[0]) && !IsJsWhiteSpace(Trim(s)[|Trim(s)| - 1])
  {
    var i := SkipSpaceForward(s, 0);
    var j := SkipSpaceBackward(s, i, |s|);
    assert CutAt(s, i, j);
  }

  /** Trimming is idempotent. */
  lemma TrimIdempotent(s: string)
    ensures Trim(Trim(s)) == Trim(s)
  {
    var r := Trim(s);
    TrimSpec(s);
    var i := SkipSpaceForward(r, 0);
    assert i == 0;
    assert SkipSpaceBackward(r, 0, |r|) == |r|;
  }

  // ---------------------------------------------------- diacritical marks

  /** A code point of the Combining Diacritical Marks block, U+0300 to U+036F. */
  predicate IsCombiningMark(c: char) {
    '\U{300}' <= c <= '\U{36F}'
  }

  /** The test that keeps a code point: it is not a combining mark. */
  function KeepsChar(): char -> bool {
    c => !IsCombiningMark(c)
  }

  /** `s.replace(/[̀-ͯ]/g, '')`: every combining mark removed, the rest kept in order. */
  function StripMarks(s: string): string {
    Filter(s, KeepsChar())
  }

  /** A string with no code point in U+0300 to U+036F. */
  predicate MarkFree(s: string) {
    forall k :: 0 <= k < |s| ==> !IsCombiningMark(s[k])
  }

  /**
   * Removing marks keeps exactly the non-mark code points of `s` in their
   * order, so its result is a subsequence of `s` with no mark left.
   */
  lemma StripMarksSpec(s: string)
    ensures IsFilterOf(StripMarks(s), s, KeepsChar())
    ensures MarkFree(StripMarks(s))
    ensures |StripMarks(s)| <= |s|
  {
    FilterIsFilterOf(s, KeepsChar());
    var r := StripMarks(s);
    assert forall k :: 0 <= k < |r| ==> r[k] in r;
  }

  /** Marks are removed piece by piece: the removal of a concatenation concatenates the removals. */
  lemma StripMarksConcat(a: string, b: string)
    ensures StripMarks(a + b) == StripMarks(a) + StripMarks(b)
  {
    FilterConcat(a, b, KeepsChar());
  }

  /** A string without marks is left as it is. */
  lemma StripMarksOfMarkFree(s: string)
    requires MarkFree(s)
    ensures StripMarks(s) == s
  {
    FilterKeepsAll(s, KeepsChar());
  }

  /** Removing marks twice is the same as removing them once. */
  lemma StripMarksIdempotent(s: string)
    ensures StripMarks(StripMarks(s)) == StripMarks(s)
  {
    FilterIdempotent(s, KeepsChar());
  }

  /** A run made only of marks disappears entirely. */
  lemma {:induction false} StripMarksOfMarks(v: string)
    requires forall k :: 0 <= k < |v| ==> IsCombiningMark(v[k])
    ensures StripMarks(v) == []
  {
    if v != [] {
      StripMarksOfMarks(v[..|v| - 1]);
    }
  }

  // ------------------------------------------------------------- includes

  /** `needle` occurs in `hay` starting at position `i`. */
  predicate OccursAt(hay: string, needle: string, i: int) {
    0 <= i && i + |needle| <= |hay| && hay[i..i + |needle|] == needle
  }

  /** `hay.includes(needle)`, computed by trying each start position in turn. */
  predicate Includes(hay: string, needle: string)
    decreases |hay|
  {
    OccursAt(hay, needle, 0) || (hay != [] && Includes(hay[1..], needle))
  }

  /** Includes holds exactly when `needle` occurs at some position of `hay`. */
  lemma {:induction false} IncludesSpec(hay: string, needle: string)
    ensures Includes(hay, needle) <==> exists i :: OccursAt(hay, needle, i)
  {
    if hay != [] {
      IncludesSpec(hay[1..], needle);
      if Includes(hay[1..], needle) {
        var i :| OccursAt(hay[1..], needle, i);
        assert OccursAt(hay, needle, i + 1);
      }
      if i :| OccursAt(hay, needle, i) && i > 0 {
        assert OccursAt(hay[1..], needle, i - 1);
      }
    }
  }

  /** An occurrence of an occurrence is an occurrence: `includes` is transitive. */
  lemma IncludesTrans(a: string, b: string, c: string)
    requires Includes(a, b) && Includes(b, c)
    ensures Includes(a, c)
  {
    IncludesSpec(a, b);
    IncludesSpec(b, c);
    IncludesSpec(a, c);
    var i :| OccursAt(a, b, i);
    var j :| OccursAt(b, c, j);
    forall t | 0 <= t < |c| ensures a[i + j + t] == c[t] {
      assert b[j + t] == c[t] && b[j + t] == a[i..i + |b|][j + t];
    }
    assert a[i + j..i + j + |c|] == c;
    assert OccursAt(a, c, i + j);
  }

  /** Every string includes the empty string. */
  lemma IncludesEmpty(hay: string)
    ensures Includes(hay, "")
  {
    assert OccursAt(hay, "", 0);
  }

  /** An occurrence in a part of a concatenation is an occurrence in the whole. */
  lemma IncludesConcat(a: string, b: string, needle: string)
    requires Includes(a, needle) || Includes(b, needle)
    ensures Includes(a + b, needle)
  {
    IncludesSpec(a, needle);
    IncludesSpec(b, needle);
    IncludesSpec(a + b, needle);
    if Includes(a, needle) {
      var i :| OccursAt(a, needle, i);
      assert (a + b)[i..i + |needle|] == a[i..i + |needle|];
      assert OccursAt(a + b, needle, i);
    } else {
      var i :| OccursAt(b, needle, i);
      assert (a + b)[|a| + i..|a| + i + |needle|] == b[i..i + |needle|];
      assert OccursAt(a + b, needle, |a| + i);
    }
  }

  // ----------------------------------------------------------------- join

  /** `parts.join(sep)`. */
  function Join(parts: seq<string>, sep: string): string {
    if |parts| == 0 then ""
    else if |parts| == 1 then parts[0]
    else parts[0] + sep + Join(parts[1..], sep)
  }

  /** The joined text contains every part, so a search for one capital finds it among several. */
  lemma {:induction false} JoinIncludesParts(parts: seq<string>, sep: string, k: int)
    requires 0 <= k < |parts|
    ensures Includes(Join(parts, sep), parts[k])
  {
    if |parts| == 1 {
      assert OccursAt(parts[0], parts[0], 0);
    } else if k == 0 {
      assert OccursAt(parts[0], parts[0], 0);
      IncludesConcat(parts[0], sep + Join(parts[1..], sep), parts[0]);
      assert parts[0] + sep + Join(parts[1..], sep) == parts[0] + (sep + Join(parts[1..], sep));
    } else {
      JoinIncludesParts(parts[1..], sep, k - 1);
      IncludesConcat(parts[0] + sep, Join(parts[1..], sep), parts[k]);
    }
  }

  // ------------------------------------------------------------ normaliser

  /**
   * The Unicode library routines the normaliser calls:
   * `String.prototype.normalize('NFKD')` and `String.prototype.toLowerCase`.
   */
  datatype TextLib = TextLib(nfkd: string -> string, lower: string -> string)

  /** `norm`: decompose, drop the combining marks, lower-case. */
  function Norm(lib: TextLib, s: string): string {
    lib.lower(StripMarks(lib.nfkd(s)))
  }

  /**
   * Normalisation does not see combining marks: two strings whose
   * decompositions differ only by a run of marks inserted somewhere
   * normalise alike (so "A" followed by U+030A matches "A").
   */
  lemma InsertedMarksIgnored(lib: TextLib, a: string, b: string, u: string, v: string, w: string)
    requires lib.nfkd(a) == u + w && lib.nfkd(b) == u + v + w
    requires forall k :: 0 <= k < |v| ==> IsCombiningMark(v[k])
    ensures Norm(lib, a) == Norm(lib, b)
  {
    StripMarksConcat(u + v, w);
    StripMarksConcat(u, v);
    StripMarksConcat(u, w);
    StripMarksOfMarks(v);
    assert StripMarks(u + v + w) == StripMarks(u) + StripMarks(w);
    assert StripMarks(lib.nfkd(a)) == StripMarks(lib.nfkd(b));
  }
}
