/**
 * The JavaScript string operations the controllers use on request fields:
 * `split` on a one-character separator, `trim`, `includes`, and the
 * case folding behind a case-insensitive match.
 */
module Text {

  /** Number of occurrences of `c` in `s`. */
  function Count(s: string, c: char): (n: nat)
    ensures n <= |s|
    ensures n == 0 <==> c !in s
  {
    if s == [] then 0 else (if s[0] == c then 1 else 0) + Count(s[1..], c)
  }

  /** `s.split(sep)` for a one-character separator: the pieces between separators, empty pieces included. */
  function Split(s: string, sep: char): (parts: seq<string>)
    ensures |parts| == Count(s, sep) + 1
    ensures forall i :: 0 <= i < |parts| ==> sep !in parts[i]
  {
    if s == [] then [""]
    else
      var rest := Split(s[1..], sep);
      if s[0] == sep then [""] + rest
      else [[s[0]] + rest[0]] + rest[1..]
  }

  /** `parts.join(sep)`: the inverse of Split. */
  function Join(parts: seq<string>, sep: char): string
  {
    if parts == [] then ""
    else if |parts| == 1 then parts[0]
    else parts[0] + [sep] + Join(parts[1..], sep)
  }

  /** Joining after a leading empty piece starts with the separator. */
  lemma JoinEmptyHead(parts: seq<string>, sep: char)
    requires parts != []
    ensures Join([""] + parts, sep) == [sep] + Join(parts, sep)
  {
    assert ([""] + parts)[1..] == parts;
  }

  /** Joining after a character is prepended to the first piece is prepending it to the join. */
  lemma JoinConsHead(c: char, parts: seq<string>, sep: char)
    requires parts != []
    ensures Join([[c] + parts[0]] + parts[1..], sep) == [c] + Join(parts, sep)
  {
    var q := [[c] + parts[0]] + parts[1..];
    if |parts| > 1 {
      assert q[1..] == parts[1..];
      assert Join(q, sep) == ([c] + parts[0]) + [sep] + Join(parts[1..], sep);
    }
  }

  /** Splitting loses nothing: joining the pieces with the separator gives the string back. */
  lemma {:induction false} JoinSplit(s: string, sep: char)
    ensures Join(Split(s, sep), sep) == s
  {
    if s != [] {
      var rest := Split(s[1..], sep);
      JoinSplit(s[1..], sep);
      assert s == [s[0]] + s[1..];
      if s[0] == sep {
        JoinEmptyHead(rest, sep);
      } else {
        JoinConsHead(s[0], rest, sep);
      }
    }
  }

  /**
   * The characters `String.prototype.trim` removes: the WhiteSpace and LineTerminator
   * code points of section 12.2 and 12.3 of ECMA-262 (tab, vertical tab, form feed,
   * space, no-break space, byte order mark, the Unicode space separators, line feed,
   * carriage return, line and paragraph separator).
   */
  const WHITE_SPACE: set<char> := {
    '\t', '\n', '\U{000B}', '\U{000C}', '\r', ' ', '\U{00A0}', '\U{1680}',
    '\U{2000}', '\U{2001}', '\U{2002}', '\U{2003}', '\U{2004}', '\U{2005}', '\U{2006}',
    '\U{2007}', '\U{2008}', '\U{2009}', '\U{200A}',
    '\U{2028}', '\U{2029}', '\U{202F}', '\U{205F}', '\U{3000}', '\U{FEFF}'
  }

  /** `c` is one of the characters in WHITE_SPACE. */
  predicate IsSpace(c: char)
  {
    c in WHITE_SPACE
  }

  /** `s` with its leading white space removed: a suffix of `s` preceded only by white space. */
  function TrimStart(s: string): (r: string)
    ensures |r| <= |s| && r == s[|s| - |r|..]
    ensures r == [] || !IsSpace(r[0])
    ensures forall i :: 0 <= i < |s| - |r| ==> IsSpace(s[i])
  {
    if s != [] && IsSpace(s[0]) then
      var r := TrimStart(s[1..]);
      assert s[1..][|s| - 1 - |r|..] == s[|s| - |r|..];
      r
    else s
  }

  /** `s` with its trailing white space removed: a prefix of `s` followed only by white space. */
  function TrimEnd(s: string): (r: string)
    ensures |r| <= |s| && r == s[..|r|]
    ensures r == [] || !IsSpace(r[|r| - 1])
    ensures forall i :: |r| <= i < |s| ==> IsSpace(s[i])
  {
    if s != [] && IsSpace(s[|s| - 1]) then
      var r := TrimEnd(s[..|s| - 1]);
      assert s[..|s| - 1][..|r|] == s[..|r|];
      r
    else s
  }

  /** `s.trim()`. */
  function Trim(s: string): (r: string)
    ensures r == [] || (!IsSpace(r[0]) && !IsSpace(r[|r| - 1]))
    ensures |r| <= |s|
  {
    TrimEnd(TrimStart(s))
  }

  /** A prefix of a suffix is an infix. */
  lemma SuffixPrefix(s: string, i: nat, n: nat)
    requires i + n <= |s|
    ensures s[i..][..n] == s[i..i + n]
  {
  }

  /** White space after position `n` of the suffix `s[i..]` is white space after `i + n` in `s`. */
  lemma SpaceAfterInfix(s: string, i: nat, n: nat)
    requires i + n <= |s|
    requires forall k :: n <= k < |s[i..]| ==> IsSpace(s[i..][k])
    ensures forall k :: i + n <= k < |s| ==> IsSpace(s[k])
  {
    forall k | i + n <= k < |s| ensures IsSpace(s[k]) {
      assert s[k] == s[i..][k - i];
    }
  }

  /** What Trim removes is white space at the two ends and nothing else. */
  lemma TrimIsInfix(s: string)
    ensures var r := Trim(s); var i := |s| - |TrimStart(s)|;
      i + |r| <= |s| && r == s[i..i + |r|] &&
      (forall k :: 0 <= k < i ==> IsSpace(s[k])) &&
      (forall k :: i + |r| <= k < |s| ==> IsSpace(s[k]))
  {
    var t := TrimStart(s);
    var i := |s| - |t|;
    var r := TrimEnd(t);
    SuffixPrefix(s, i, |r|);
    SpaceAfterInfix(s, i, |r|);
  }

  /** Trimming twice is trimming once. */
  lemma TrimIdempotent(s: string)
    ensures Trim(Trim(s)) == Trim(s)
  {
    var r := Trim(s);
    assert TrimStart(r) == r;
    assert TrimEnd(r) == r;
  }

  /** `needle` occurs in `hay` starting at position `i`. */
  predicate OccursAt(hay: string, needle: string, i: nat)
  {
    i + |needle| <= |hay| && hay[i..i + |needle|] == needle
  }

  /** An occurrence one position further on in `hay` is an occurrence in its tail. */
  lemma OccursAtTail(hay: string, needle: string, i: nat)
    requires hay != []
    ensures OccursAt(hay, needle, i + 1) == OccursAt(hay[1..], needle, i)
  {
    if i + 1 + |needle| <= |hay| {
      assert hay[i + 1..i + 1 + |needle|] == hay[1..][i..i + |needle|];
    }
  }

  /** With no occurrence at the front nor in the tail, there is none at all. */
  lemma NoOccurrence(hay: string, needle: string)
    requires hay != [] && !(needle <= hay)
    requires forall i: nat :: !OccursAt(hay[1..], needle, i)
    ensures forall i: nat :: !OccursAt(hay, needle, i)
  {
    forall i: nat | OccursAt(hay, needle, i) ensures false {
      if i > 0 {
        OccursAtTail(hay, needle, i - 1);
      }
    }
  }

  /** `hay.includes(needle)`: `needle` occurs in `hay` as a contiguous piece. */
  function Includes(hay: string, needle: string): (b: bool)
    ensures b <==> exists i: nat :: OccursAt(hay, needle, i)
  {
    if needle <= hay then
      assert OccursAt(hay, needle, 0);
      true
    else if hay == [] then false
    else if Includes(hay[1..], needle) then
      var i: nat :| OccursAt(hay[1..], needle, i);
      OccursAtTail(hay, needle, i);
      true
    else
      NoOccurrence(hay, needle);
      false
  }

  /** Looking for a one-character string is looking for the character. */
  lemma IncludesChar(hay: string, c: char)
    ensures Includes(hay, [c]) <==> c in hay
  {
    if c in hay {
      var i :| 0 <= i < |hay| && hay[i] == c;
      assert OccursAt(hay, [c], i);
    }
    if Includes(hay, [c]) {
      var i: nat :| OccursAt(hay, [c], i);
      assert hay[i] == hay[i..i + 1][0];
    }
  }

  /** The lower-case form of an ASCII capital letter; every other character is left as it is. */
  function LowerChar(c: char): (d: char)
    ensures !('A' <= d <= 'Z')
    ensures 'A' <= c <= 'Z' ==> d as int == c as int - 'A' as int + 'a' as int
    ensures 'a' <= c <= 'z' || !('A' <= c <= 'Z') ==> d == c
  {
    if 'A' <= c <= 'Z' then (c as int - 'A' as int + 'a' as int) as char else c
  }

  /** `s` with every ASCII capital letter lowered. */
  function Lower(s: string): (r: string)
    ensures |r| == |s|
    ensures forall i :: 0 <= i < |s| ==> r[i] == LowerChar(s[i])
  {
    seq(|s|, i requires 0 <= i < |s| => LowerChar(s[i]))
  }

  /** From position `i` on, `hay` spells `needle` up to the case of ASCII letters. */
  predicate SameLettersAt(hay: string, needle: string, i: nat)
  {
    i + |needle| <= |hay| && forall k :: 0 <= k < |needle| ==> LowerChar(hay[i + k]) == LowerChar(needle[k])
  }

  /** An occurrence among the lowered strings is an occurrence up to case, and back. */
  lemma OccursLowered(hay: string, needle: string, i: nat)
    ensures OccursAt(Lower(hay), Lower(needle), i) <==> SameLettersAt(hay, needle, i)
  {
    if i + |needle| <= |hay| {
      var window := Lower(hay)[i..i + |needle|];
      assert forall k :: 0 <= k < |needle| ==> window[k] == LowerChar(hay[i + k]);
      if SameLettersAt(hay, needle, i) {
        assert window == Lower(needle);
      }
    }
  }

  /** The occurrences among the lowered strings are the occurrences up to case. */
  lemma LoweredOccurrences(hay: string, needle: string)
    ensures forall i: nat :: OccursAt(Lower(hay), Lower(needle), i) <==> SameLettersAt(hay, needle, i)
  {
    forall i: nat ensures OccursAt(Lower(hay), Lower(needle), i) <==> SameLettersAt(hay, needle, i) {
      OccursLowered(hay, needle, i);
    }
  }

  /** `needle` occurs in `hay` when case is ignored: the regular expression option `i` on a literal keyword. */
  function IncludesIgnoringCase(hay: string, needle: string): (b: bool)
    ensures b <==> exists i: nat :: SameLettersAt(hay, needle, i)
  {
    LoweredOccurrences(hay, needle);
    Includes(Lower(hay), Lower(needle))
  }

  /** The empty keyword occurs everywhere. */
  lemma EmptyIncludedEverywhere(hay: string)
    ensures IncludesIgnoringCase(hay, "")
  {
  }

  /** Matching ignores the case of the keyword: changing the keyword's case does not change the answer. */
  lemma IncludesIgnoringCaseOfKeyword(hay: string, a: string, b: string)
    requires Lower(a) == Lower(b)
    ensures IncludesIgnoringCase(hay, a) == IncludesIgnoringCase(hay, b)
  {
  }
}
