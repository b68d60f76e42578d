/** The two Foundation string operations the views rely on, stated explicitly:
    `trimmingCharacters(in: .whitespaces)` and a case-insensitive `contains`.
    Locale-dependent folding is replaced by ASCII case folding. */
module Text {

  /** Foundation's `CharacterSet.whitespaces`: horizontal tab and the Unicode space
      separators (general category Zs). Line breaks are not in this set. */
  predicate IsWhitespace(c: char) {
    c == '\t' || c == ' ' || c == '\U{00A0}' || c == '\U{1680}' ||
    ('\U{2000}' <= c <= '\U{200A}') || c == '\U{202F}' || c == '\U{205F}' || c == '\U{3000}'
  }

  ghost predicate AllWhitespace(s: string) {
    forall i :: 0 <= i < |s| ==> IsWhitespace(s[i])
  }

  /** The length of the longest all-whitespace prefix of `s`. */
  function LeadingWhitespace(s: string): (n: nat)
    ensures n <= |s| && AllWhitespace(s[..n])
    ensures n < |s| ==> !IsWhitespace(s[n])
  {
    if s != [] && IsWhitespace(s[0]) then
      var k := LeadingWhitespace(s[1..]);
      assert s[..k + 1] == [s[0]] + s[1..][..k];
      k + 1
    else 0
  }

  /** The length of the longest all-whitespace suffix of `s`. */
  function TrailingWhitespace(s: string): (n: nat)
    ensures n <= |s| && AllWhitespace(s[|s| - n..])
    ensures n < |s| ==> !IsWhitespace(s[|s| - 1 - n])
  {
    if s != [] && IsWhitespace(s[|s| - 1]) then
      var init := s[..|s| - 1];
      var k := TrailingWhitespace(init);
      assert s[|s| - (k + 1)..] == init[|init| - k..] + [s[|s| - 1]];
      k + 1
    else 0
  }

  /** `trimmingCharacters(in: .whitespaces)`: `s` without its leading and trailing whitespace. */
  function Trim(s: string): string {
    var start := LeadingWhitespace(s);
    var rest := s[start..];
    rest[..|rest| - TrailingWhitespace(rest)]
  }

  /** The trimmed text is a slice of the input cut only at whitespace, and it neither
      starts nor ends with whitespace. */
  lemma TrimIsCore(s: string)
    ensures exists i: nat :: OccursAt(s, Trim(s), i) && AllWhitespace(s[..i]) && AllWhitespace(s[i + |Trim(s)|..])
    ensures Trim(s) != [] ==> !IsWhitespace(Trim(s)[0]) && !IsWhitespace(Trim(s)[|Trim(s)| - 1])
  {
    var start := LeadingWhitespace(s);
    var rest := s[start..];
    var t := TrailingWhitespace(rest);
    assert Trim(s) == s[start..start + (|rest| - t)];
    assert s[start + |Trim(s)|..] == rest[|rest| - t..];
    assert OccursAt(s, Trim(s), start);
  }

  /** Trimming leaves nothing exactly when every character is whitespace. */
  lemma TrimEmptyIffAllWhitespace(s: string)
    ensures Trim(s) == [] <==> AllWhitespace(s)
  {
    var start := LeadingWhitespace(s);
    var rest := s[start..];
    var t := TrailingWhitespace(rest);
    if start < |s| {
      assert rest[0] == s[start];
      assert |Trim(s)| == |rest| - t;
    } else {
      assert s[..start] == s;
    }
  }

  /** ASCII case folding: upper-case letters become lower-case, nothing else changes. */
  function LowerAscii(c: char): (d: char)
    ensures 'A' <= c <= 'Z' ==> 'a' <= d <= 'z' && d as int - c as int == 32
    ensures !('A' <= c <= 'Z') ==> d == c
  {
    if 'A' <= c <= 'Z' then (c as int + 32) as char else c
  }

  function Fold(s: string): (r: string)
    ensures |r| == |s|
    ensures forall i :: 0 <= i < |s| ==> r[i] == LowerAscii(s[i])
  {
    if s == [] then [] else [LowerAscii(s[0])] + Fold(s[1..])
  }

  /** `needle` occurs in `hay` starting at position `i`. */
  ghost predicate OccursAt(hay: string, needle: string, i: nat) {
    i + |needle| <= |hay| && hay[i..i + |needle|] == needle
  }

  function IsPrefix(p: string, s: string): bool {
    |p| <= |s| && s[..|p|] == p
  }

  /** Substring search written as a scan over the start positions of `hay`. */
  function Contains(hay: string, needle: string): bool
    decreases |hay|
  {
    IsPrefix(needle, hay) || (hay != [] && Contains(hay[1..], needle))
  }

  /** The scan finds `needle` exactly when it occurs somewhere in `hay`. */
  lemma {:induction false} ContainsIffOccurs(hay: string, needle: string)
    ensures Contains(hay, needle) <==> exists i: nat :: OccursAt(hay, needle, i)
    decreases |hay|
  {
    if IsPrefix(needle, hay) {
      assert OccursAt(hay, needle, 0);
    }
    if hay != [] {
      ContainsIffOccurs(hay[1..], needle);
      if Contains(hay[1..], needle) {
        var i: nat :| OccursAt(hay[1..], needle, i);
        assert hay[1..][i..i + |needle|] == hay[i + 1..i + 1 + |needle|];
        assert OccursAt(hay, needle, i + 1);
      }
      if i: nat :| OccursAt(hay, needle, i) {
        if i > 0 {
          assert hay[1..][i - 1..i - 1 + |needle|] == hay[i..i + |needle|];
          assert OccursAt(hay[1..], needle, i - 1);
        } else {
          assert IsPrefix(needle, hay);
        }
      }
    } else {
      if i: nat :| OccursAt(hay, needle, i) {
        assert |needle| == 0 && i == 0;
        assert IsPrefix(needle, hay);
      }
    }
  }

  /** The search used by the list screen in place of `localizedCaseInsensitiveContains`. */
  function ContainsIgnoringCase(hay: string, needle: string): bool {
    Contains(Fold(hay), Fold(needle))
  }

  lemma FoldIgnoresCase(s: string, t: string)
    requires |s| == |t|
    requires forall i :: 0 <= i < |s| ==> LowerAscii(s[i]) == LowerAscii(t[i])
    ensures Fold(s) == Fold(t)
  {
  }
}
