/**
 * The string operations the app calls: trimming of white space, lower-casing,
 * substring search and the `<` order on names. Characters are compared by code
 * point; lower-casing folds the ASCII letters only.
 */
module Text {

  /** The white-space and newline characters removed by trimming. */
  predicate IsWhitespace(c: char)
  {
    c == ' ' || c == '\t' || c == '\n' || c == '\r' || c == '\U{B}' || c == '\U{C}'
  }

  /** The first index at or after `i` that does not hold white space (`|s|` when there is none). */
  function ContentStart(s: string, i: nat): (k: nat)
    requires i <= |s|
    ensures i <= k <= |s|
    ensures forall j :: i <= j < k ==> IsWhitespace(s[j])
    ensures k == |s| || !IsWhitespace(s[k])
    decreases |s| - i
  {
    if i < |s| && IsWhitespace(s[i]) then ContentStart(s, i + 1) else i
  }

  /** The end of the content before `j`: trailing white space between `lo` and `j` excluded. */
  function ContentEnd(s: string, lo: nat, j: nat): (e: nat)
    requires lo <= j <= |s|
    ensures lo <= e <= j
    ensures forall k :: e <= k < j ==> IsWhitespace(s[k])
    ensures e == lo || !IsWhitespace(s[e - 1])
    decreases j
  {
    if lo < j && IsWhitespace(s[j - 1]) then ContentEnd(s, lo, j - 1) else j
  }

  /**
   * `trimmingCharacters(in: .whitespacesAndNewlines)`: the longest slice of `s`
   * that neither starts nor ends with white space, everything cut off being white space.
   */
  function Trim(s: string): (r: string)
    ensures exists i :: TrimmedAt(s, r, i)
    ensures r == [] || (!IsWhitespace(r[0]) && !IsWhitespace(r[|r| - 1]))
  {
    var start := ContentStart(s, 0);
    var end := ContentEnd(s, start, |s|);
    assert TrimmedAt(s, s[start..end], start);
    s[start..end]
  }

  /** `r` is the slice of `s` at offset `i` and everything around it is white space. */
  ghost predicate TrimmedAt(s: string, r: string, i: int)
  {
    && 0 <= i <= |s| - |r|
    && r == s[i..i + |r|]
    && (forall k :: 0 <= k < i ==> IsWhitespace(s[k]))
    && (forall k :: i + |r| <= k < |s| ==> IsWhitespace(s[k]))
  }

  /** A string with no white space at either end is its own trimmed form. */
  lemma TrimUnpadded(s: string)
    requires s == [] || (!IsWhitespace(s[0]) && !IsWhitespace(s[|s| - 1]))
    ensures Trim(s) == s
  {
    if s != [] {
      assert ContentStart(s, 0) == 0;
      assert ContentEnd(s, 0, |s|) == |s|;
    }
  }

  /** Trimming twice is trimming once. */
  lemma TrimIdempotent(s: string)
    ensures Trim(Trim(s)) == Trim(s)
  {
    var t := Trim(s);
    TrimUnpadded(t);
  }

  /** Lower-cases one character (ASCII letters; every other character is unchanged). */
  function LowerChar(c: char): char
  {
    if 'A' <= c <= 'Z' then (c as int + 32) as char else c
  }

  /** `lowercased()`: lower-cases every character in place. */
  function Lowercased(s: string): (r: string)
    ensures |r| == |s|
    ensures forall i :: 0 <= i < |s| ==> r[i] == LowerChar(s[i])
    decreases |s|
  {
    if s == [] then [] else [LowerChar(s[0])] + Lowercased(s[1..])
  }

  /** Lower-casing twice is lower-casing once. */
  lemma LowercasedIdempotent(s: string)
    ensures Lowercased(Lowercased(s)) == Lowercased(s)
  {
    var once := Lowercased(s);
    var twice := Lowercased(once);
    assert forall i :: 0 <= i < |s| ==> twice[i] == once[i];
  }

  /** Lower-casing commutes with trimming, since no white-space character is a letter. */
  lemma {:induction false} TrimLowercased(s: string)
    ensures Trim(Lowercased(s)) == Lowercased(Trim(s))
  {
    ContentStartLowercased(s, 0);
    var start := ContentStart(s, 0);
    ContentEndLowercased(s, start, |s|);
    LowercasedSlice(s, start, ContentEnd(s, start, |s|));
  }

  /** No letter is white space, so lower-casing a character keeps whether it is white space. */
  lemma LowerCharWhitespace(c: char)
    ensures IsWhitespace(LowerChar(c)) <==> IsWhitespace(c)
  {
  }

  lemma {:induction false} ContentStartLowercased(s: string, i: nat)
    requires i <= |s|
    ensures ContentStart(Lowercased(s), i) == ContentStart(s, i)
    decreases |s| - i
  {
    if i < |s| {
      LowerCharWhitespace(s[i]);
      if IsWhitespace(s[i]) {
        ContentStartLowercased(s, i + 1);
      }
    }
  }

  lemma {:induction false} ContentEndLowercased(s: string, lo: nat, j: nat)
    requires lo <= j <= |s|
    ensures ContentEnd(Lowercased(s), lo, j) == ContentEnd(s, lo, j)
    decreases j
  {
    if lo < j {
      LowerCharWhitespace(s[j - 1]);
      if IsWhitespace(s[j - 1]) {
        ContentEndLowercased(s, lo, j - 1);
      }
    }
  }

  /** Lower-casing a slice gives the slice of the lower-cased string. */
  lemma LowercasedSlice(s: string, a: nat, b: nat)
    requires a <= b <= |s|
    ensures Lowercased(s)[a..b] == Lowercased(s[a..b])
  {
    assert forall i :: 0 <= i < b - a ==> Lowercased(s)[a..b][i] == Lowercased(s[a..b])[i];
  }

  /**
   * `s.contains(sub)`: a non-empty `sub` occurs in `s` as a contiguous slice.
   * As in Foundation, the empty string is contained in no string.
   */
  predicate Contains(s: string, sub: string): (found: bool)
    ensures found ==> 0 < |sub| <= |s|
  {
    sub != [] && exists i :: 0 <= i <= |s| - |sub| && OccursAt(s, sub, i)
  }

  /** `sub` occurs in `s` starting at index `i`. */
  predicate OccursAt(s: string, sub: string, i: int)
  {
    0 <= i <= |s| - |sub| && s[i..i + |sub|] == sub
  }

  /** An occurrence of `sub` in `s` is an occurrence of its lower-cased form in the lower-cased `s`. */
  lemma ContainsLowercased(s: string, sub: string)
    ensures Contains(s, sub) ==> Contains(Lowercased(s), Lowercased(sub))
  {
    if Contains(s, sub) {
      var i :| 0 <= i <= |s| - |sub| && OccursAt(s, sub, i);
      LowercasedSlice(s, i, i + |sub|);
      assert OccursAt(Lowercased(s), Lowercased(sub), i);
    }
  }

  /**
   * `localizedCaseInsensitiveContains`: both sides lower-cased, then searched.
   * An exact occurrence is also found; the empty string is never found.
   */
  predicate ContainsIgnoringCase(s: string, sub: string): (found: bool)
    ensures Contains(s, sub) ==> found
    ensures found ==> sub != []
  {
    ContainsLowercased(s, sub);
    Contains(Lowercased(s), Lowercased(sub))
  }

  /** The letter case of either side does not change whether the text is found. */
  lemma ContainsIgnoringCaseLowercased(s: string, sub: string)
    ensures ContainsIgnoringCase(Lowercased(s), sub) == ContainsIgnoringCase(s, sub)
    ensures ContainsIgnoringCase(s, Lowercased(sub)) == ContainsIgnoringCase(s, sub)
  {
    LowercasedIdempotent(s);
    LowercasedIdempotent(sub);
  }

  /** The lexicographic order on strings by code point (Swift's `<` on ASCII names). */
  predicate Less(a: string, b: string)
    decreases |a|
  {
    if a == [] then b != []
    else if b == [] then false
    else a[0] < b[0] || (a[0] == b[0] && Less(a[1..], b[1..]))
  }

  lemma {:induction false} LessIrreflexive(a: string)
    ensures !Less(a, a)
    decreases |a|
  {
    if a != [] {
      LessIrreflexive(a[1..]);
    }
  }

  lemma {:induction false} LessTransitive(a: string, b: string, c: string)
    requires Less(a, b) && Less(b, c)
    ensures Less(a, c)
    decreases |a|
  {
    if a != [] && b != [] && c != [] && a[0] == b[0] == c[0] {
      LessTransitive(a[1..], b[1..], c[1..]);
    }
  }

  /** Any two different strings are ordered one way or the other. */
  lemma {:induction false} LessTotal(a: string, b: string)
    requires a != b
    ensures Less(a, b) || Less(b, a)
    decreases |a|
  {
    if a != [] && b != [] && a[0] == b[0] {
      assert a == [a[0]] + a[1..] && b == [b[0]] + b[1..];
      LessTotal(a[1..], b[1..]);
    }
  }
}
