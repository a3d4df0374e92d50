/** String helpers the records screen relies on: case folding for search,
    substring inclusion, whitespace trimming, and the ordering that string
    comparison (`<`, `>`) uses when the table is sorted.

    JavaScript compares strings code unit by code unit; here a string is a
    `seq<char>` and the order is the lexicographic order on `char`. Dafny's
    own `<` on sequences means "proper prefix", so the order is defined here. */
module Text {

  // ---------------------------------------------------------------------------
  // Case folding
  // ---------------------------------------------------------------------------

  predicate IsUpper(c: char) {
    'A' <= c <= 'Z'
  }

  /** ASCII lower-casing of one character. */
  function LowerChar(c: char): (r: char)
    ensures !IsUpper(r)
    ensures !IsUpper(c) ==> r == c
    ensures IsUpper(c) ==> 'a' <= r <= 'z' && r as int - c as int == 32
  {
    if IsUpper(c) then (c as int + 32) as char else c
  }

  /** `toLowerCase()` on a string, restricted to ASCII letters. */
  function Lower(s: string): (r: string)
    ensures |r| == |s|
    ensures forall i :: 0 <= i < |s| ==> r[i] == LowerChar(s[i])
  {
    seq(|s|, i requires 0 <= i < |s| => LowerChar(s[i]))
  }

  /** Lower-casing twice is lower-casing once. */
  lemma LowerIdempotent(s: string)
    ensures Lower(Lower(s)) == Lower(s)
  {
    assert forall i :: 0 <= i < |s| ==> LowerChar(LowerChar(s[i])) == LowerChar(s[i]);
  }

  /** Lower-casing distributes over concatenation. */
  lemma LowerConcat(a: string, b: string)
    ensures Lower(a + b) == Lower(a) + Lower(b)
  {
  }

  // ---------------------------------------------------------------------------
  // Substring inclusion (`String.prototype.includes`)
  // ---------------------------------------------------------------------------

  /** `needle` occurs in `hay` starting at index `i`. */
  ghost predicate OccursAt(hay: string, needle: string, i: int) {
    0 <= i && i + |needle| <= |hay| && hay[i..i + |needle|] == needle
  }

  /** The declarative meaning of inclusion: some occurrence exists. */
  ghost predicate Occurs(hay: string, needle: string) {
    exists i :: OccursAt(hay, needle, i)
  }

  /** `needle` is a prefix of `hay`. */
  predicate StartsWith(hay: string, needle: string) {
    |needle| <= |hay| && hay[..|needle|] == needle
  }

  /** `hay.includes(needle)`: scans every start position from the left.
      The empty needle is included in every string. */
  function Includes(hay: string, needle: string): (r: bool)
    ensures r <==> Occurs(hay, needle)
    decreases |hay|
  {
    if StartsWith(hay, needle) then
      assert OccursAt(hay, needle, 0);
      true
    else if |hay| <= |needle| then
      assert !Occurs(hay, needle) by {
        forall i | 0 <= i ensures !OccursAt(hay, needle, i) {
          if i == 0 && |needle| <= |hay| {
            assert hay[..|needle|] == hay[0..|needle|];
          }
        }
      }
      false
    else
      var rest := Includes(hay[1..], needle);
      if rest then
        assert Occurs(hay, needle) by {
          var i :| OccursAt(hay[1..], needle, i);
          assert hay[i + 1..i + 1 + |needle|] == hay[1..][i..i + |needle|];
          assert OccursAt(hay, needle, i + 1);
        }
        true
      else
        assert !Occurs(hay, needle) by {
          forall i | 0 <= i ensures !OccursAt(hay, needle, i) {
            if i == 0 {
              assert hay[..|needle|] == hay[0..|needle|];
            } else if i + |needle| <= |hay| {
              assert !OccursAt(hay[1..], needle, i - 1);
              assert hay[1..][i - 1..i - 1 + |needle|] == hay[i..i + |needle|];
            }
          }
        }
        false
  }

  /** Every string includes the empty string, and includes itself. */
  lemma IncludesTrivial(s: string)
    ensures Includes(s, "")
    ensures Includes(s, s)
  {
    assert OccursAt(s, "", 0);
    assert OccursAt(s, s, 0);
  }

  /** Inclusion survives extending the haystack on either side. */
  lemma IncludesExtend(a: string, hay: string, b: string, needle: string)
    requires Includes(hay, needle)
    ensures Includes(a + hay + b, needle)
  {
    var i :| OccursAt(hay, needle, i);
    var big := a + hay + b;
    assert big[|a| + i..|a| + i + |needle|] == hay[i..i + |needle|];
    assert OccursAt(big, needle, |a| + i);
  }

  // ---------------------------------------------------------------------------
  // Trimming (`String.prototype.trim`)
  // ---------------------------------------------------------------------------

  /** The characters `trim` strips: the ECMAScript WhiteSpace and
      LineTerminator code points (TAB, VT, FF, SP, NBSP, ZWNBSP, the Zs
      category, LF, CR, LS, PS). */
  predicate IsWhitespace(c: char) {
    || c == '\t' || c == '\n' || c == '\U{000B}' || c == '\U{000C}' || c == '\r'
    || c == ' ' || c == '\U{00A0}' || c == '\U{1680}'
    || ('\U{2000}' <= c <= '\U{200A}')
    || c == '\U{2028}' || c == '\U{2029}' || c == '\U{202F}' || c == '\U{205F}'
    || c == '\U{3000}' || c == '\U{FEFF}'
  }

  /** Every character of `s` is whitespace. */
  predicate AllWhitespace(s: string) {
    forall i :: 0 <= i < |s| ==> IsWhitespace(s[i])
  }

  function TrimStart(s: string): (r: string)
    ensures |r| <= |s| && r == s[|s| - |r|..]
    ensures AllWhitespace(s[..|s| - |r|])
    ensures r == [] || !IsWhitespace(r[0])
    decreases |s|
  {
    if |s| > 0 && IsWhitespace(s[0]) then
      var r := TrimStart(s[1..]);
      TrimStartStep(s, r);
      r
    else s
  }

  function TrimEnd(s: string): (r: string)
    ensures |r| <= |s| && r == s[..|r|]
    ensures AllWhitespace(s[|r|..])
    ensures r == [] || !IsWhitespace(r[|r| - 1])
    decreases |s|
  {
    if |s| > 0 && IsWhitespace(s[|s| - 1]) then
      var r := TrimEnd(s[..|s| - 1]);
      TrimEndStep(s, r);
      r
    else s
  }

  /** Whitespace in front of a trimmed tail is cut off with it. */
  lemma TrimStartStep(s: string, r: string)
    requires |s| > 0 && IsWhitespace(s[0])
    requires |r| <= |s| - 1 && r == s[1..][|s| - 1 - |r|..] && AllWhitespace(s[1..][..|s| - 1 - |r|])
    ensures r == s[|s| - |r|..] && AllWhitespace(s[..|s| - |r|])
  {
    var cut := s[..|s| - |r|];
    forall i | 0 <= i < |cut| ensures IsWhitespace(cut[i]) {
      if i > 0 { assert cut[i] == s[1..][..|s| - 1 - |r|][i - 1]; }
    }
  }

  /** Whitespace behind a trimmed front is cut off with it. */
  lemma TrimEndStep(s: string, r: string)
    requires |s| > 0 && IsWhitespace(s[|s| - 1])
    requires |r| <= |s| - 1 && r == s[..|s| - 1][..|r|] && AllWhitespace(s[..|s| - 1][|r|..])
    ensures r == s[..|r|] && AllWhitespace(s[|r|..])
  {
    var cut := s[|r|..];
    forall i | 0 <= i < |cut| ensures IsWhitespace(cut[i]) {
      if i < |cut| - 1 { assert cut[i] == s[..|s| - 1][|r|..][i]; }
    }
  }

  /** `r` is a window of `s` with only whitespace on either side of it. */
  ghost predicate CutWindow(s: string, r: string) {
    exists a ::
      && 0 <= a <= |s| - |r| && r == s[a..a + |r|]
      && AllWhitespace(s[..a]) && AllWhitespace(s[a + |r|..])
  }

  /** `s.trim()`: strip leading and trailing whitespace. What remains is a
      contiguous piece of `s` that neither starts nor ends with whitespace,
      and everything cut off on either side is whitespace. */
  function Trim(s: string): (r: string)
    ensures |r| <= |s|
    ensures r == [] || (!IsWhitespace(r[0]) && !IsWhitespace(r[|r| - 1]))
    ensures CutWindow(s, r)
  {
    var t := TrimStart(s);
    var r := TrimEnd(t);
    TrimEnds(t, r);
    TrimWindow(s, t, r);
    r
  }

  /** A front of `t` that ends in no whitespace, where `t` starts with none,
      neither starts nor ends with whitespace. */
  lemma TrimEnds(t: string, r: string)
    requires t == [] || !IsWhitespace(t[0])
    requires |r| <= |t| && r == t[..|r|] && (r == [] || !IsWhitespace(r[|r| - 1]))
    ensures r == [] || (!IsWhitespace(r[0]) && !IsWhitespace(r[|r| - 1]))
  {
    assert r == [] || r[0] == t[0];
  }

  /** Cutting whitespace off the front and then off the back leaves a window
      of the original with whitespace on both sides. */
  lemma TrimWindow(s: string, t: string, r: string)
    requires |t| <= |s| && t == s[|s| - |t|..] && AllWhitespace(s[..|s| - |t|])
    requires |r| <= |t| && r == t[..|r|] && AllWhitespace(t[|r|..])
    ensures CutWindow(s, r)
  {
    var a := |s| - |t|;
    assert r == s[a..a + |r|];
    assert s[a + |r|..] == t[|r|..];
  }

  lemma {:induction false} TrimStartEmptyIff(s: string)
    ensures TrimStart(s) == [] <==> AllWhitespace(s)
    decreases |s|
  {
    if |s| > 0 && IsWhitespace(s[0]) {
      TrimStartEmptyIff(s[1..]);
      assert AllWhitespace(s[1..]) <==> AllWhitespace(s) by {
        if AllWhitespace(s[1..]) {
          forall i | 0 <= i < |s| ensures IsWhitespace(s[i]) {
            if i > 0 { assert s[i] == s[1..][i - 1]; }
          }
        }
      }
    }
  }

  lemma {:induction false} TrimEndEmptyIff(s: string)
    ensures TrimEnd(s) == [] <==> AllWhitespace(s)
    decreases |s|
  {
    if |s| > 0 && IsWhitespace(s[|s| - 1]) {
      TrimEndEmptyIff(s[..|s| - 1]);
      assert AllWhitespace(s[..|s| - 1]) <==> AllWhitespace(s) by {
        if AllWhitespace(s[..|s| - 1]) {
          forall i | 0 <= i < |s| ensures IsWhitespace(s[i]) {
            if i < |s| - 1 { assert s[i] == s[..|s| - 1][i]; }
          }
        }
      }
    }
  }

  /** `s.trim() === ''` holds exactly when `s` consists of whitespace only. */
  lemma TrimEmptyIff(s: string)
    ensures Trim(s) == [] <==> AllWhitespace(s)
  {
    TrimStartEmptyIff(s);
    var t := TrimStart(s);
    TrimEndEmptyIff(t);
    assert t == [] || !AllWhitespace(t);
  }

  // ---------------------------------------------------------------------------
  // Lexicographic order (`a < b` on strings)
  // ---------------------------------------------------------------------------

  /** `a < b` for JavaScript strings: the first differing character decides;
      a proper prefix is smaller. */
  predicate Less(a: string, b: string)
    decreases |a|
  {
    if |a| == 0 then |b| > 0
    else if |b| == 0 then false
    else if a[0] != b[0] then a[0] < b[0]
    else Less(a[1..], b[1..])
  }

  /** `a` is a proper prefix of `b`. */
  ghost predicate ProperPrefix(a: string, b: string) {
    |a| < |b| && a == b[..|a|]
  }

  /** `a` and `b` agree before position `k` and `a` is smaller there. */
  ghost predicate SmallerAt(a: string, b: string, k: int) {
    0 <= k < |a| && k < |b| && a[..k] == b[..k] && a[k] < b[k]
  }

  /** `Less` by its declarative meaning: `a` is a proper prefix of `b`, or
      at the first position where they differ `a` has the smaller
      character. */
  lemma {:induction false} LessIffFirstDifference(a: string, b: string)
    ensures Less(a, b) <==> ProperPrefix(a, b) || exists k :: SmallerAt(a, b, k)
    decreases |a|
  {
    if |a| > 0 && |b| > 0 {
      if a[0] != b[0] {
        if a[0] < b[0] {
          assert SmallerAt(a, b, 0);
        } else {
          assert |a| < |b| ==> b[..|a|][0] == b[0];
          forall k | 0 < k <= |a| && k <= |b| ensures a[..k] != b[..k] {
            assert a[..k][0] == a[0] && b[..k][0] == b[0];
          }
        }
      } else {
        LessIffFirstDifference(a[1..], b[1..]);
        ShiftPrefix(a, b);
        ShiftSmaller(a, b);
      }
    }
  }

  /** With equal first characters, being a proper prefix is decided by the
      tails. */
  lemma ShiftPrefix(a: string, b: string)
    requires |a| > 0 && |b| > 0 && a[0] == b[0]
    ensures ProperPrefix(a, b) <==> ProperPrefix(a[1..], b[1..])
  {
    if ProperPrefix(a[1..], b[1..]) {
      assert a == [a[0]] + a[1..] && b[..|a|] == [b[0]] + b[1..][..|a| - 1];
    }
  }

  /** With equal first characters, a first smaller position moves one place
      along the tails. */
  lemma ShiftSmaller(a: string, b: string)
    requires |a| > 0 && |b| > 0 && a[0] == b[0]
    ensures (exists k :: SmallerAt(a, b, k)) <==> exists k :: SmallerAt(a[1..], b[1..], k)
  {
    if exists k :: SmallerAt(a[1..], b[1..], k) {
      var k :| SmallerAt(a[1..], b[1..], k);
      assert a[..k + 1] == [a[0]] + a[1..][..k] && b[..k + 1] == [b[0]] + b[1..][..k];
      assert SmallerAt(a, b, k + 1);
    }
    if exists k :: SmallerAt(a, b, k) {
      var k :| SmallerAt(a, b, k);
      assert k > 0;
      assert a[1..][..k - 1] == a[..k][1..] && b[1..][..k - 1] == b[..k][1..];
      assert SmallerAt(a[1..], b[1..], k - 1);
    }
  }

  lemma {:induction false} LessIrreflexive(a: string)
    ensures !Less(a, a)
    decreases |a|
  {
    if |a| > 0 {
      LessIrreflexive(a[1..]);
    }
  }

  lemma {:induction false} LessAsymmetric(a: string, b: string)
    ensures Less(a, b) ==> !Less(b, a)
    decreases |a|
  {
    if |a| > 0 && |b| > 0 && a[0] == b[0] {
      LessAsymmetric(a[1..], b[1..]);
    }
  }

  lemma {:induction false} LessTransitive(a: string, b: string, c: string)
    requires Less(a, b) && Less(b, c)
    ensures Less(a, c)
    decreases |a|
  {
    if |a| > 0 && a[0] == b[0] && b[0] == c[0] {
      LessTransitive(a[1..], b[1..], c[1..]);
    }
  }

  /** Any two strings are equal or ordered one way or the other. */
  lemma {:induction false} LessTrichotomy(a: string, b: string)
    ensures Less(a, b) || a == b || Less(b, a)
    decreases |a|
  {
    if |a| > 0 && |b| > 0 && a[0] == b[0] {
      LessTrichotomy(a[1..], b[1..]);
      if a[1..] == b[1..] {
        assert a == [a[0]] + a[1..] && b == [b[0]] + b[1..];
      }
    }
  }
}
