/** The two library notions of "whitespace" the section parser relies on,
    and Kotlin's `String.trim()`. */
module KotlinText {

  /** `\s` in OpenJDK's `java.util.regex.Pattern` without
      UNICODE_CHARACTER_CLASS: `[ \t\n\x0B\f\r]`. */
  predicate IsPatternSpace(c: char) {
    c == ' ' || c == '\t' || c == '\n' || c == '\U{B}' || c == '\U{C}' || c == '\r'
  }

  /** Kotlin's `Char.isWhitespace()`: Java's `Character.isWhitespace` or
      `Character.isSpaceChar`, i.e. the space, line and paragraph separators
      plus the control characters U+0009..U+000D and U+001C..U+001F. */
  predicate IsWhitespace(c: char) {
    ('\t' <= c <= '\r') || ('\U{1C}' <= c <= ' ') ||
    c == '\U{A0}' || c == '\U{1680}' || ('\U{2000}' <= c <= '\U{200A}') ||
    c == '\U{2028}' || c == '\U{2029}' || c == '\U{202F}' || c == '\U{205F}' || c == '\U{3000}'
  }

  lemma PatternSpaceIsWhitespace(c: char)
    ensures IsPatternSpace(c) ==> IsWhitespace(c)
  {
  }

  predicate AllWhitespace(s: string) {
    forall k :: 0 <= k < |s| ==> IsWhitespace(s[k])
  }

  /** Index of the first character that is not whitespace (`|s|` if none). */
  function TrimStart(s: string): (a: nat)
    ensures a <= |s|
    ensures forall k :: 0 <= k < a ==> IsWhitespace(s[k])
    ensures a < |s| ==> !IsWhitespace(s[a])
  {
    if s != [] && IsWhitespace(s[0]) then 1 + TrimStart(s[1..]) else 0
  }

  /** One past the last character that is not whitespace (0 if none). */
  function TrimEnd(s: string): (b: nat)
    ensures b <= |s|
    ensures forall k :: b <= k < |s| ==> IsWhitespace(s[k])
    ensures 0 < b ==> !IsWhitespace(s[b - 1])
  {
    if s != [] && IsWhitespace(s[|s| - 1]) then TrimEnd(s[..|s| - 1]) else |s|
  }

  /** Kotlin's `String.trim()`: drop leading and trailing whitespace. */
  function Trim(s: string): string {
    var t := s[TrimStart(s)..];
    t[..TrimEnd(t)]
  }

  /** The trimmed text has no whitespace at either end. */
  predicate Trimmed(r: string) {
    r == [] || (!IsWhitespace(r[0]) && !IsWhitespace(r[|r| - 1]))
  }

  /** `Trim` cuts its argument into whitespace `s[..a]`, a trimmed core
      `s[a..b]` and whitespace `s[b..]`, and returns the core. */
  lemma TrimSplits(s: string) returns (a: nat, b: nat)
    ensures a <= b <= |s| && Trim(s) == s[a..b]
    ensures AllWhitespace(s[..a]) && AllWhitespace(s[b..]) && Trimmed(s[a..b])
  {
    a := TrimStart(s);
    var t := s[a..];
    var e := TrimEnd(t);
    b := a + e;
    assert Trim(s) == s[a..b];
    var tail := s[b..];
    assert AllWhitespace(tail) by {
      forall k | 0 <= k < |tail| ensures IsWhitespace(tail[k]) {
        assert tail[k] == t[e + k];
      }
    }
    if e > 0 {
      assert t[0] == Trim(s)[0];
      assert t[e - 1] == Trim(s)[e - 1];
    }
  }

  /** The cut is unique: whatever whitespace surrounds a trimmed core,
      `Trim` returns that core. */
  lemma TrimOfPadded(s: string, x: nat, y: nat)
    requires x <= y <= |s| && AllWhitespace(s[..x]) && AllWhitespace(s[y..]) && Trimmed(s[x..y])
    ensures Trim(s) == s[x..y]
  {
    var a := TrimStart(s);
    forall q | 0 <= q < x ensures IsWhitespace(s[q]) {
      assert s[q] == s[..x][q];
    }
    forall q | y <= q < |s| ensures IsWhitespace(s[q]) {
      assert s[q] == s[y..][q - y];
    }
    if x == y {
      assert a == |s|;
    } else {
      assert s[x] == s[x..y][0];
      assert a == x;
      var t := s[x..];
      assert t[y - x - 1] == s[x..y][y - x - 1];
      assert TrimEnd(t) == y - x;
    }
  }

  lemma WhitespacePrefixGrows(s: string, a: nat, b: nat, a': nat)
    requires a <= b <= |s| && a' <= b - a
    requires AllWhitespace(s[..a]) && AllWhitespace(s[a..b][..a'])
    ensures AllWhitespace(s[..a + a'])
  {
    var w := s[..a + a'];
    forall q | 0 <= q < a + a' ensures IsWhitespace(w[q]) {
      if q < a { assert w[q] == s[..a][q]; } else { assert w[q] == s[a..b][..a'][q - a]; }
    }
  }

  lemma WhitespaceSuffixGrows(s: string, a: nat, b: nat, b': nat)
    requires a <= b <= |s| && b' <= b - a
    requires AllWhitespace(s[a..b][b'..]) && AllWhitespace(s[b..])
    ensures AllWhitespace(s[a + b'..])
  {
    var w := s[a + b'..];
    forall q | 0 <= q < |w| ensures IsWhitespace(w[q]) {
      if a + b' + q < b { assert w[q] == s[a..b][b'..][q]; } else { assert w[q] == s[b..][a + b' + q - b]; }
    }
  }

  /** Dropping trailing whitespace does not change the trimmed text. */
  lemma TrimOfPrefix(s: string, x: nat, u: string)
    requires x <= |s| && u == s[..x] && AllWhitespace(s[x..])
    ensures Trim(u) == Trim(s)
  {
    TrimOfInner(s, 0, x);
    assert s[0..x] == u;
  }

  /** Trimming ignores whitespace already cut off at either end. */
  lemma TrimOfInner(s: string, a: nat, b: nat)
    requires a <= b <= |s| && AllWhitespace(s[..a]) && AllWhitespace(s[b..])
    ensures Trim(s[a..b]) == Trim(s)
  {
    var x, y := InnerCore(s, a, b);
    TrimOfPadded(s, x, y);
  }

  /** Where the trimmed core of `s[a..b]` lies in `s`. */
  lemma InnerCore(s: string, a: nat, b: nat) returns (x: nat, y: nat)
    requires a <= b <= |s| && AllWhitespace(s[..a]) && AllWhitespace(s[b..])
    ensures x <= y <= |s| && Trim(s[a..b]) == s[x..y]
    ensures AllWhitespace(s[..x]) && AllWhitespace(s[y..]) && Trimmed(s[x..y])
  {
    var inner := s[a..b];
    var a', b' := TrimSplits(inner);
    PaddingOfInner(s, a, b, a', b');
    x, y := a + a', a + b';
    var c := inner[a'..b'];
    assert c == s[x..y];
    assert Trim(inner) == c && Trimmed(c);
  }


  /** Whitespace around a piece of `s[a..b]` grows by what lies around `s[a..b]`. */
  lemma PaddingOfInner(s: string, a: nat, b: nat, a': nat, b': nat)
    requires a <= b <= |s| && a' <= b' <= b - a
    requires AllWhitespace(s[..a]) && AllWhitespace(s[b..])
    requires AllWhitespace(s[a..b][..a']) && AllWhitespace(s[a..b][b'..])
    ensures AllWhitespace(s[..a + a']) && AllWhitespace(s[a + b'..])
    ensures s[a..b][a'..b'] == s[a + a'..a + b']
  {
    WhitespacePrefixGrows(s, a, b, a');
    WhitespaceSuffixGrows(s, a, b, b');
    SliceOfSlice(s, a, b, a', b');
  }

  lemma SliceOfSlice(s: string, a: nat, b: nat, a': nat, b': nat)
    requires a <= b <= |s| && a' <= b' <= b - a
    ensures s[a..b][a'..b'] == s[a + a'..a + b']
  {
    forall q | 0 <= q < b' - a' ensures s[a..b][a'..b'][q] == s[a + a' + q] {
    }
  }

  /** Trimming a trimmed text changes nothing. */
  lemma TrimIdempotent(s: string)
    ensures Trim(Trim(s)) == Trim(s)
  {
    var a, b := TrimSplits(s);
    var t := Trim(s);
    assert t[..0] == [] && t[|t|..] == [] && t[0..|t|] == t;
    TrimOfPadded(t, 0, |t|);
  }
}
