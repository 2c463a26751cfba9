/** The string operations of the Go standard library that the cookie and profile code uses. */
module Text {

  /** White space in the sense of Unicode. */
  predicate IsSpace(c: char) {
    || '\t' <= c <= '\r' || c == ' ' || c == '\U{0085}' || c == '\U{00A0}' || c == '\U{1680}'
    || '\U{2000}' <= c <= '\U{200A}' || c == '\U{2028}' || c == '\U{2029}' || c == '\U{202F}'
    || c == '\U{205F}' || c == '\U{3000}'
  }

  function TrimLeft(s: string): (r: string)
    ensures forall c :: c in r ==> c in s
  {
    if s != "" && IsSpace(s[0]) then TrimLeft(s[1..]) else s
  }

  function TrimRight(s: string): (r: string)
    ensures forall c :: c in r ==> c in s
    ensures r <= s
  {
    if s != "" && IsSpace(s[|s| - 1]) then TrimRight(s[..|s| - 1]) else s
  }

  function TrimSpace(s: string): string { TrimRight(TrimLeft(s)) }

  predicate Trimmed(s: string) { s == "" || (!IsSpace(s[0]) && !IsSpace(s[|s| - 1])) }

  lemma {:induction false} TrimLeftStartsSolid(s: string)
    ensures TrimLeft(s) == "" || !IsSpace(TrimLeft(s)[0])
  {
    if s != "" && IsSpace(s[0]) { TrimLeftStartsSolid(s[1..]); }
  }

  lemma {:induction false} TrimRightEndsSolid(s: string)
    ensures TrimRight(s) == "" || !IsSpace(TrimRight(s)[|TrimRight(s)| - 1])
  {
    if s != "" && IsSpace(s[|s| - 1]) { TrimRightEndsSolid(s[..|s| - 1]); }
  }

  /** Trimming yields trimmed text made of characters of the original, and leaves trimmed text alone. */
  lemma TrimSpaceTrims(s: string)
    ensures Trimmed(TrimSpace(s))
    ensures forall c :: c in TrimSpace(s) ==> c in s
    ensures Trimmed(s) ==> TrimSpace(s) == s
  {
    TrimLeftStartsSolid(s);
    TrimRightEndsSolid(TrimLeft(s));
  }

  /** Only white space at the two ends is trimmed away. */
  ghost predicate TrimmedFrom(s: string, i: nat, j: nat) {
    i <= j <= |s| && forall k :: 0 <= k < i || j <= k < |s| ==> IsSpace(s[k])
  }

  lemma {:induction false} TrimLeftCuts(s: string) returns (i: nat)
    ensures i <= |s| && TrimLeft(s) == s[i..] && forall k :: 0 <= k < i ==> IsSpace(s[k])
  {
    i := 0;
    if s != "" && IsSpace(s[0]) {
      i := TrimLeftCuts(s[1..]);
      i := i + 1;
      assert forall k :: 1 <= k < i ==> s[k] == s[1..][k - 1];
    }
  }

  lemma {:induction false} TrimRightCuts(s: string) returns (j: nat)
    ensures j <= |s| && TrimRight(s) == s[..j] && forall k :: j <= k < |s| ==> IsSpace(s[k])
  {
    j := |s|;
    if s != "" && IsSpace(s[|s| - 1]) {
      var front := s[..|s| - 1];
      j := TrimRightCuts(front);
      assert forall k :: j <= k < |front| ==> s[k] == front[k];
    }
  }

  /** What trimming leaves is the original from the first to the last character that is no white space. */
  lemma TrimSpaceCuts(s: string) returns (i: nat, j: nat)
    ensures TrimmedFrom(s, i, j) && TrimSpace(s) == s[i..j] && Trimmed(s[i..j])
  {
    TrimSpaceTrims(s);
    i := TrimLeftCuts(s);
    j := TrimRightCuts(s[i..]);
    assert forall k :: i + j <= k < |s| ==> s[k] == s[i..][k - i];
    j := i + j;
  }

  /** The pieces between the separators; there is always at least one. */
  function Split(s: string, sep: char): (parts: seq<string>)
    ensures parts != []
  {
    if s == "" then [""]
    else
      var rest := Split(s[1..], sep);
      if s[0] == sep then [""] + rest else [[s[0]] + rest[0]] + rest[1..]
  }

  lemma {:induction false} SplitWithoutSeparator(s: string, sep: char)
    requires sep !in s
    ensures Split(s, sep) == [s]
  {
    if s != "" {
      SplitWithoutSeparator(s[1..], sep);
      assert s == [s[0]] + s[1..];
    }
  }

  lemma {:induction false} SplitParts(s: string, sep: char)
    ensures forall i :: 0 <= i < |Split(s, sep)| ==> sep !in Split(s, sep)[i]
  {
    if s != "" { SplitParts(s[1..], sep); }
  }

  lemma {:induction false} SplitAppend(a: string, b: string, sep: char)
    requires sep !in b
    ensures Split(a + [sep] + b, sep) == Split(a, sep) + [b]
  {
    if a == "" {
      assert a + [sep] + b == [sep] + b;
      assert ([sep] + b)[1..] == b;
      SplitWithoutSeparator(b, sep);
    } else {
      SplitAppend(a[1..], b, sep);
      var whole := a + [sep] + b;
      assert whole[0] == a[0] && whole[1..] == a[1..] + [sep] + b;
    }
  }

  /** Everything before the first separator, everything after it, and whether there is one. */
  function Cut(s: string, sep: char): (r: (string, string, bool))
    ensures r.2 ==> s == r.0 + [sep] + r.1 && sep !in r.0
    ensures !r.2 ==> sep !in s
  {
    if s == "" then ("", "", false)
    else if s[0] == sep then ("", s[1..], true)
    else
      var (before, after, found) := Cut(s[1..], sep);
      ([s[0]] + before, after, found)
  }

  lemma {:induction false} CutAtFirst(before: string, after: string, sep: char)
    requires sep !in before
    ensures Cut(before + [sep] + after, sep) == (before, after, true)
  {
    var whole := before + [sep] + after;
    if before == "" {
      assert whole == [sep] + after;
    } else {
      CutAtFirst(before[1..], after, sep);
      assert whole[0] == before[0] && whole[1..] == before[1..] + [sep] + after;
      assert [before[0]] + before[1..] == before;
    }
  }

  /** Lexicographic order, by code point. */
  predicate LexLess(a: string, b: string) {
    if b == "" then false
    else if a == "" then true
    else a[0] < b[0] || (a[0] == b[0] && LexLess(a[1..], b[1..]))
  }

  lemma {:induction false} LexLessTotal(a: string, b: string)
    ensures LexLess(a, b) || LexLess(b, a) || a == b
    ensures !(LexLess(a, b) && LexLess(b, a)) && !LexLess(a, a)
    decreases |a|
  {
    if a != "" {
      LexLessTotal(a[1..], a[1..]);
      if b != "" {
        LexLessTotal(a[1..], b[1..]);
        assert a == [a[0]] + a[1..] && b == [b[0]] + b[1..];
      }
    }
  }

  lemma {:induction false} LexLessTransitive(a: string, b: string, c: string)
    requires LexLess(a, b) && LexLess(b, c)
    ensures LexLess(a, c)
    decreases |a|
  {
    if a != "" && a[0] == b[0] && b[0] == c[0] { LexLessTransitive(a[1..], b[1..], c[1..]); }
  }

  /** The order goes by the first character in which two texts differ, a text coming before its extensions. */
  lemma {:induction false} LexLessAtFirstDifference(a: string, b: string, i: nat)
    requires i <= |a| && i <= |b| && a[..i] == b[..i]
    ensures i == |a| < |b| ==> LexLess(a, b)
    ensures i < |a| && i < |b| && a[i] < b[i] ==> LexLess(a, b)
    decreases i
  {
    if i > 0 {
      assert a[0] == a[..i][0] == b[..i][0] == b[0];
      assert a[1..][..i - 1] == a[..i][1..] == b[..i][1..] == b[1..][..i - 1];
      LexLessAtFirstDifference(a[1..], b[1..], i - 1);
    }
  }

  ghost predicate LexSorted(s: seq<string>) {
    forall i, j :: 0 <= i < j < |s| ==> LexLess(s[i], s[j])
  }

  /** A sorted list without repetition is determined by its elements. */
  lemma {:induction false} LexSortedIsUnique(r: seq<string>, s: seq<string>)
    requires LexSorted(r) && LexSorted(s)
    requires forall x :: x in r <==> x in s
    ensures r == s
    decreases |r|
  {
    if r == [] {
      assert forall i :: 0 <= i < |s| ==> s[i] in s;
    } else {
      assert r[0] in s;
      FirstIsLeast(r, s);
      forall x ensures x in r[1..] <==> x in s[1..] {
        TailMembership(r, x);
        TailMembership(s, x);
      }
      LexSortedIsUnique(r[1..], s[1..]);
      assert r == [r[0]] + r[1..] && s == [s[0]] + s[1..];
    }
  }

  lemma FirstIsLeast(r: seq<string>, s: seq<string>)
    requires LexSorted(r) && LexSorted(s) && r != [] && s != []
    requires r[0] in s && s[0] in r
    ensures r[0] == s[0]
  {
    LexLessTotal(r[0], s[0]);
  }

  lemma TailMembership(r: seq<string>, x: string)
    requires LexSorted(r) && r != []
    ensures x in r[1..] <==> x in r && x != r[0]
  {
    LexLessTotal(x, x);
    if x in r && x != r[0] {
      var i :| 0 <= i < |r| && r[i] == x;
      assert r[1..][i - 1] == x;
    }
    if x in r[1..] {
      var i :| 0 <= i < |r[1..]| && r[1..][i] == x;
      assert LexLess(r[0], r[i + 1]);
    }
  }

  /** Inserts a new text into a sorted list. */
  function LexInsert(x: string, s: seq<string>): (r: seq<string>)
    requires LexSorted(s) && x !in s
    ensures LexSorted(r)
    ensures forall y :: y in r <==> y == x || y in s
  {
    if s == [] then [x]
    else
      LexLessTotal(x, s[0]);
      if LexLess(x, s[0]) then
        assert forall j :: 0 <= j < |s| ==> LexLess(x, s[j]) by {
          forall j | 0 < j < |s| ensures LexLess(x, s[j]) { LexLessTransitive(x, s[0], s[j]); }
        }
        [x] + s
      else
        var rest := LexInsert(x, s[1..]);
        assert s == [s[0]] + s[1..];
        assert forall i :: 0 <= i < |rest| ==> rest[i] in rest;
        assert forall i :: 0 <= i < |rest| ==> LexLess(s[0], rest[i]);
        [s[0]] + rest
  }
}
