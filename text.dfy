/** The Python string operations the presence engine applies to the output
    of `bluetoothctl devices` and to combo-box texts: `str.isspace`,
    `str.split()` without a separator, `' '.join`, `str.strip()`,
    `str.replace(c, '')` for one character and `str.replace(pat, '')`. */
module Text {

  /** Python's str.isspace() for one character: the ASCII controls TAB..CR
      and FS..US, the space, and the Unicode separators. */
  predicate IsSpace(c: char) {
    var n := c as int;
    n == 0x20 || 0x09 <= n <= 0x0D || 0x1C <= n <= 0x1F || n == 0x85 || n == 0xA0
    || n == 0x1680 || 0x2000 <= n <= 0x200A || n == 0x2028 || n == 0x2029
    || n == 0x202F || n == 0x205F || n == 0x3000
  }

  /** A word of str.split(): non-empty, without whitespace. */
  predicate IsToken(t: string) {
    t != [] && forall i :: 0 <= i < |t| ==> !IsSpace(t[i])
  }

  /** Every character is whitespace (the empty string included). */
  predicate IsBlank(s: string) {
    forall i :: 0 <= i < |s| ==> IsSpace(s[i])
  }

  /** Length of the longest whitespace-free prefix of s. */
  function TokenLength(s: string): (n: nat)
    ensures n <= |s|
    ensures forall i :: 0 <= i < n ==> !IsSpace(s[i])
    ensures n < |s| ==> IsSpace(s[n])
    ensures n == 0 <==> s == [] || IsSpace(s[0])
  {
    if s == [] || IsSpace(s[0]) then 0 else 1 + TokenLength(s[1..])
  }

  /** str.split(): the maximal runs of non-whitespace, left to right. */
  function Split(s: string): seq<string>
    decreases |s|
  {
    if s == [] then []
    else if IsSpace(s[0]) then Split(s[1..])
    else
      var n := TokenLength(s);
      [s[..n]] + Split(s[n..])
  }

  /** ' '.join(words). */
  function Join(words: seq<string>): string {
    if words == [] then []
    else if |words| == 1 then words[0]
    else words[0] + [' '] + Join(words[1..])
  }

  /** str.lstrip(). */
  function StripLeft(s: string): string {
    if s != [] && IsSpace(s[0]) then StripLeft(s[1..]) else s
  }

  /** str.rstrip(). */
  function StripRight(s: string): string {
    if s != [] && IsSpace(s[|s| - 1]) then StripRight(s[..|s| - 1]) else s
  }

  /** str.strip(). */
  function Strip(s: string): string {
    StripRight(StripLeft(s))
  }

  /** str.replace(c, ''): every occurrence of c taken out, order kept. */
  function Remove(s: string, c: char): string {
    if s == [] then []
    else (if s[0] == c then [] else [s[0]]) + Remove(s[1..], c)
  }

  /** pat occurs in s starting at index i. */
  predicate StartsAt(s: string, pat: string, i: nat) {
    i + |pat| <= |s| && s[i..i + |pat|] == pat
  }

  /** pat occurs somewhere in s. */
  predicate Occurs(s: string, pat: string) {
    exists i: nat :: i <= |s| && StartsAt(s, pat, i)
  }

  /** str.replace(pat, ''): the non-overlapping occurrences of pat, found
      left to right, taken out. An empty pattern leaves s as it is. */
  function Delete(s: string, pat: string): (r: string)
    ensures |r| <= |s|
    ensures pat == [] ==> r == s
    decreases |s|
  {
    if pat == [] || |s| < |pat| then s
    else if s[..|pat|] == pat then Delete(s[|pat|..], pat)
    else [s[0]] + Delete(s[1..], pat)
  }

  // ---------------------------------------------------------------------
  // Stripping

  /** lstrip drops the leading whitespace and nothing else. */
  lemma {:induction false} StripLeftDropsLeadingSpace(s: string)
    ensures var r := StripLeft(s);
      |r| <= |s| && r == s[|s| - |r|..] &&
      (forall i :: 0 <= i < |s| - |r| ==> IsSpace(s[i])) &&
      (r == [] || !IsSpace(r[0]))
    decreases |s|
  {
    if s != [] && IsSpace(s[0]) {
      StripLeftDropsLeadingSpace(s[1..]);
    }
  }

  /** rstrip drops the trailing whitespace and nothing else. */
  lemma {:induction false} StripRightDropsTrailingSpace(s: string)
    ensures var r := StripRight(s);
      |r| <= |s| && r == s[..|r|] &&
      (forall i :: |r| <= i < |s| ==> IsSpace(s[i])) &&
      (r == [] || !IsSpace(r[|r| - 1]))
    decreases |s|
  {
    if s != [] && IsSpace(s[|s| - 1]) {
      StripRightDropsTrailingSpace(s[..|s| - 1]);
    }
  }

  /** strip() yields '' exactly for an all-whitespace string, and otherwise a
      string that starts and ends with a non-whitespace character. */
  lemma StripBlank(s: string)
    ensures Strip(s) == [] <==> IsBlank(s)
    ensures Strip(s) != [] ==> !IsSpace(Strip(s)[0]) && !IsSpace(Strip(s)[|Strip(s)| - 1])
  {
    var l := StripLeft(s);
    var r := StripRight(l);
    StripLeftDropsLeadingSpace(s);
    StripRightDropsTrailingSpace(l);
    var d := |s| - |l|;
    if r == [] {
      BlankWhenStripsToNothing(s, l, d);
    } else {
      assert r[0] == l[0];
      assert s[d] == l[0];
    }
  }

  /** A string whose leading whitespace is s[..d] and whose rest l is all
      whitespace is blank. */
  lemma BlankWhenStripsToNothing(s: string, l: string, d: nat)
    requires d <= |s| && l == s[d..]
    requires forall i :: 0 <= i < d ==> IsSpace(s[i])
    requires forall i :: 0 <= i < |l| ==> IsSpace(l[i])
    ensures IsBlank(s)
  {
    forall i | d <= i < |s| ensures IsSpace(s[i]) {
      assert s[i] == l[i - d];
    }
  }

  /** strip() leaves a string alone that starts and ends with non-whitespace. */
  lemma StripTrimmed(s: string)
    requires s != [] && !IsSpace(s[0]) && !IsSpace(s[|s| - 1])
    ensures Strip(s) == s
  {
  }

  // ---------------------------------------------------------------------
  // Splitting

  /** Every word str.split() returns is a token. */
  lemma {:induction false} SplitTokens(s: string)
    ensures forall i :: 0 <= i < |Split(s)| ==> IsToken(Split(s)[i])
    decreases |s|
  {
    if s == [] {
    } else if IsSpace(s[0]) {
      SplitTokens(s[1..]);
    } else {
      SplitTokens(s[TokenLength(s)..]);
    }
  }

  /** A whitespace character ends the word that starts s. */
  lemma {:induction false} TokenLengthStopsAtSpace(p: string, c: char, q: string)
    requires IsSpace(c)
    ensures TokenLength(p + [c] + q) == TokenLength(p)
    decreases |p|
  {
    var s := p + [c] + q;
    if p != [] && !IsSpace(p[0]) {
      assert s[1..] == p[1..] + [c] + q;
      TokenLengthStopsAtSpace(p[1..], c, q);
    }
  }

  /** Splitting at a whitespace character splits the two sides apart. */
  lemma {:induction false} SplitAtSpace(p: string, c: char, q: string)
    requires IsSpace(c)
    ensures Split(p + [c] + q) == Split(p) + Split(q)
    decreases |p|
  {
    var s := p + [c] + q;
    if p == [] {
      assert s[1..] == q;
    } else if IsSpace(p[0]) {
      assert s[0] == p[0];
      assert s[1..] == p[1..] + [c] + q;
      SplitAtSpace(p[1..], c, q);
    } else {
      SplitAtSpaceWord(p, c, q);
    }
  }

  /** The case of SplitAtSpace where p starts with a word. */
  lemma {:induction false} SplitAtSpaceWord(p: string, c: char, q: string)
    requires IsSpace(c) && p != [] && !IsSpace(p[0])
    ensures Split(p + [c] + q) == Split(p) + Split(q)
    decreases |p|, 0
  {
    var s := p + [c] + q;
    var n := TokenLength(p);
    var w := p[..n];
    assert Split(s) == [w] + Split(p[n..] + [c] + q) by {
      TokenLengthStopsAtSpace(p, c, q);
      assert s[0] == p[0];
      assert s[..n] == w;
      assert s[n..] == p[n..] + [c] + q;
    }
    SplitAtSpace(p[n..], c, q);
    assert [w] + (Split(p[n..]) + Split(q)) == ([w] + Split(p[n..])) + Split(q);
  }

  /** A single word splits into itself. */
  lemma SplitToken(t: string)
    requires IsToken(t)
    ensures Split(t) == [t]
  {
    assert TokenLength(t) == |t|;
    assert t[..|t|] == t;
  }

  /** Splitting undoes ' '.join of words. */
  lemma {:induction false} SplitJoin(words: seq<string>)
    requires forall i :: 0 <= i < |words| ==> IsToken(words[i])
    ensures Split(Join(words)) == words
  {
    if words == [] {
    } else if |words| == 1 {
      SplitToken(words[0]);
    } else {
      SplitAtSpace(words[0], ' ', Join(words[1..]));
      SplitToken(words[0]);
      SplitJoin(words[1..]);
    }
  }

  /** ' '.join of words neither starts nor ends with whitespace. */
  lemma {:induction false} JoinEdges(words: seq<string>)
    requires words != []
    requires forall i :: 0 <= i < |words| ==> IsToken(words[i])
    ensures Join(words) != []
    ensures !IsSpace(Join(words)[0]) && !IsSpace(Join(words)[|Join(words)| - 1])
  {
    if |words| > 1 {
      JoinEdges(words[1..]);
    }
  }

  /** Leading whitespace does not change the words. */
  lemma {:induction false} SplitStripLeft(s: string)
    ensures Split(StripLeft(s)) == Split(s)
    decreases |s|
  {
    if s != [] && IsSpace(s[0]) {
      SplitStripLeft(s[1..]);
    }
  }

  /** Trailing whitespace does not change the words. */
  lemma {:induction false} SplitStripRight(s: string)
    ensures Split(StripRight(s)) == Split(s)
    decreases |s|
  {
    if s != [] && IsSpace(s[|s| - 1]) {
      var init := s[..|s| - 1];
      assert s == init + [s[|s| - 1]] + [];
      SplitAtSpace(init, s[|s| - 1], []);
      SplitStripRight(init);
    }
  }

  /** str.strip() never changes what str.split() returns. */
  lemma SplitStrip(s: string)
    ensures Split(Strip(s)) == Split(s)
  {
    SplitStripLeft(s);
    SplitStripRight(StripLeft(s));
  }

  /** A line is blank for `line.strip() == ''` exactly when it has no words. */
  lemma BlankIffNoWords(s: string)
    ensures Strip(s) == [] <==> Split(s) == []
  {
    SplitStrip(s);
  }

  // ---------------------------------------------------------------------
  // Removing characters and substrings

  /** str.replace(c, '') keeps exactly the characters other than c. */
  lemma {:induction false} RemoveKeepsOthers(s: string, c: char)
    ensures forall x :: x in Remove(s, c) <==> x in s && x != c
  {
    if s != [] {
      RemoveKeepsOthers(s[1..], c);
      assert s == [s[0]] + s[1..];
    }
  }

  /** Removing a character the string does not contain changes nothing. */
  lemma {:induction false} RemoveAbsent(s: string, c: char)
    requires c !in s
    ensures Remove(s, c) == s
  {
    if s != [] {
      assert s[1..] + [] == s[1..];
      RemoveAbsent(s[1..], c);
    }
  }

  /** Removing a character works piecewise on a concatenation. */
  lemma {:induction false} RemoveAppend(a: string, b: string, c: char)
    ensures Remove(a + b, c) == Remove(a, c) + Remove(b, c)
    decreases |a|
  {
    if a == [] {
      assert a + b == b;
    } else {
      assert (a + b)[1..] == a[1..] + b;
      RemoveAppend(a[1..], b, c);
    }
  }

  /** Taking c out of a string with one more character at the end. */
  lemma RemoveSnoc(s: string, x: char, c: char)
    ensures Remove(s + [x], c) == Remove(s, c) + (if x == c then [] else [x])
  {
    RemoveAppend(s, [x], c);
    assert [x][1..] == [];
  }

  /** An occurrence in s[1..] is an occurrence in s one place later. */
  lemma StartsAtShift(s: string, pat: string, i: nat)
    requires s != []
    ensures StartsAt(s[1..], pat, i) <==> StartsAt(s, pat, i + 1)
  {
    if i + |pat| <= |s[1..]| {
      assert s[1..][i..i + |pat|] == s[i + 1..i + 1 + |pat|];
    }
  }

  /** Deleting a pattern keeps a prefix in which no occurrence starts. */
  lemma {:induction false} DeleteKeepsPrefix(p: string, q: string, pat: string)
    requires pat != []
    requires forall i: nat :: i < |p| ==> !StartsAt(p + q, pat, i)
    ensures Delete(p + q, pat) == p + Delete(q, pat)
    decreases |p|
  {
    if p == [] {
      assert p + q == q;
    } else if |p + q| < |pat| {
      assert Delete(q, pat) == q;
    } else {
      DeleteSkipsFirst(p + q, pat);
      NoMatchShift(p, q, pat);
      assert (p + q)[1..] == p[1..] + q;
      DeleteKeepsPrefix(p[1..], q, pat);
      ConsAppend(p, Delete(q, pat));
    }
  }

  /** Putting the first element back in front of the rest. */
  lemma ConsAppend(p: string, d: string)
    requires p != []
    ensures [p[0]] + (p[1..] + d) == p + d
  {
    assert [p[0]] + p[1..] == p;
  }

  /** Where pat does not start s, str.replace keeps the first character. */
  lemma DeleteSkipsFirst(s: string, pat: string)
    requires pat != [] && |pat| <= |s| && !StartsAt(s, pat, 0)
    ensures Delete(s, pat) == [s[0]] + Delete(s[1..], pat)
  {
  }

  /** No occurrence starting inside p + q's first |p| places means none
      starting inside p[1..] + q's first |p| - 1. */
  lemma NoMatchShift(p: string, q: string, pat: string)
    requires p != []
    requires forall i: nat :: i < |p| ==> !StartsAt(p + q, pat, i)
    ensures forall i: nat :: i < |p| - 1 ==> !StartsAt(p[1..] + q, pat, i)
  {
    var s := p + q;
    assert s[1..] == p[1..] + q;
    forall i: nat | i < |p| - 1 ensures !StartsAt(p[1..] + q, pat, i) {
      StartsAtShift(s, pat, i);
    }
  }

  /** Deleting a pattern that the text starts with. */
  lemma DeleteLeadingMatch(q: string, pat: string)
    requires pat != []
    ensures Delete(pat + q, pat) == Delete(q, pat)
  {
    assert (pat + q)[..|pat|] == pat;
    assert (pat + q)[|pat|..] == q;
  }
}
