/** Text as the services see it: ASCII characters, whitespace splitting, lower-casing, substrings. */
module Text {

  /** ASCII whitespace in the sense of str.split and str.strip. */
  predicate IsSpace(c: char) {
    9 <= c as int <= 13 || 28 <= c as int <= 32
  }

  predicate NotSpace(c: char) { !IsSpace(c) }

  predicate IsAlnum(c: char) {
    'a' <= c <= 'z' || 'A' <= c <= 'Z' || '0' <= c <= '9'
  }

  function LowerChar(c: char): char {
    if 'A' <= c <= 'Z' then c - 'A' + 'a' else c
  }

  function Lower(s: string): (r: string)
    ensures |r| == |s| && forall i :: 0 <= i < |s| ==> r[i] == LowerChar(s[i])
  {
    seq(|s|, i requires 0 <= i < |s| => LowerChar(s[i]))
  }

  /** Two characters that are the same, or the two cases of one ASCII letter. */
  predicate SameLetter(a: char, b: char) {
    || a == b
    || ('A' <= a <= 'Z' && b as int == a as int + 32)
    || ('A' <= b <= 'Z' && a as int == b as int + 32)
  }

  /** Texts that differ in the case of ASCII letters only. */
  predicate SameButCase(a: string, b: string) {
    |a| == |b| && forall i :: 0 <= i < |a| ==> SameLetter(a[i], b[i])
  }

  predicate HasCapital(s: string) {
    exists c :: c in s && 'A' <= c <= 'Z'
  }

  /** Lower-casing forgets the case of letters and nothing else, and leaves no capital behind. */
  lemma LowerForgetsCase(a: string, b: string)
    ensures Lower(a) == Lower(b) <==> SameButCase(a, b)
    ensures SameButCase(a, Lower(a)) && !HasCapital(Lower(a))
  {
    if Lower(a) == Lower(b) {
      forall i | 0 <= i < |a| ensures SameLetter(a[i], b[i]) { assert Lower(a)[i] == Lower(b)[i]; }
    }
  }

  /** p is a substring of s (Python's `p in s`). */
  predicate Occurs(p: string, s: string) {
    exists i :: 0 <= i <= |s| - |p| && OccursAt(p, s, i)
  }

  predicate OccursAt(p: string, s: string, i: int)
    requires 0 <= i <= |s| - |p|
  {
    s[i..i + |p|] == p
  }

  function Strip(s: string): (r: string)
    decreases |s|
  {
    if s == [] then s
    else if IsSpace(s[0]) then Strip(s[1..])
    else if IsSpace(s[|s| - 1]) then Strip(s[..|s| - 1])
    else s
  }

  /** Neither end is whitespace. */
  predicate IsTrimmed(s: string) {
    s == "" || (!IsSpace(s[0]) && !IsSpace(s[|s| - 1]))
  }

  /** Stripping removes whitespace at both ends, all of it and nothing else. */
  lemma {:induction false} StripMeans(s: string) returns (i: nat, j: nat)
    ensures i <= j <= |s| && Strip(s) == s[i..j] && IsTrimmed(Strip(s))
    ensures forall k :: 0 <= k < i || j <= k < |s| ==> IsSpace(s[k])
    decreases |s|
  {
    i, j := 0, |s|;
    if s != "" && IsSpace(s[0]) {
      var i', j' := StripMeans(s[1..]);
      i, j := i' + 1, j' + 1;
      SliceOfRest(s, i', j');
      forall k | 0 <= k < i || j <= k < |s| ensures IsSpace(s[k]) { if k > 0 { assert s[k] == s[1..][k - 1]; } }
    } else if s != "" && IsSpace(s[|s| - 1]) {
      i, j := StripMeans(s[..|s| - 1]);
      assert s[i..j] == s[..|s| - 1][i..j];
    }
  }

  lemma SliceOfRest(s: string, i: nat, j: nat)
    requires i <= j < |s|
    ensures s[1..][i..j] == s[i + 1..j + 1]
  {}

  /** r is s, cut off after max characters. */
  predicate IsShortened(s: string, max: nat, r: string) {
    r <= s && |r| == if |s| <= max then |s| else max
  }

  // ---- Maximal runs and whitespace normalisation ------------------------------------------------

  /** Length of the longest prefix whose characters all satisfy keep. */
  function RunLength(s: string, keep: char -> bool): (n: nat)
    ensures n <= |s| && (forall i :: 0 <= i < n ==> keep(s[i])) && (n < |s| ==> !keep(s[n]))
  {
    if s == [] || !keep(s[0]) then 0 else 1 + RunLength(s[1..], keep)
  }

  lemma {:induction false} RunLengthIs(s: string, keep: char -> bool, n: nat)
    requires n <= |s| && (forall i :: 0 <= i < n ==> keep(s[i])) && (n < |s| ==> !keep(s[n]))
    ensures RunLength(s, keep) == n
  {
    if n > 0 { RunLengthIs(s[1..], keep, n - 1); }
  }

  predicate IsRun(w: string, keep: char -> bool) {
    w != [] && forall i :: 0 <= i < |w| ==> keep(w[i])
  }

  /** The maximal runs of characters that satisfy keep, in order. */
  function Runs(s: string, keep: char -> bool): (ws: seq<string>)
    ensures forall w :: w in ws ==> IsRun(w, keep)
    decreases |s|
  {
    if s == [] then []
    else if !keep(s[0]) then Runs(s[1..], keep)
    else
      var n := RunLength(s, keep);
      assert n > 0;
      [s[..n]] + Runs(s[n..], keep)
  }

  /** re.findall("[a-zA-Z0-9]+", s.lower()) */
  function Words(s: string): seq<string> { Runs(Lower(s), IsAlnum) }

  function Split(s: string): seq<string> { Runs(s, NotSpace) }

  function Join(ws: seq<string>): string {
    if |ws| == 0 then "" else if |ws| == 1 then ws[0] else ws[0] + " " + Join(ws[1..])
  }

  /** " ".join(text.split()) */
  function Normalize(s: string): string { Join(Split(s)) }

  lemma {:induction false} RunThenBreak(w: string, rest: string, keep: char -> bool)
    requires IsRun(w, keep) && (rest == [] || !keep(rest[0]))
    ensures Runs(w + rest, keep) == [w] + Runs(rest, keep)
  {
    var s := w + rest;
    RunLengthIs(s, keep, |w|);
    assert s[..|w|] == w && s[|w|..] == rest;
  }

  /** w stands at position i of s and could not be longer on either side. */
  ghost predicate IsMaximalAt(s: string, keep: char -> bool, w: string, i: nat) {
    && i + |w| <= |s| && (forall j :: 0 <= j < |w| ==> w[j] == s[i + j])
    && (i > 0 ==> !keep(s[i - 1])) && (i + |w| < |s| ==> !keep(s[i + |w|]))
  }

  ghost predicate HasMaximal(s: string, keep: char -> bool, w: string) {
    exists i: nat :: IsMaximalAt(s, keep, w, i)
  }

  /** The runs are exactly the maximal stretches of characters that satisfy keep. */
  lemma {:induction false} RunsIff(s: string, keep: char -> bool, w: string)
    ensures w in Runs(s, keep) <==> IsRun(w, keep) && HasMaximal(s, keep, w)
    decreases |s|
  {
    if s != [] && IsRun(w, keep) {
      if keep(s[0]) {
        var n := RunLength(s, keep);
        assert n > 0 && Runs(s, keep) == [s[..n]] + Runs(s[n..], keep);
        RunsIff(s[n..], keep, w);
        MaximalAfterRun(s, keep, w, n);
      } else {
        RunsIff(s[1..], keep, w);
        MaximalAfterBreak(s, keep, w);
      }
    }
  }

  lemma MaximalAfterBreak(s: string, keep: char -> bool, w: string)
    requires s != [] && !keep(s[0]) && IsRun(w, keep)
    ensures HasMaximal(s, keep, w) <==> HasMaximal(s[1..], keep, w)
  {
    if i: nat :| IsMaximalAt(s, keep, w, i) {
      assert w[0] == s[i];
      MaximalLater(s, keep, w, 1, i - 1);
    }
    if i: nat :| IsMaximalAt(s[1..], keep, w, i) { MaximalLater(s, keep, w, 1, i); }
  }

  /** Behind a place that a run cannot cross, the maximal stretches are those of the rest. */
  lemma MaximalLater(s: string, keep: char -> bool, w: string, n: nat, i: nat)
    requires 0 < n <= |s| && (i == 0 ==> !keep(s[n - 1]))
    ensures IsMaximalAt(s[n..], keep, w, i) <==> IsMaximalAt(s, keep, w, n + i)
  {
    var rest := s[n..];
    assert forall j :: 0 <= j < |rest| ==> rest[j] == s[n + j];
    if IsMaximalAt(s, keep, w, n + i) {
      forall j | 0 <= j < |w| ensures w[j] == rest[i + j] { assert w[j] == s[n + i + j]; }
    }
  }

  lemma MaximalAfterRun(s: string, keep: char -> bool, w: string, n: nat)
    requires 0 < n <= |s| && (forall i :: 0 <= i < n ==> keep(s[i])) && (n < |s| ==> !keep(s[n])) && IsRun(w, keep)
    ensures HasMaximal(s, keep, w) <==> w == s[..n] || HasMaximal(s[n..], keep, w)
  {
    if i: nat :| IsMaximalAt(s, keep, w, i) {
      assert w[0] == s[i];
      if i < n { FirstRun(s, keep, w, n, i); } else { MaximalLater(s, keep, w, n, i - n); }
    }
    if w == s[..n] { assert IsMaximalAt(s, keep, w, 0); }
    if i: nat :| IsMaximalAt(s[n..], keep, w, i) {
      assert w[0] == s[n..][i];
      MaximalLater(s, keep, w, n, i);
    }
  }

  lemma FirstRun(s: string, keep: char -> bool, w: string, n: nat, i: nat)
    requires i < n <= |s| && (forall k :: 0 <= k < n ==> keep(s[k])) && (n < |s| ==> !keep(s[n]))
    requires IsRun(w, keep) && IsMaximalAt(s, keep, w, i)
    ensures w == s[..n]
  {
    assert i == 0;
    assert forall j :: 0 <= j < |w| ==> keep(w[j]) && w[j] == s[j];
  }

  /** Joining words and splitting again gives the words back. */
  lemma {:induction false} SplitJoin(ws: seq<string>)
    requires forall w :: w in ws ==> IsRun(w, NotSpace)
    ensures Split(Join(ws)) == ws
  {
    if |ws| == 1 {
      RunThenBreak(ws[0], "", NotSpace);
      assert ws[0] + "" == ws[0];
    } else if |ws| > 1 {
      var rest := " " + Join(ws[1..]);
      assert Join(ws) == ws[0] + rest && rest[1..] == Join(ws[1..]);
      RunThenBreak(ws[0], rest, NotSpace);
      SplitJoin(ws[1..]);
    }
  }

  lemma NormalizeIsIdempotent(s: string)
    ensures Normalize(Normalize(s)) == Normalize(s)
  {
    SplitJoin(Split(s));
  }

  /** The only whitespace left is single spaces between words. */
  ghost predicate IsSqueezed(s: string) {
    forall i :: 0 <= i < |s| && IsSpace(s[i]) ==>
      s[i] == ' ' && 0 < i < |s| - 1 && !IsSpace(s[i + 1]) && !IsSpace(s[i - 1])
  }

  /** Normalisation squeezes whitespace, keeps every other character in order, and is the identity
      on text that is squeezed already: three facts that together determine it. */
  lemma NormalizeSqueezes(s: string)
    ensures IsSqueezed(Normalize(s))
    ensures Letters(Normalize(s)) == Letters(s)
    ensures IsSqueezed(s) ==> Normalize(s) == s
  {
    JoinIsSqueezed(Split(s));
    SplitKeepsLetters(s);
    if IsSqueezed(s) { SqueezedIsFixed(s); }
  }

  /** The characters of s that are not whitespace. */
  function Letters(s: string): string {
    if s == [] then "" else (if IsSpace(s[0]) then "" else [s[0]]) + Letters(s[1..])
  }

  lemma {:induction false} LettersOfConcat(a: string, b: string)
    ensures Letters(a + b) == Letters(a) + Letters(b)
  {
    if a == [] {
      assert a + b == b;
    } else {
      LettersOfConcat(a[1..], b);
      var first := if IsSpace(a[0]) then "" else [a[0]];
      assert (a + b)[0] == a[0] && (a + b)[1..] == a[1..] + b;
      assert first + (Letters(a[1..]) + Letters(b)) == (first + Letters(a[1..])) + Letters(b);
    }
  }

  lemma {:induction false} LettersOfRun(w: string)
    requires forall i :: 0 <= i < |w| ==> !IsSpace(w[i])
    ensures Letters(w) == w
  {
    if w != [] { LettersOfRun(w[1..]); }
  }

  lemma {:induction false} JoinIsSqueezed(ws: seq<string>)
    requires forall w :: w in ws ==> IsRun(w, NotSpace)
    ensures IsSqueezed(Join(ws))
    ensures ws != [] ==> Join(ws) != [] && !IsSpace(Join(ws)[0])
  {
    if |ws| > 0 { assert IsRun(ws[0], NotSpace); }
    if |ws| > 1 { JoinIsSqueezed(ws[1..]); }
  }

  lemma {:induction false} SplitKeepsLetters(s: string)
    ensures Letters(Join(Split(s))) == Letters(s)
    decreases |s|
  {
    if s != [] && IsSpace(s[0]) {
      SplitKeepsLetters(s[1..]);
    } else if s != [] {
      var n := RunLength(s, NotSpace);
      var ws := Split(s[n..]);
      SplitKeepsLetters(s[n..]);
      assert s == s[..n] + s[n..];
      LettersOfConcat(s[..n], s[n..]);
      LettersOfConcat(s[..n], " " + Join(ws));
      LettersOfConcat(" ", Join(ws));
      assert Split(s) == [s[..n]] + ws;
      if ws != [] { assert Join(Split(s)) == s[..n] + (" " + Join(ws)); } else { LettersOfRun(s[..n]); }
    }
  }

  lemma {:induction false} SqueezedIsFixed(s: string)
    requires IsSqueezed(s)
    ensures Join(Split(s)) == s
    decreases |s|
  {
    if s != [] {
      var n := RunLength(s, NotSpace);
      assert n > 0 by { assert !IsSpace(s[0]); }
      if n == |s| {
        assert s[..n] == s && Runs(s[n..], NotSpace) == [];
        assert Split(s) == [s[..n]] + Runs(s[n..], NotSpace);
      } else {
        var t := s[n + 1..];
        assert s[n] == ' ' && t != [];
        forall i | 0 <= i < |t| && IsSpace(t[i])
          ensures t[i] == ' ' && 0 < i < |t| - 1 && !IsSpace(t[i + 1]) && !IsSpace(t[i - 1])
        {
          assert t[i] == s[n + 1 + i];
          assert i > 0 ==> t[i - 1] == s[n + i];
        }
        SqueezedIsFixed(t);
        assert s[n..][1..] == t && Split(s[n..]) == Split(t);
        assert s == s[..n] + " " + t;
      }
    }
  }

  // ---- Concatenation ----------------------------------------------------------------------------

  lemma Assoc<T>(a: seq<T>, b: seq<T>, c: seq<T>)
    ensures (a + b) + c == a + (b + c)
  {}

  // ---- Searching for one character --------------------------------------------------------------

  /** Position of the first c, or the length of s. */
  function IndexOf(s: string, c: char): (i: nat)
    ensures i <= |s| && c !in s[..i] && (i < |s| ==> s[i] == c)
  {
    if s == [] || s[0] == c then 0 else 1 + IndexOf(s[1..], c)
  }

  /** The first c ends the part before it: splitting there is the inverse of joining with it. */
  lemma {:induction false} IndexOfJoin(a: string, c: char, b: string)
    requires c !in a
    ensures IndexOf(a + [c] + b, c) == |a|
    ensures (a + [c] + b)[..|a|] == a && (a + [c] + b)[|a| + 1..] == b
  {
    var s := a + [c] + b;
    if a != [] {
      IndexOfJoin(a[1..], c, b);
      assert s[1..] == a[1..] + [c] + b;
    }
  }
}
