/** The string handling the tools use: Python's `str.strip()`,
    `str.split("\n")`, `str.lower()` on media types, `str.startswith` and
    `str.endswith`, and the line cleaning
    `[l.strip() for l in text.split("\n") if l.strip()]`. */
module Text {

  /** The characters Python's `str.isspace()` accepts: the ASCII controls
      9-13 and 28-31, the space, and the Unicode separators and spaces. */
  const WhitespaceChars: set<char> := {
    '\t', '\n', '\U{B}', '\U{C}', '\r', '\U{1C}', '\U{1D}', '\U{1E}', '\U{1F}', ' ',
    '\U{85}', '\U{A0}', '\U{1680}',
    '\U{2000}', '\U{2001}', '\U{2002}', '\U{2003}', '\U{2004}', '\U{2005}',
    '\U{2006}', '\U{2007}', '\U{2008}', '\U{2009}', '\U{200A}',
    '\U{2028}', '\U{2029}', '\U{202F}', '\U{205F}', '\U{3000}'
  }

  predicate IsWhitespace(c: char) {
    c in WhitespaceChars
  }

  predicate AllWhitespace(s: string) {
    forall i :: 0 <= i < |s| ==> IsWhitespace(s[i])
  }

  /** Neither end of `s` is whitespace: what `strip()` leaves behind. */
  predicate IsStripped(s: string) {
    s == [] || (!IsWhitespace(s[0]) && !IsWhitespace(s[|s| - 1]))
  }

  /** `s.strip()`: whitespace is cut from the front, then from the back, until
      neither end is whitespace; it is empty exactly when `s` is all
      whitespace. */
  function Strip(s: string): (r: string)
    ensures IsStripped(r)
    ensures |r| <= |s|
    ensures r == [] <==> AllWhitespace(s)
    decreases |s|
  {
    if s == [] then []
    else if IsWhitespace(s[0]) then
      var t := s[1..];
      assert forall i :: 0 <= i < |t| ==> t[i] == s[i + 1];
      Strip(t)
    else if IsWhitespace(s[|s| - 1]) then
      var t := s[..|s| - 1];
      assert forall i :: 0 <= i < |t| ==> t[i] == s[i];
      Strip(t)
    else s
  }

  lemma AllWhitespaceConcat(x: string, y: string)
    ensures AllWhitespace(x + y) <==> AllWhitespace(x) && AllWhitespace(y)
  {
    assert forall i :: 0 <= i < |x| ==> (x + y)[i] == x[i];
    assert forall i :: 0 <= i < |y| ==> (x + y)[|x| + i] == y[i];
  }

  /** What `strip()` removes: `s` is its result with whitespace on either side. */
  lemma {:induction false} StripFrame(s: string) returns (a: string, b: string)
    ensures AllWhitespace(a) && AllWhitespace(b)
    ensures s == a + Strip(s) + b
    decreases |s|
  {
    if s == [] {
      a, b := [], [];
    } else if IsWhitespace(s[0]) {
      var a', b' := StripFrame(s[1..]);
      a, b := [s[0]] + a', b';
      AllWhitespaceConcat([s[0]], a');
      calc {
        s;
        [s[0]] + s[1..];
        [s[0]] + (a' + Strip(s[1..]) + b');
        a + Strip(s) + b;
      }
    } else if IsWhitespace(s[|s| - 1]) {
      var a', b' := StripFrame(s[..|s| - 1]);
      a, b := a', b' + [s[|s| - 1]];
      AllWhitespaceConcat(b', [s[|s| - 1]]);
      calc {
        s;
        s[..|s| - 1] + [s[|s| - 1]];
        (a' + Strip(s[..|s| - 1]) + b') + [s[|s| - 1]];
        a + Strip(s) + b;
      }
    } else {
      a, b := [], [];
      assert s == [] + s + [];
    }
  }

  /** `strip()` is determined by what it promises: whitespace around a
      stripped middle is exactly what is removed. */
  lemma {:induction false} StripUnique(a: string, m: string, b: string)
    requires AllWhitespace(a) && AllWhitespace(b) && IsStripped(m)
    ensures Strip(a + m + b) == m
    decreases |a| + |b|
  {
    var s := a + m + b;
    if s == [] {
    } else if a != [] {
      assert a == [a[0]] + a[1..];
      AllWhitespaceConcat([a[0]], a[1..]);
      assert s[0] == a[0] && s[1..] == a[1..] + m + b;
      StripUnique(a[1..], m, b);
    } else if m == [] {
      assert b == [b[0]] + b[1..];
      AllWhitespaceConcat([b[0]], b[1..]);
      assert s[0] == b[0] && s[1..] == [] + m + b[1..];
      StripUnique([], m, b[1..]);
    } else if b != [] {
      var n := |b| - 1;
      assert b == b[..n] + [b[n]];
      AllWhitespaceConcat(b[..n], [b[n]]);
      assert s[0] == m[0] && s[|s| - 1] == b[n];
      assert s[..|s| - 1] == a + m + b[..n];
      StripUnique(a, m, b[..n]);
    } else {
      assert s == m;
    }
  }

  /** A stripped text is left as it is. */
  lemma StrippedIsFixed(m: string)
    requires IsStripped(m)
    ensures Strip(m) == m
  {
    StripUnique([], m, []);
    assert [] + m + [] == m;
  }

  /** Stripping twice is stripping once. */
  lemma StripIdempotent(s: string)
    ensures Strip(Strip(s)) == Strip(s)
  {
    StrippedIsFixed(Strip(s));
  }

  /** `s.startswith(p)`. */
  predicate StartsWith(s: string, p: string) {
    |p| <= |s| && s[..|p|] == p
  }

  /** `s.endswith(p)`. */
  predicate EndsWith(s: string, p: string) {
    |p| <= |s| && s[|s| - |p|..] == p
  }

  predicate IsUpper(c: char) {
    'A' <= c <= 'Z'
  }

  function LowerChar(c: char): char {
    if IsUpper(c) then (c as int + 32) as char else c
  }

  /** The ASCII upper-case form of a character, the reference for comparing
      texts without regard to case. */
  function UpperChar(c: char): char {
    if 'a' <= c <= 'z' then (c as int - 32) as char else c
  }

  /** Two texts that differ at most in the case of their ASCII letters. */
  predicate EqualUpToCase(a: string, b: string) {
    |a| == |b| && forall i :: 0 <= i < |a| ==> UpperChar(a[i]) == UpperChar(b[i])
  }

  /** `s.lower()` on the ASCII letters (see README for the non-ASCII case):
      no capital is left, only capitals change, and every character keeps
      its letter. */
  function ToLower(s: string): (r: string)
    ensures |r| == |s|
    ensures forall i :: 0 <= i < |r| ==> !IsUpper(r[i])
    ensures forall i :: 0 <= i < |s| && !IsUpper(s[i]) ==> r[i] == s[i]
    ensures EqualUpToCase(r, s)
  {
    seq(|s|, i requires 0 <= i < |s| => LowerChar(s[i]))
  }

  /** Lowering twice is lowering once. */
  lemma ToLowerIdempotent(s: string)
    ensures ToLower(ToLower(s)) == ToLower(s)
  {
    var t := ToLower(s);
    assert forall i :: 0 <= i < |t| ==> ToLower(t)[i] == t[i];
  }

  /** Two texts lower to the same text exactly when they differ only in the
      case of their letters. */
  lemma ToLowerCaseInsensitive(a: string, b: string)
    ensures ToLower(a) == ToLower(b) <==> EqualUpToCase(a, b)
  {
    if EqualUpToCase(a, b) {
      assert forall i :: 0 <= i < |a| ==> ToLower(a)[i] == ToLower(b)[i];
    }
    if ToLower(a) == ToLower(b) {
      assert forall i :: 0 <= i < |a| ==> UpperChar(a[i]) == UpperChar(ToLower(a)[i]);
    }
  }

  // ---------------------------------------------------------------- lines

  predicate NoNewline(s: string) {
    forall i :: 0 <= i < |s| ==> s[i] != '\n'
  }

  /** `"\n".join(pieces)`. */
  function Join(pieces: seq<string>): string
    requires |pieces| >= 1
  {
    if |pieces| == 1 then pieces[0] else pieces[0] + "\n" + Join(pieces[1..])
  }

  /** `s.split("\n")`: always at least one piece, no piece holds a newline,
      and joining the pieces with newlines gives back `s`. */
  function Split(s: string): (r: seq<string>)
    ensures |r| >= 1
    ensures forall k :: 0 <= k < |r| ==> NoNewline(r[k])
    ensures Join(r) == s
  {
    if s == [] then [""]
    else if s[0] == '\n' then
      var rest := Split(s[1..]);
      assert [""] + rest == [[]] + rest;
      assert ([""] + rest)[1..] == rest;
      assert "" + "\n" + s[1..] == s;
      [""] + rest
    else
      var rest := Split(s[1..]);
      var r := [[s[0]] + rest[0]] + rest[1..];
      assert NoNewline(r[0]) by {
        forall i | 0 <= i < |r[0]| ensures r[0][i] != '\n' {
          if i > 0 { assert r[0][i] == rest[0][i - 1]; }
        }
      }
      assert forall k :: 1 <= k < |r| ==> r[k] == rest[k];
      JoinCons(s[0], rest);
      assert [s[0]] + s[1..] == s;
      r
  }

  lemma {:induction false} JoinCons(c: char, pieces: seq<string>)
    requires |pieces| >= 1
    ensures Join([[c] + pieces[0]] + pieces[1..]) == [c] + Join(pieces)
  {
    var q := [[c] + pieces[0]] + pieces[1..];
    if |pieces| > 1 {
      assert q[1..] == pieces[1..];
    }
  }

  /** The other round trip: splitting a newline join of newline-free pieces
      gives the pieces back. */
  lemma {:induction false} SplitJoin(pieces: seq<string>)
    requires |pieces| >= 1
    requires forall k :: 0 <= k < |pieces| ==> NoNewline(pieces[k])
    ensures Split(Join(pieces)) == pieces
  {
    if |pieces| == 1 {
      SplitNoNewline(pieces[0]);
    } else {
      SplitJoin(pieces[1..]);
      SplitPrefix(pieces[0], Join(pieces[1..]));
      assert [pieces[0]] + pieces[1..] == pieces;
    }
  }

  lemma {:induction false} SplitNoNewline(s: string)
    requires NoNewline(s)
    ensures Split(s) == [s]
  {
    if s != [] {
      SplitNoNewline(s[1..]);
      assert [s[0]] + s[1..] == s;
    }
  }

  lemma {:induction false} SplitPrefix(p: string, t: string)
    requires NoNewline(p)
    ensures Split(p + "\n" + t) == [p] + Split(t)
  {
    if p == [] {
      assert p + "\n" + t == "\n" + t;
      assert ("\n" + t)[1..] == t;
    } else {
      var s := p + "\n" + t;
      assert s[0] == p[0];
      assert s[1..] == p[1..] + "\n" + t;
      SplitPrefix(p[1..], t);
      assert [p[0]] + p[1..] == p;
    }
  }

  /** A newline join is all whitespace exactly when every piece is. */
  lemma {:induction false} JoinAllWhitespace(pieces: seq<string>)
    requires |pieces| >= 1
    ensures AllWhitespace(Join(pieces))
        <==> forall k :: 0 <= k < |pieces| ==> AllWhitespace(pieces[k])
  {
    if |pieces| > 1 {
      JoinAllWhitespace(pieces[1..]);
      var h, t := pieces[0], Join(pieces[1..]);
      var j := h + "\n" + t;
      assert j == Join(pieces);
      assert forall i :: 0 <= i < |h| ==> j[i] == h[i];
      assert j[|h|] == '\n';
      assert forall i :: 0 <= i < |t| ==> j[|h| + 1 + i] == t[i];
      if AllWhitespace(h) && AllWhitespace(t) {
        forall i | 0 <= i < |j| ensures IsWhitespace(j[i]) {
          if i > |h| { assert j[i] == t[i - |h| - 1]; }
        }
      }
      assert forall k :: 1 <= k < |pieces| ==> pieces[k] == pieces[1..][k - 1];
    }
  }

  /** `[l.strip() for l in lines]`. */
  function StripAll(lines: seq<string>): (r: seq<string>)
    ensures |r| == |lines|
    ensures forall i :: 0 <= i < |lines| ==> r[i] == Strip(lines[i])
  {
    seq(|lines|, i requires 0 <= i < |lines| => Strip(lines[i]))
  }

  /** The `if` of the comprehension: keep the non-empty strings, in order. */
  function DropEmpty(xs: seq<string>): (r: seq<string>)
    ensures |r| <= |xs|
    ensures forall k :: 0 <= k < |r| ==> r[k] != []
    ensures r == [] <==> forall i :: 0 <= i < |xs| ==> xs[i] == []
  {
    if xs == [] then []
    else
      var rest := DropEmpty(xs[1..]);
      assert forall i :: 1 <= i < |xs| ==> xs[i] == xs[1..][i - 1];
      if xs[0] != [] then [xs[0]] + rest else rest
  }

  /** The comprehension `[l.strip() for l in lines if l.strip()]`. */
  function Clean(lines: seq<string>): (r: seq<string>)
    ensures |r| <= |lines|
  {
    DropEmpty(StripAll(lines))
  }

  /** Every cleaned item is a non-empty stripped line. */
  lemma CleanItems(lines: seq<string>)
    ensures forall k :: 0 <= k < |Clean(lines)| ==> Clean(lines)[k] != [] && IsStripped(Clean(lines)[k])
  {
    var xs := StripAll(lines);
    KeptLength(xs);
    forall k | 0 <= k < |Clean(lines)| ensures IsStripped(Clean(lines)[k]) {
      DropEmptyAtKept(xs, k);
    }
  }

  /** Nothing is left exactly when every line is blank. */
  lemma CleanEmpty(lines: seq<string>)
    ensures Clean(lines) == [] <==> forall i :: 0 <= i < |lines| ==> AllWhitespace(lines[i])
  {
    var xs := StripAll(lines);
    assert forall i :: 0 <= i < |lines| ==> (xs[i] == [] <==> AllWhitespace(lines[i]));
  }

  function Shift(idx: seq<nat>): (r: seq<nat>)
    ensures |r| == |idx| && forall k :: 0 <= k < |idx| ==> r[k] == idx[k] + 1
  {
    seq(|idx|, k requires 0 <= k < |idx| => idx[k] + 1)
  }

  /** The positions of the strings that `DropEmpty` keeps. */
  function Kept(xs: seq<string>): seq<nat> {
    if xs == [] then []
    else if xs[0] != [] then [0] + Shift(Kept(xs[1..]))
    else Shift(Kept(xs[1..]))
  }

  lemma {:induction false} KeptLength(xs: seq<string>)
    ensures |Kept(xs)| == |DropEmpty(xs)|
  {
    if xs != [] {
      KeptLength(xs[1..]);
    }
  }

  /** Item k of `DropEmpty(xs)` is the string at position `Kept(xs)[k]`. */
  lemma {:induction false} DropEmptyAtKept(xs: seq<string>, k: nat)
    requires k < |Kept(xs)|
    ensures Kept(xs)[k] < |xs| && k < |DropEmpty(xs)|
    ensures DropEmpty(xs)[k] == xs[Kept(xs)[k]]
  {
    var tail := xs[1..];
    var sub := Kept(tail);
    KeptLength(tail);
    if xs[0] != [] {
      if k > 0 {
        DropEmptyAtKept(tail, k - 1);
        assert Kept(xs)[k] == Shift(sub)[k - 1] == sub[k - 1] + 1;
        assert DropEmpty(xs)[k] == DropEmpty(tail)[k - 1];
        assert tail[sub[k - 1]] == xs[sub[k - 1] + 1];
      }
    } else {
      DropEmptyAtKept(tail, k);
      assert Kept(xs)[k] == Shift(sub)[k] == sub[k] + 1;
      assert tail[sub[k]] == xs[sub[k] + 1];
    }
  }

  /** The kept positions are strictly increasing: input order is kept. */
  lemma {:induction false} KeptIncreasing(xs: seq<string>)
    ensures forall k, l :: 0 <= k < l < |Kept(xs)| ==> Kept(xs)[k] < Kept(xs)[l]
  {
    if xs != [] {
      KeptIncreasing(xs[1..]);
    }
  }

  /** Every non-empty string has its position kept: nothing is lost. */
  lemma {:induction false} KeptComplete(xs: seq<string>, i: nat)
    requires i < |xs| && xs[i] != []
    ensures i in Kept(xs)
  {
    if i > 0 {
      var sub := Kept(xs[1..]);
      assert xs[1..][i - 1] == xs[i];
      KeptComplete(xs[1..], i - 1);
      var k :| 0 <= k < |sub| && sub[k] == i - 1;
      assert Shift(sub)[k] == i;
    }
  }

  /** `Clean` returns exactly the stripped non-blank lines, in input order:
      item k is the stripped line at position `Kept(StripAll(lines))[k]`,
      the positions increase, and every line that is not blank is kept. */
  lemma CleanInOrder(lines: seq<string>)
    ensures var idx := Kept(StripAll(lines));
      && |idx| == |Clean(lines)|
      && (forall k :: 0 <= k < |idx| ==> idx[k] < |lines| && Clean(lines)[k] == Strip(lines[idx[k]]))
      && (forall k, l :: 0 <= k < l < |idx| ==> idx[k] < idx[l])
      && (forall i :: 0 <= i < |lines| && !AllWhitespace(lines[i]) ==> i in idx)
  {
    var xs := StripAll(lines);
    KeptLength(xs);
    KeptIncreasing(xs);
    forall k | 0 <= k < |Kept(xs)| ensures Kept(xs)[k] < |lines| && Clean(lines)[k] == Strip(lines[Kept(xs)[k]]) {
      DropEmptyAtKept(xs, k);
    }
    forall i | 0 <= i < |lines| && !AllWhitespace(lines[i]) ensures i in Kept(xs) {
      KeptComplete(xs, i);
    }
  }

  /** The line cleaning shared by the OCR-only path and the LLM path. */
  function CleanLines(text: string): (r: seq<string>)
    ensures |r| <= |Split(text)|
    ensures forall k :: 0 <= k < |r| ==> r[k] != [] && IsStripped(r[k])
    ensures r == [] <==> AllWhitespace(text)
  {
    var lines := Split(text);
    JoinAllWhitespace(lines);
    CleanItems(lines);
    CleanEmpty(lines);
    Clean(lines)
  }
}
