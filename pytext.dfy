/** The few Python `str` operations the pipeline relies on, written out so that
    their edge cases are explicit: `isspace`, `strip`, `rstrip(c)`, `in`,
    `endswith` and `split(c)`. `c.join` is defined too, although the program
    never calls it: lemmas use it to state the round trips of `split` and the
    comma-separated shape of a line. */
module PyText {

  /** `str.isspace()` on one character: the set of characters that `str.strip()`
      removes and that `\s` matches in a `re` pattern on `str`. */
  predicate IsSpace(c: char) {
    || ('\t' <= c <= '\r')
    || ('\U{1C}' <= c <= ' ')
    || c == '\U{85}' || c == '\U{A0}' || c == '\U{1680}'
    || ('\U{2000}' <= c <= '\U{200A}')
    || c == '\U{2028}' || c == '\U{2029}' || c == '\U{202F}' || c == '\U{205F}'
    || c == '\U{3000}'
  }

  /** `s.rstrip()`: drops trailing whitespace and nothing else. */
  function TrimRight(s: string): (r: string)
    ensures |r| <= |s|
    decreases |s|
  {
    if |s| > 0 && IsSpace(s[|s| - 1]) then TrimRight(s[..|s| - 1]) else s
  }

  /** `s.rstrip()` keeps a prefix of `s`, drops only whitespace after it, and
      leaves no whitespace at the end. */
  lemma {:induction false} TrimRightSpec(s: string)
    ensures var r := TrimRight(s); r == s[..|r|]
    ensures var r := TrimRight(s); forall k :: |r| <= k < |s| ==> IsSpace(s[k])
    ensures var r := TrimRight(s); r == [] || !IsSpace(r[|r| - 1])
    decreases |s|
  {
    if |s| > 0 && IsSpace(s[|s| - 1]) {
      TrimRightSpec(s[..|s| - 1]);
    }
  }

  /** `s.lstrip()`: drops leading whitespace and nothing else. */
  function TrimLeft(s: string): (r: string)
    ensures |r| <= |s|
    decreases |s|
  {
    if |s| > 0 && IsSpace(s[0]) then TrimLeft(s[1..]) else s
  }

  /** `s.lstrip()` keeps a suffix of `s`, drops only whitespace before it, and
      leaves no whitespace at the start. */
  lemma {:induction false} TrimLeftSpec(s: string)
    ensures var r := TrimLeft(s); r == s[|s| - |r|..]
    ensures var r := TrimLeft(s); forall k :: 0 <= k < |s| - |r| ==> IsSpace(s[k])
    ensures var r := TrimLeft(s); r == [] || !IsSpace(r[0])
    decreases |s|
  {
    if |s| > 0 && IsSpace(s[0]) {
      TrimLeftSpec(s[1..]);
    }
  }

  /** `s.strip()`: the slice of `s` between its leading and its trailing
      whitespace; everything outside the slice is whitespace. */
  function Strip(s: string): (r: string)
    ensures |r| <= |s|
  {
    TrimLeft(TrimRight(s))
  }

  /** `s.strip()` keeps a slice of `s`, removes only whitespace around it, and
      leaves no whitespace at either end. */
  lemma StripSlice(s: string) returns (i: nat)
    ensures i + |Strip(s)| <= |s| && Strip(s) == s[i..i + |Strip(s)|]
    ensures forall k :: 0 <= k < i ==> IsSpace(s[k])
    ensures forall k :: i + |Strip(s)| <= k < |s| ==> IsSpace(s[k])
    ensures var r := Strip(s); r == [] || (!IsSpace(r[0]) && !IsSpace(r[|r| - 1]))
  {
    var t := TrimRight(s);
    var r := TrimLeft(t);
    TrimRightSpec(s);
    TrimLeftSpec(t);
    i := |t| - |r|;
    assert forall k :: 0 <= k < |t| ==> s[k] == t[k];
  }

  /** Text with a non-blank character strips to non-empty text, and when its
      last character is not blank, the stripped text ends with it. */
  lemma StripNonBlank(s: string, k: nat)
    requires k < |s| && !IsSpace(s[k])
    ensures Strip(s) != []
    ensures !IsSpace(s[|s| - 1]) ==> Strip(s)[|Strip(s)| - 1] == s[|s| - 1]
    ensures var r := Strip(s); !IsSpace(r[0]) && !IsSpace(r[|r| - 1])
  {
    var i := StripSlice(s);
  }

  /** `s.rstrip(c)`: drops every trailing occurrence of `c`, not just one. */
  function RStrip(s: string, c: char): (r: string)
    ensures |r| <= |s|
    decreases |s|
  {
    if |s| > 0 && s[|s| - 1] == c then RStrip(s[..|s| - 1], c) else s
  }

  /** `s.rstrip(c)` keeps a prefix of `s`, drops only `c` after it, and leaves
      no `c` at the end. */
  lemma {:induction false} RStripSpec(s: string, c: char)
    ensures var r := RStrip(s, c); r == s[..|r|]
    ensures var r := RStrip(s, c); forall k :: |r| <= k < |s| ==> s[k] == c
    ensures var r := RStrip(s, c); r == [] || r[|r| - 1] != c
    decreases |s|
  {
    if |s| > 0 && s[|s| - 1] == c {
      RStripSpec(s[..|s| - 1], c);
    }
  }

  /** `s.endswith(suffix)`. */
  predicate EndsWith(s: string, suffix: string) {
    |suffix| <= |s| && s[|s| - |suffix|..] == suffix
  }

  /** `s.startswith(prefix)`. */
  predicate StartsWith(s: string, prefix: string) {
    |prefix| <= |s| && s[..|prefix|] == prefix
  }

  /** `sub in s`: some position of `s` starts a copy of `sub`. */
  predicate Contains(s: string, sub: string)
    decreases |s|
  {
    StartsWith(s, sub) || (|s| > 0 && Contains(s[1..], sub))
  }

  lemma {:induction false} ContainsAt(s: string, sub: string, i: nat)
    requires i + |sub| <= |s| && s[i..i + |sub|] == sub
    ensures Contains(s, sub)
    decreases i
  {
    if i > 0 {
      assert s[1..][i - 1..i - 1 + |sub|] == s[i..i + |sub|];
      ContainsAt(s[1..], sub, i - 1);
    }
  }

  lemma {:induction false} ContainsInfix(a: string, sub: string, b: string)
    ensures Contains(a + sub + b, sub)
  {
    var s := a + sub + b;
    assert s[|a|..|a| + |sub|] == sub;
    ContainsAt(s, sub, |a|);
  }

  /** `s.split(sep)` for a one-character separator, read left to right: a
      separator starts a new piece, any other character extends the last
      one. Never an empty list. */
  function Split(s: string, sep: char): (r: seq<string>)
    ensures |r| >= 1
    decreases |s|
  {
    if s == [] then [""]
    else
      var pieces := Split(s[..|s| - 1], sep);
      var c := s[|s| - 1];
      if c == sep then pieces + [""]
      else pieces[..|pieces| - 1] + [pieces[|pieces| - 1] + [c]]
  }

  /** No piece of a split holds the separator. */
  lemma {:induction false} SplitNoSep(s: string, sep: char)
    ensures forall k :: 0 <= k < |Split(s, sep)| ==> sep !in Split(s, sep)[k]
    decreases |s|
  {
    if s != [] {
      var init := s[..|s| - 1];
      var pieces := Split(init, sep);
      SplitNoSep(init, sep);
      var last := pieces[|pieces| - 1];
      assert sep !in last;
    }
  }

  /** `sep.join(pieces)`. */
  function Join(pieces: seq<string>, sep: char): string
    requires |pieces| >= 1
    decreases |pieces|
  {
    if |pieces| == 1 then pieces[0] else Join(pieces[..|pieces| - 1], sep) + [sep] + pieces[|pieces| - 1]
  }

  lemma JoinSnoc(ps: seq<string>, x: string, sep: char)
    requires |ps| >= 1
    ensures Join(ps + [x], sep) == Join(ps, sep) + [sep] + x
  {
    assert (ps + [x])[..|ps|] == ps;
  }

  /** One more character on the last piece is one more character on the
      join. */
  lemma JoinGrowLast(ps: seq<string>, c: char, sep: char)
    requires |ps| >= 1
    ensures Join(ps[..|ps| - 1] + [ps[|ps| - 1] + [c]], sep) == Join(ps, sep) + [c]
  {
    var n := |ps| - 1;
    var qs := ps[..n] + [ps[n] + [c]];
    if n > 0 {
      assert qs[..n] == ps[..n];
      var j := Join(ps[..n], sep);
      assert j + [sep] + (ps[n] + [c]) == (j + [sep] + ps[n]) + [c];
    }
  }

  /** Joining the pieces of a split gives the text back. */
  lemma {:induction false} JoinSplit(s: string, sep: char)
    ensures Join(Split(s, sep), sep) == s
    decreases |s|
  {
    if s != [] {
      var init := s[..|s| - 1];
      var c := s[|s| - 1];
      JoinSplit(init, sep);
      assert s == init + [c];
      if c == sep {
        JoinSnoc(Split(init, sep), "", sep);
      } else {
        JoinGrowLast(Split(init, sep), c, sep);
      }
    }
  }

  /** Text without the separator splits into itself. */
  lemma {:induction false} SplitPlain(b: string, sep: char)
    requires sep !in b
    ensures Split(b, sep) == [b]
    decreases |b|
  {
    if b != [] {
      var init := b[..|b| - 1];
      assert b[|b| - 1] != sep;
      SplitPlain(init, sep);
      assert b == init + [b[|b| - 1]];
    }
  }

  /** The text after the last separator is the last piece. */
  lemma {:induction false} SplitAppend(a: string, b: string, sep: char)
    requires sep !in b
    ensures Split(a + [sep] + b, sep) == Split(a, sep) + [b]
    decreases |b|
  {
    var s := a + [sep] + b;
    if b == [] {
      assert s[..|s| - 1] == a;
    } else {
      var init := b[..|b| - 1];
      var c := b[|b| - 1];
      assert c != sep;
      SplitAppend(a, init, sep);
      assert s[..|s| - 1] == a + [sep] + init;
      var pieces := Split(a, sep) + [init];
      assert pieces[..|pieces| - 1] == Split(a, sep);
      assert b == init + [c];
    }
  }

  /** Splitting a join of separator-free pieces gives the pieces back. */
  lemma {:induction false} SplitJoin(pieces: seq<string>, sep: char)
    requires |pieces| >= 1
    requires forall k :: 0 <= k < |pieces| ==> sep !in pieces[k]
    ensures Split(Join(pieces, sep), sep) == pieces
    decreases |pieces|
  {
    var n := |pieces| - 1;
    if n == 0 {
      SplitPlain(pieces[0], sep);
    } else {
      SplitJoin(pieces[..n], sep);
      SplitAppend(Join(pieces[..n], sep), pieces[n], sep);
      assert pieces == pieces[..n] + [pieces[n]];
    }
  }
}
