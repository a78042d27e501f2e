/** `assemble_influx_lp`: turns measurement lists into newline-terminated lines
    shaped like InfluxDB line protocol, with the program's own escaping rule for
    tags (spaces only; commas, `=` and quotes are left alone). */
module LineProtocol {
  import opened PyText
  import opened Records
  import opened Seqs

  // ---------------------------------------------------------------------------
  // Tag escaping (lines 533-537)
  // ---------------------------------------------------------------------------

  /** `s.replace(' ', '\ ')`: each space becomes a backslash and a space. */
  function EscapeSpaces(s: string): (r: string)
    decreases |s|
  {
    if s == [] then []
    else EscapeSpaces(s[..|s| - 1]) + (if s[|s| - 1] == ' ' then "\\ " else [s[|s| - 1]])
  }

  /** Text without a space is left alone. */
  lemma {:induction false} EscapeSpacesNoSpace(s: string)
    requires ' ' !in s
    ensures EscapeSpaces(s) == s
    decreases |s|
  {
    if s != [] {
      assert s[|s| - 1] != ' ';
      EscapeSpacesNoSpace(s[..|s| - 1]);
    }
  }

  /** Escaping keeps a last character that is not a space. */
  lemma EscapeSpacesLast(s: string)
    requires |s| > 0 && s[|s| - 1] != ' '
    ensures var r := EscapeSpaces(s); |r| > 0 && r[|r| - 1] == s[|s| - 1]
  {
  }

  /** Number of backslash-whitespace pairs of `s` that follow one another from
      position `i` on. */
  function PairRunAt(s: string, i: nat): (n: nat)
    requires i <= |s|
    ensures i + 2 * n <= |s|
    ensures n > 0 ==> IsSpace(s[i + 2 * n - 1])
    decreases |s| - i
  {
    if i + 1 < |s| && s[i] == '\\' && IsSpace(s[i + 1]) then 1 + PairRunAt(s, i + 2) else 0
  }

  /** What `re.sub(r'(\\\s){2,}', "", s)` leaves of `s` from position `i` on:
      a run of two or more backslash-whitespace pairs is deleted whole (the
      repetition is greedy) and the scan resumes after it; at any other
      position one character is kept and the scan moves on by one. */
  function CollapseFrom(s: string, i: nat): (r: string)
    requires i <= |s|
    ensures |r| <= |s| - i
    decreases |s| - i
  {
    if i == |s| then []
    else if PairRunAt(s, i) >= 2 then CollapseFrom(s, i + 2 * PairRunAt(s, i))
    else [s[i]] + CollapseFrom(s, i + 1)
  }

  /** `re.sub(r'(\\\s){2,}', "", s)`. */
  function CollapseRuns(s: string): string {
    CollapseFrom(s, 0)
  }

  /** `s.replace('\ ', '')`. */
  function RemoveEscapedSpaces(s: string): (r: string)
    ensures |r| <= |s|
    decreases |s|
  {
    if s == [] then []
    else if |s| >= 2 && s[0] == '\\' && s[1] == ' ' then RemoveEscapedSpaces(s[2..])
    else [s[0]] + RemoveEscapedSpaces(s[1..])
  }

  /** The text one tag contributes to a line, step by step as lines 533-537
      compute it, including the branch for a result that ends in `\ `. */
  function EscapeTag(name: string, value: string): string {
    var tagKey := EscapeSpaces(Strip(name + "=" + value));
    var nonSpace := CollapseRuns(tagKey);
    if EndsWith(nonSpace, "\\ ") then RemoveEscapedSpaces(nonSpace) else nonSpace
  }

  /** The substitution never removes a last character that is not blank. */
  lemma {:induction false} CollapseKeepsLast(s: string, i: nat)
    requires i < |s| && !IsSpace(s[|s| - 1])
    ensures var r := CollapseFrom(s, i); |r| > 0 && r[|r| - 1] == s[|s| - 1]
    decreases |s| - i
  {
    var n := PairRunAt(s, i);
    if n >= 2 {
      CollapseKeepsLast(s, i + 2 * n);
    } else if i + 1 < |s| {
      CollapseKeepsLast(s, i + 1);
    }
  }

  /** Because of the `strip()`, the escaped text never ends in `\ `, so the
      branch at lines 536-537 is never taken and a tag's text is the
      strip-escape-collapse of `name=value`; it is never empty and ends with
      the last non-blank character of `name=value`. */
  lemma EscapeTagBranchUnreachable(name: string, value: string)
    ensures !EndsWith(CollapseRuns(EscapeSpaces(Strip(name + "=" + value))), "\\ ")
    ensures EscapeTag(name, value) == CollapseRuns(EscapeSpaces(Strip(name + "=" + value)))
    ensures var t := Strip(name + "=" + value);
            var r := EscapeTag(name, value);
            |t| > 0 && |r| > 0 && r[|r| - 1] == t[|t| - 1] && !IsSpace(r[|r| - 1])
  {
    var s := name + "=" + value;
    assert s[|name|] == '=';
    StripNonBlank(s, |name|);
    var t := Strip(s);
    var e := EscapeSpaces(t);
    EscapeSpacesLast(t);
    CollapseKeepsLast(e, 0);
  }

  // ---------------------------------------------------------------------------
  // Runs of spaces inside a tag value
  // ---------------------------------------------------------------------------

  /** Text with no backslash and no whitespace. */
  predicate Plain(s: string) {
    forall k :: 0 <= k < |s| ==> s[k] != '\\' && !IsSpace(s[k])
  }

  /** `k` spaces. */
  function Spaces(k: nat): (r: string)
    ensures |r| == k
  {
    if k == 0 then [] else " " + Spaces(k - 1)
  }

  /** `k` escaped spaces. */
  function EscapedSpaces(k: nat): (r: string)
    ensures |r| == 2 * k
  {
    if k == 0 then [] else "\\ " + EscapedSpaces(k - 1)
  }

  lemma {:induction false} EscapeSpacesAppend(a: string, b: string)
    ensures EscapeSpaces(a + b) == EscapeSpaces(a) + EscapeSpaces(b)
    decreases |b|
  {
    if b == [] {
      assert a + b == a;
    } else {
      var b' := b[..|b| - 1];
      var c := b[|b| - 1];
      var tail := if c == ' ' then "\\ " else [c];
      assert EscapeSpaces(a + b) == EscapeSpaces(a + b') + tail by {
        assert (a + b)[..|a + b| - 1] == a + b';
        assert (a + b)[|a + b| - 1] == c;
      }
      EscapeSpacesAppend(a, b');
      ConcatAssoc(EscapeSpaces(a), EscapeSpaces(b'), tail);
    }
  }

  lemma {:induction false} EscapeSpacesOfSpaces(k: nat)
    ensures EscapeSpaces(Spaces(k)) == EscapedSpaces(k)
  {
    if k > 0 {
      EscapeSpacesOfSpaces(k - 1);
      EscapeSpacesAppend(" ", Spaces(k - 1));
      assert EscapeSpaces(" ") == "\\ ";
    }
  }

  /** A character that is not a backslash is copied by the substitution. */
  lemma CollapseKeep(s: string, i: nat)
    requires i < |s| && s[i] != '\\'
    ensures CollapseFrom(s, i) == [s[i]] + CollapseFrom(s, i + 1)
  {
    assert PairRunAt(s, i) == 0;
  }

  /** A stretch of text without a backslash is copied unchanged by the
      substitution. */
  lemma {:induction false} CollapsePlain(s: string, i: nat, j: nat)
    requires i <= j <= |s|
    requires forall m :: i <= m < j ==> s[m] != '\\'
    ensures CollapseFrom(s, i) == s[i..j] + CollapseFrom(s, j)
    decreases j - i
  {
    if i < j {
      var rest := CollapseFrom(s, i + 1);
      CollapseKeep(s, i);
      CollapsePlain(s, i + 1, j);
      assert s[i..j] == [s[i]] + s[i + 1..j];
      ConcatAssoc([s[i]], s[i + 1..j], CollapseFrom(s, j));
    } else {
      assert s[i..j] + CollapseFrom(s, j) == CollapseFrom(s, j);
    }
  }

  /** Exactly `k` pairs follow one another from `i` on. */
  lemma {:induction false} PairRunOfPairs(s: string, i: nat, k: nat)
    requires i + 2 * k <= |s| && s[i..i + 2 * k] == EscapedSpaces(k)
    requires i + 2 * k == |s| || s[i + 2 * k] != '\\'
    ensures PairRunAt(s, i) == k
    decreases k
  {
    if k > 0 {
      var es := EscapedSpaces(k);
      assert s[i] == es[0] && s[i + 1] == es[1];
      assert s[i + 2..i + 2 * k] == es[2..];
      PairRunOfPairs(s, i + 2, k - 1);
    }
  }

  /** Text that neither starts nor ends with whitespace is its own strip. */
  lemma StripUnblank(s: string)
    requires s != [] && !IsSpace(s[0]) && !IsSpace(s[|s| - 1])
    ensures Strip(s) == s
  {
    assert TrimRight(s) == s;
  }

  /** Escaping a run of spaces between two stretches with no space. */
  lemma EscapeSpacesRun(p: string, k: nat, b: string)
    requires ' ' !in p && ' ' !in b
    ensures EscapeSpaces(p + Spaces(k) + b) == p + EscapedSpaces(k) + b
  {
    EscapeSpacesAppend(p + Spaces(k), b);
    EscapeSpacesAppend(p, Spaces(k));
    EscapeSpacesOfSpaces(k);
    EscapeSpacesNoSpace(p);
    EscapeSpacesNoSpace(b);
  }

  /** The substitution copies a plain stretch at the start. */
  lemma CollapsePrefix(p: string, y: string)
    requires Plain(p)
    ensures CollapseFrom(p + y, 0) == p + CollapseFrom(p + y, |p|)
  {
    var e := p + y;
    forall m | 0 <= m < |p|
      ensures e[m] != '\\'
    {
      assert e[m] == p[m];
    }
    CollapsePlain(e, 0, |p|);
    assert e[0..|p|] == p;
  }

  /** One escaped space followed by a character that starts no pair is
      kept. */
  lemma CollapseLonePair(e: string, i: nat)
    requires i + 2 < |e| && e[i] == '\\' && e[i + 1] == ' ' && e[i + 2] != '\\'
    ensures CollapseFrom(e, i) == "\\ " + CollapseFrom(e, i + 2)
  {
    assert PairRunAt(e, i + 2) == 0;
    assert PairRunAt(e, i) == 1;
    CollapseKeep(e, i + 1);
  }

  /** What a run of `k` escaped spaces becomes: a single one is kept, a
      longer run is deleted. */
  function RunText(k: nat): string {
    if k == 1 then "\\ " else []
  }

  /** A backslash that is not followed by whitespace starts no pair and is
      copied. */
  lemma CollapseBackslash(s: string, i: nat)
    requires i + 1 < |s| && !IsSpace(s[i + 1])
    ensures CollapseFrom(s, i) == [s[i]] + CollapseFrom(s, i + 1)
  {
    assert PairRunAt(s, i) == 0;
  }

  /** A run of two or more pairs is skipped whole. */
  lemma CollapseSkipRun(s: string, i: nat, n: nat)
    requires i <= |s| && PairRunAt(s, i) == n && n >= 2
    ensures CollapseFrom(s, i) == CollapseFrom(s, i + 2 * n)
  {
  }

  /** A run of `k` escaped spaces followed by a character that is not a
      backslash: a single one is kept, two or more are deleted whole. */
  lemma CollapseRunAt(s: string, i: nat, k: nat)
    requires k >= 1 && i + 2 * k < |s| && s[i..i + 2 * k] == EscapedSpaces(k) && s[i + 2 * k] != '\\'
    ensures CollapseFrom(s, i) == RunText(k) + CollapseFrom(s, i + 2 * k)
  {
    assert PairRunAt(s, i) == k by {
      PairRunOfPairs(s, i, k);
    }
    if k == 1 {
      assert s[i] == '\\' && s[i + 1] == ' ' by {
        assert EscapedSpaces(1) == "\\ " by {
          assert EscapedSpaces(0) == [];
        }
        assert s[i] == s[i..i + 2][0] && s[i + 1] == s[i..i + 2][1];
      }
      CollapseLonePair(s, i);
    } else {
      CollapseSkipRun(s, i, k);
    }
  }

  /** The same, for a run placed after any text `x`. */
  lemma CollapseRunBefore(x: string, es: string, k: nat, y: string)
    requires k >= 1 && es == EscapedSpaces(k) && y != [] && y[0] != '\\'
    ensures CollapseFrom(x + (es + y), |x|) == RunText(k) + CollapseFrom((x + es) + y, |x + es|)
  {
    var s := x + (es + y);
    assert s == (x + es) + y;
    assert s[|x|..|x| + 2 * k] == es;
    assert s[|x| + 2 * k] == y[0];
    CollapseRunAt(s, |x|, k);
  }

  /** A plain word placed after any text `x` is copied. */
  lemma CollapseWordAt(x: string, w: string, y: string)
    requires Plain(w)
    ensures CollapseFrom(x + (w + y), |x|) == w + CollapseFrom((x + w) + y, |x + w|)
  {
    var s := x + (w + y);
    assert s == (x + w) + y;
    forall m | |x| <= m < |x| + |w|
      ensures s[m] != '\\'
    {
      assert s[m] == w[m - |x|];
    }
    CollapsePlain(s, |x|, |x| + |w|);
    assert s[|x|..|x| + |w|] == w;
  }

  /** A tag value after its first word, cut at its runs of spaces: each run
      of `spaces` spaces with the word that follows it. */
  datatype Gap = Gap(spaces: nat, word: string)

  /** Every run holds at least one space and is followed by a non-empty word
      with no backslash and no whitespace. */
  predicate WellSpaced(gaps: seq<Gap>) {
    forall i :: 0 <= i < |gaps| ==> gaps[i].spaces >= 1 && gaps[i].word != [] && Plain(gaps[i].word)
  }

  lemma WellSpacedTail(gaps: seq<Gap>)
    requires gaps != [] && WellSpaced(gaps)
    ensures WellSpaced(gaps[1..])
  {
    forall i | 0 <= i < |gaps| - 1
      ensures gaps[1..][i].spaces >= 1 && gaps[1..][i].word != [] && Plain(gaps[1..][i].word)
    {
      assert gaps[1..][i] == gaps[i + 1];
    }
  }

  /** The raw text of the runs and their words. */
  function Spaced(gaps: seq<Gap>): string
    decreases |gaps|
  {
    if gaps == [] then [] else Spaces(gaps[0].spaces) + gaps[0].word + Spaced(gaps[1..])
  }

  /** The same text after `replace(' ', '\ ')`. */
  function EscapedGaps(gaps: seq<Gap>): string
    decreases |gaps|
  {
    if gaps == [] then [] else EscapedSpaces(gaps[0].spaces) + gaps[0].word + EscapedGaps(gaps[1..])
  }

  /** What the runs become in a tag: a single space stays escaped, a longer
      run disappears, and the words are kept. */
  function Collapsed(gaps: seq<Gap>): string
    decreases |gaps|
  {
    if gaps == [] then []
    else RunText(gaps[0].spaces) + gaps[0].word + Collapsed(gaps[1..])
  }

  lemma {:induction false} SpacedLast(gaps: seq<Gap>)
    requires gaps != [] && WellSpaced(gaps)
    ensures var t := Spaced(gaps); t != [] && !IsSpace(t[|t| - 1])
    decreases |gaps|
  {
    var g := gaps[0];
    assert g.word[|g.word| - 1] != '\\' && !IsSpace(g.word[|g.word| - 1]);
    if |gaps| > 1 {
      WellSpacedTail(gaps);
      SpacedLast(gaps[1..]);
    } else {
      assert Spaced(gaps) == Spaces(g.spaces) + g.word + [];
    }
  }

  lemma {:induction false} EscapeSpacesGaps(gaps: seq<Gap>)
    requires WellSpaced(gaps)
    ensures EscapeSpaces(Spaced(gaps)) == EscapedGaps(gaps)
    decreases |gaps|
  {
    if gaps != [] {
      var g := gaps[0];
      WellSpacedTail(gaps);
      EscapeSpacesGaps(gaps[1..]);
      assert ' ' !in g.word by {
        assert IsSpace(' ');
      }
      EscapeSpacesAppend(Spaces(g.spaces) + g.word, Spaced(gaps[1..]));
      EscapeSpacesAppend(Spaces(g.spaces), g.word);
      EscapeSpacesOfSpaces(g.spaces);
      EscapeSpacesNoSpace(g.word);
    }
  }

  /** The substitution, started after any text `x`, turns the escaped runs
      into their collapsed form. */
  lemma {:induction false} CollapseGaps(x: string, gaps: seq<Gap>)
    requires WellSpaced(gaps)
    ensures CollapseFrom(x + EscapedGaps(gaps), |x|) == Collapsed(gaps)
    decreases |gaps|
  {
    if gaps == [] {
      assert x + EscapedGaps(gaps) == x;
    } else {
      var g := gaps[0];
      var rest := gaps[1..];
      WellSpacedTail(gaps);
      var es := EscapedSpaces(g.spaces);
      var tail := EscapedGaps(rest);
      assert EscapedGaps(gaps) == es + (g.word + tail);
      assert Collapsed(gaps) == RunText(g.spaces) + (g.word + Collapsed(rest));
      hide CollapseFrom, EscapedGaps, Collapsed;
      CollapseRunBefore(x, es, g.spaces, g.word + tail);
      CollapseWordAt(x + es, g.word, tail);
      CollapseGaps(x + es + g.word, rest);
    }
  }

  /** Text after a plain, non-empty start that does not end in whitespace
      is its own `strip()`. */
  lemma StripPlainStart(p: string, t: string)
    requires Plain(p) && p != [] && (t == [] || !IsSpace(t[|t| - 1]))
    ensures Strip(p + t) == p + t
  {
    var s := p + t;
    assert s[0] == p[0];
    assert s[|s| - 1] == if t == [] then p[|p| - 1] else t[|t| - 1];
    StripUnblank(s);
  }

  /** Escaping leaves a plain start alone. */
  lemma EscapePlainStart(p: string, t: string)
    requires Plain(p)
    ensures EscapeSpaces(p + t) == p + EscapeSpaces(t)
  {
    assert ' ' !in p by {
      assert IsSpace(' ');
    }
    EscapeSpacesAppend(p, t);
    EscapeSpacesNoSpace(p);
  }

  /** The text of a tag `name=a...` with a plain `name` and `a`, from what
      escaping and the substitution do to the rest `t` of the value. */
  lemma EscapeTagPlainHead(name: string, a: string, t: string, et: string, ct: string)
    requires Plain(name) && Plain(a)
    requires t == [] || !IsSpace(t[|t| - 1])
    requires EscapeSpaces(t) == et
    requires CollapseFrom(name + "=" + a + et, |name + "=" + a|) == ct
    ensures EscapeTag(name, a + t) == name + "=" + a + ct
  {
    var p := name + "=" + a;
    assert Plain(p);
    ConcatAssoc(name + "=", a, t);
    StripPlainStart(p, t);
    EscapePlainStart(p, t);
    EscapeTagBranchUnreachable(name, a + t);
    CollapsePrefix(p, et);
  }

  /** Inside a tag value every single space is escaped as `\ ` and every run
      of two or more spaces disappears, whatever the number of runs: `CPU
      Load` gives `CPU\ Load`, `CPU  Load` gives `CPULoad`, and `a b  c`
      gives `a\ bc`. */
  lemma EscapeTagSpaceRuns(name: string, a: string, gaps: seq<Gap>)
    requires Plain(name) && Plain(a) && WellSpaced(gaps)
    ensures EscapeTag(name, a + Spaced(gaps)) == name + "=" + a + Collapsed(gaps)
  {
    if gaps != [] {
      SpacedLast(gaps);
    }
    EscapeSpacesGaps(gaps);
    CollapseGaps(name + "=" + a, gaps);
    EscapeTagPlainHead(name, a, Spaced(gaps), EscapedGaps(gaps), Collapsed(gaps));
  }

  /** Escaping `\ b` for a plain `b` doubles the backslash. */
  lemma EscapeEscapedSpace(b: string)
    requires Plain(b)
    ensures EscapeSpaces("\\ " + b) == "\\\\ " + b
  {
    BackslashSpaceSplit(b);
    EscapeSpacesAppend("\\", " " + b);
    EscapeSpacesAppend(" ", b);
    EscapeSpacesNoSpace("\\");
    EscapeSpacesNoSpace(b) by {
      assert IsSpace(' ');
    }
    assert EscapeSpaces(" ") == "\\ ";
    ConcatAssoc("\\", "\\ ", b);
  }

  /** Two ways of cutting `\ b` and `\\ b`. */
  lemma BackslashSpaceSplit(b: string)
    ensures "\\ " + b == "\\" + (" " + b)
    ensures "\\" + ("\\ " + b) == "\\\\ " + b
  {
  }

  /** A plain end of the text is copied. */
  lemma CollapseTail(e: string, j: nat, b: string)
    requires j <= |e| && e[j..] == b && Plain(b)
    ensures CollapseFrom(e, j) == b
  {
    forall m | j <= m < |e|
      ensures e[m] != '\\'
    {
      assert e[m] == b[m - j];
    }
    CollapsePlain(e, j, |e|);
    assert e[j..|e|] == b;
  }

  /** The characters of `x` followed by `\\ b`, after `x`. */
  lemma DoubleBackslashAt(x: string, b: string)
    requires b != []
    ensures var e := x + ("\\\\ " + b);
            e[|x|] == '\\' && e[|x| + 1] == '\\' && e[|x| + 2] == ' ' && e[|x| + 3] == b[0] && e[|x| + 3..] == b
  {
  }

  /** The substitution keeps `\\ b`: the first backslash starts no pair, the
      second forms a single pair. */
  lemma CollapseEscapedSpace(x: string, b: string)
    requires Plain(b) && b != []
    ensures CollapseFrom(x + ("\\\\ " + b), |x|) == "\\\\ " + b
  {
    var e := x + ("\\\\ " + b);
    var i := |x|;
    DoubleBackslashAt(x, b);
    CollapseBackslash(e, i);
    CollapseLonePair(e, i + 1);
    CollapseTail(e, i + 3, b);
    BackslashSpaceSplit(b);
  }

  /** A value that already holds an escaped space is escaped again: the
      backslash stays and the space gets a backslash of its own, so
      `CPU\ Load` gives `CPU\\ Load`. */
  lemma EscapeTagEscapedSpace(name: string, a: string, b: string)
    requires Plain(name) && Plain(a) && Plain(b) && b != []
    ensures EscapeTag(name, a + ("\\ " + b)) == name + "=" + a + ("\\\\ " + b)
  {
    EscapeEscapedSpace(b);
    CollapseEscapedSpace(name + "=" + a, b);
    EscapeTagPlainHead(name, a, "\\ " + b, "\\\\ " + b, "\\\\ " + b);
  }

  /** `CPU\ Load` as a tag value gives `t=CPU\\ Load`. */
  lemma EscapeTagEscapedSpaceExample()
    ensures EscapeTag("t", "CPU\\ Load") == "t=CPU\\\\ Load"
  {
    ExampleParts();
    EscapeTagEscapedSpace("t", "CPU", "Load");
  }

  /** The pieces of `t=CPU\\ Load`. */
  lemma ExampleParts()
    ensures Plain("t") && Plain("CPU") && Plain("Load")
    ensures "CPU" + ("\\ " + "Load") == "CPU\\ Load"
    ensures "t" + "=" + "CPU" + ("\\\\ " + "Load") == "t=CPU\\\\ Load"
  {
  }

  // ---------------------------------------------------------------------------
  // Comma- and newline-separated text
  // ---------------------------------------------------------------------------

  /** Each piece followed by `sep`, as a loop of `s += piece + sep` builds it. */
  function Terminated(pieces: seq<string>, sep: char): string
    decreases |pieces|
  {
    if pieces == [] then [] else Terminated(pieces[..|pieces| - 1], sep) + pieces[|pieces| - 1] + [sep]
  }

  /** Each piece preceded by `sep`. */
  function Prefixed(pieces: seq<string>, sep: char): string
    decreases |pieces|
  {
    if pieces == [] then [] else Prefixed(pieces[..|pieces| - 1], sep) + [sep] + pieces[|pieces| - 1]
  }

  /** The pieces separated by `sep`, nothing for no piece. */
  function Separated(pieces: seq<string>, sep: char): string {
    if pieces == [] then [] else Join(pieces, sep)
  }

  lemma {:induction false} TerminatedSnoc(pieces: seq<string>, x: string, sep: char)
    ensures Terminated(pieces + [x], sep) == Terminated(pieces, sep) + x + [sep]
  {
    assert (pieces + [x])[..|pieces|] == pieces;
  }

  /** One more round of a loop `s += piece + sep` that started from `head`. */
  lemma TerminatedStep(head: string, pieces: seq<string>, x: string, sep: char)
    ensures head + Terminated(pieces, sep) + x + [sep] == head + Terminated(pieces + [x], sep)
  {
    TerminatedSnoc(pieces, x, sep);
    var t := Terminated(pieces, sep);
    ConcatAssoc(head, t, x);
    ConcatAssoc(head, t + x, [sep]);
  }

  /** A separator before the terminated pieces is a separator before each of
      them and one at the end. */
  lemma {:induction false} TerminatedIsPrefixed(pieces: seq<string>, sep: char)
    ensures [sep] + Terminated(pieces, sep) == Prefixed(pieces, sep) + [sep]
    decreases |pieces|
  {
    if pieces != [] {
      var init := pieces[..|pieces| - 1];
      var last := pieces[|pieces| - 1];
      TerminatedIsPrefixed(init, sep);
      var t := Terminated(init, sep);
      var p := Prefixed(init, sep);
      assert [sep] + (t + last + [sep]) == ([sep] + t) + last + [sep];
      assert (p + [sep]) + last + [sep] == (p + [sep] + last) + [sep];
    }
  }

  /** Terminated pieces are the separated pieces with one `sep` more. */
  lemma {:induction false} TerminatedIsSeparated(pieces: seq<string>, sep: char)
    requires pieces != []
    ensures Terminated(pieces, sep) == Separated(pieces, sep) + [sep]
    decreases |pieces|
  {
    var init := pieces[..|pieces| - 1];
    var last := pieces[|pieces| - 1];
    assert pieces == init + [last];
    if init == [] {
      assert Terminated(init, sep) == [];
      assert Terminated(pieces, sep) == last + [sep];
    } else {
      TerminatedIsSeparated(init, sep);
      JoinSnoc(init, last, sep);
    }
  }

  /** Terminated pieces are the pieces with one empty piece more, joined. */
  lemma TerminatedIsJoin(pieces: seq<string>, sep: char)
    ensures Terminated(pieces, sep) == Join(pieces + [""], sep)
  {
    if pieces == [] {
      assert pieces + [""] == [""];
    } else {
      TerminatedIsSeparated(pieces, sep);
      JoinSnoc(pieces, "", sep);
      assert Join(pieces, sep) + [sep] + "" == Join(pieces, sep) + [sep];
    }
  }

  lemma {:induction false} TerminatedConcat(a: seq<string>, b: seq<string>, sep: char)
    ensures Terminated(a + b, sep) == Terminated(a, sep) + Terminated(b, sep)
    decreases |b|
  {
    if b == [] {
      assert a + b == a;
    } else {
      var b' := b[..|b| - 1];
      var last := b[|b| - 1];
      assert a + b == (a + b') + [last];
      TerminatedSnoc(a + b', last, sep);
      TerminatedConcat(a, b', sep);
      var ta := Terminated(a, sep);
      var tb := Terminated(b', sep);
      assert (ta + tb) + last + [sep] == ta + (tb + last + [sep]);
    }
  }

  /** A join ends like its last piece when that piece is not empty. */
  lemma JoinEndsWithLast(ps: seq<string>, sep: char)
    requires |ps| >= 1 && ps[|ps| - 1] != []
    ensures var j := Join(ps, sep);
            var last := ps[|ps| - 1];
            |j| > 0 && j[|j| - 1] == last[|last| - 1]
  {
  }

  // ---------------------------------------------------------------------------
  // One line (lines 526-550)
  // ---------------------------------------------------------------------------

  /** `[x for x in item if x[1] == kind]`: the entries of one kind, in order. */
  function OfKind(es: seq<Entry>, kind: string): (r: seq<Entry>)
    ensures |r| <= |es|
    decreases |es|
  {
    if es == [] then []
    else
      var last := es[|es| - 1];
      OfKind(es[..|es| - 1], kind) + (if last.kind == kind then [last] else [])
  }

  /** The entries of one kind are exactly the entries with that kind. */
  lemma {:induction false} OfKindMembers(es: seq<Entry>, kind: string)
    ensures forall e :: e in OfKind(es, kind) <==> e in es && e.kind == kind
    decreases |es|
  {
    if es != [] {
      var init := es[..|es| - 1];
      var last := es[|es| - 1];
      assert es == init + [last];
      OfKindMembers(init, kind);
    }
  }

  /** Selecting by kind distributes over concatenation. */
  lemma {:induction false} OfKindConcat(a: seq<Entry>, b: seq<Entry>, kind: string)
    ensures OfKind(a + b, kind) == OfKind(a, kind) + OfKind(b, kind)
    decreases |b|
  {
    if b == [] {
      assert a + b == a;
    } else {
      var init := b[..|b| - 1];
      var last := b[|b| - 1];
      assert (a + b)[..|a + b| - 1] == a + init;
      assert (a + b)[|a + b| - 1] == last;
      OfKindConcat(a, init, kind);
      var tail := if last.kind == kind then [last] else [];
      ConcatAssoc(OfKind(a, kind), OfKind(init, kind), tail);
    }
  }

  /** The text one field contributes: quoted when its value type is
      `'string'`, verbatim otherwise. */
  function FieldText(e: Entry): string {
    if e.valueType == "string" then e.name + "=\"" + e.value + "\"" else e.name + "=" + e.value
  }

  /** The escaped text of each tag, in order. */
  function TagTexts(tags: seq<Entry>): (ts: seq<string>)
    ensures |ts| == |tags|
    decreases |tags|
  {
    if tags == [] then []
    else
      var last := tags[|tags| - 1];
      TagTexts(tags[..|tags| - 1]) + [EscapeTag(last.name, last.value)]
  }

  /** The text of each field, in order. */
  function FieldTexts(fields: seq<Entry>): (ts: seq<string>)
    ensures |ts| == |fields|
    decreases |fields|
  {
    if fields == [] then [] else FieldTexts(fields[..|fields| - 1]) + [FieldText(fields[|fields| - 1])]
  }

  lemma TagTextsStep(tags: seq<Entry>, j: nat)
    requires j < |tags|
    ensures TagTexts(tags[..j + 1]) == TagTexts(tags[..j]) + [EscapeTag(tags[j].name, tags[j].value)]
  {
    assert tags[..j + 1][..j] == tags[..j];
  }

  lemma FieldTextsStep(fields: seq<Entry>, j: nat)
    requires j < |fields|
    ensures FieldTexts(fields[..j + 1]) == FieldTexts(fields[..j]) + [FieldText(fields[j])]
  {
    assert fields[..j + 1][..j] == fields[..j];
  }

  /** The line built from `head` (`measurement,device=alias,`) and the tag and
      field texts: every text followed by a comma, trailing commas removed
      after the tags and again after the fields, one space in between. */
  function Layout(head: string, tags: seq<string>, fields: seq<string>): string {
    RStrip(RStrip(head + Terminated(tags, ','), ',') + " " + Terminated(fields, ','), ',')
  }

  /** The line of one record, without its newline, as lines 531-548 build it:
      both `rstrip(',')` calls remove every trailing comma. */
  function Line(device: string, measurement: string, entries: seq<Entry>): string {
    Layout(measurement + ",device=" + device + ",",
           TagTexts(OfKind(entries, "tag")), FieldTexts(OfKind(entries, "field")))
  }

  function LineOf(items: seq<Item>): string
    requires WellFormed(items)
  {
    Line(items[0].text, items[1].text, EntriesOf(items[2..]))
  }

  /** The lines of a batch, without their newlines. */
  function Lines(records: seq<seq<Item>>): (ls: seq<string>)
    requires AllWellFormed(records)
  {
    MapSeq(LineOf, records)
  }

  /** The text returned for a list of records: each record's line followed by
      a newline, in order. */
  function Payload(records: seq<seq<Item>>): string
    requires AllWellFormed(records)
  {
    Terminated(Lines(records), '\n')
  }

  // ---------------------------------------------------------------------------
  // The method (lines 520-552)
  // ---------------------------------------------------------------------------

  /** The loop at lines 532-538: appends each tag's escaped text and a comma. */
  method AppendTags(line: string, mtags: seq<Entry>) returns (r: string)
    ensures r == line + Terminated(TagTexts(mtags), ',')
  {
    r := line;
    ghost var texts: seq<string> := [];
    for j := 0 to |mtags|
      invariant texts == TagTexts(mtags[..j])
      invariant r == line + Terminated(texts, ',')
    {
      var nonSpace := EscapeTag(mtags[j].name, mtags[j].value);
      TagTextsStep(mtags, j);
      TerminatedStep(line, texts, nonSpace, ',');
      r := r + nonSpace + ",";
      texts := texts + [nonSpace];
    }
    assert mtags[..|mtags|] == mtags;
  }

  /** The loop at lines 541-547: appends each field's text and a comma. */
  method AppendFields(line: string, mfields: seq<Entry>) returns (r: string)
    ensures r == line + Terminated(FieldTexts(mfields), ',')
  {
    r := line;
    ghost var texts: seq<string> := [];
    for j := 0 to |mfields|
      invariant texts == FieldTexts(mfields[..j])
      invariant r == line + Terminated(texts, ',')
    {
      var text := if mfields[j].valueType == "string" then mfields[j].name + "=\"" + mfields[j].value + "\""
                  else mfields[j].name + "=" + mfields[j].value;
      FieldTextsStep(mfields, j);
      TerminatedStep(line, texts, text, ',');
      r := r + text + ",";
      texts := texts + [text];
    }
    assert mfields[..|mfields|] == mfields;
  }

  /** The body of the loop at line 524 for one record. */
  method FormatLine(item: Measurement) returns (influxLine: string)
    requires WellFormed(item.items)
    modifies item
    ensures item.items == old(item.items)[2..]
    ensures influxLine == LineOf(old(item.items))
  {
    ghost var original := item.items;
    var device := item.Pop();
    var measurement := item.Pop();
    assert item.items == original[2..];
    var entries := EntriesOf(item.items);
    var mtags := OfKind(entries, "tag");
    var mfields := OfKind(entries, "field");
    var head := measurement.text + ",device=" + device.text + ",";
    influxLine := AppendTags(head, mtags);
    influxLine := RStrip(influxLine, ',');
    influxLine := influxLine + " ";
    influxLine := AppendFields(influxLine, mfields);
    influxLine := RStrip(influxLine, ',');
    assert LineOf(original) == Line(device.text, measurement.text, entries) by {
      assert device == original[0] && measurement == original[1] && entries == EntriesOf(original[2..]);
    }
  }

  /** `assemble_influx_lp`: returns the payload of the records that the lists
      hold on entry (`records`) and leaves every list without its first two
      elements (the `pop(0)` calls). */
  method AssembleInfluxLp(measurements: seq<Measurement>, ghost records: seq<seq<Item>>) returns (influxLines: string)
    requires forall i, j :: 0 <= i < |measurements| && 0 <= j < |measurements| && i != j ==> measurements[i] != measurements[j]
    requires |records| == |measurements|
    requires forall i :: 0 <= i < |measurements| ==> measurements[i].items == records[i]
    requires AllWellFormed(records)
    modifies measurements
    ensures forall i :: 0 <= i < |measurements| ==> measurements[i].items == records[i][2..]
    ensures influxLines == Payload(records)
  {
    hide LineOf;
    ghost var expected := Lines(records);
    influxLines := "";
    for i := 0 to |measurements|
      invariant forall k :: 0 <= k < |measurements| ==> measurements[k].items == if k < i then records[k][2..] else records[k]
      invariant influxLines == Terminated(expected[..i], '\n')
    {
      var influxLine := FormatLine(measurements[i]);
      assert influxLine == expected[i] by {
        MapSeqAt(LineOf, records, i);
      }
      assert expected[..i + 1] == expected[..i] + [influxLine];
      TerminatedSnoc(expected[..i], influxLine, '\n');
      influxLines := influxLines + influxLine + "\n";
    }
    assert expected[..|measurements|] == expected;
  }

  // ---------------------------------------------------------------------------
  // Properties of the line and of the payload
  // ---------------------------------------------------------------------------

  predicate NoTrailingComma(s: string) {
    s == [] || s[|s| - 1] != ','
  }

  lemma RStripNoTrailing(s: string, c: char)
    requires s == [] || s[|s| - 1] != c
    ensures RStrip(s, c) == s
  {
  }

  lemma RStripOneMore(s: string, c: char)
    requires s == [] || s[|s| - 1] != c
    ensures RStrip(s + [c], c) == s
  {
    assert (s + [c])[..|s|] == s;
  }

  /** Each piece preceded by `sep` ends like the last piece. */
  lemma PrefixedEndsWithLast(pieces: seq<string>, sep: char)
    requires pieces != [] && pieces[|pieces| - 1] != []
    ensures var p := Prefixed(pieces, sep);
            var last := pieces[|pieces| - 1];
            |p| > 0 && p[|p| - 1] == last[|last| - 1]
  {
  }

  /** The first `rstrip(',')` leaves `,` and each tag text after the prefix. */
  lemma TagPartShape(prefix: string, tags: seq<string>)
    requires tags == [] ==> NoTrailingComma(prefix)
    requires tags != [] ==> tags[|tags| - 1] != [] && NoTrailingComma(tags[|tags| - 1])
    ensures RStrip(prefix + "," + Terminated(tags, ','), ',') == prefix + Prefixed(tags, ',')
  {
    var t := Terminated(tags, ',');
    var p := Prefixed(tags, ',');
    var x := prefix + p;
    assert prefix + "," + t == x + "," by {
      TerminatedIsPrefixed(tags, ',');
      ConcatAssoc(prefix, ",", t);
      ConcatAssoc(prefix, p, ",");
    }
    assert NoTrailingComma(x) by {
      if tags != [] {
        PrefixedEndsWithLast(tags, ',');
        assert x[|x| - 1] == p[|p| - 1];
      }
    }
    RStripOneMore(x, ',');
  }

  /** The second `rstrip(',')` leaves the field texts separated by commas. */
  lemma FieldPartShape(y: string, fields: seq<string>)
    requires NoTrailingComma(y)
    requires fields != [] ==> fields[|fields| - 1] != [] && NoTrailingComma(fields[|fields| - 1])
    ensures RStrip(y + Terminated(fields, ','), ',') == y + Separated(fields, ',')
  {
    var f := Terminated(fields, ',');
    if fields == [] {
      assert y + f == y;
      RStripNoTrailing(y, ',');
    } else {
      var j := Join(fields, ',');
      var z := y + j;
      assert y + f == z + "," by {
        TerminatedIsSeparated(fields, ',');
        ConcatAssoc(y, j, ",");
      }
      assert NoTrailingComma(z) by {
        JoinEndsWithLast(fields, ',');
        assert z[|z| - 1] == j[|j| - 1];
      }
      RStripOneMore(z, ',');
    }
  }

  /** The layout is the head without its comma, `,` and each tag text, one
      space, and the field texts separated by commas, whenever the text the
      `rstrip(',')` calls look at does not itself end in a comma. */
  lemma LayoutShape(prefix: string, tags: seq<string>, fields: seq<string>)
    requires tags == [] ==> NoTrailingComma(prefix)
    requires tags != [] ==> tags[|tags| - 1] != [] && NoTrailingComma(tags[|tags| - 1])
    requires fields != [] ==> fields[|fields| - 1] != [] && NoTrailingComma(fields[|fields| - 1])
    ensures Layout(prefix + ",", tags, fields) == prefix + Prefixed(tags, ',') + " " + Separated(fields, ',')
  {
    TagPartShape(prefix, tags);
    FieldPartShape(prefix + Prefixed(tags, ',') + " ", fields);
  }

  /** The line structure: `measurement,device=alias`, then `,` and the escaped
      text of every `'tag'` entry in order, then one space, then the `'field'`
      entries in order separated by commas. It holds whenever the text the
      `rstrip(',')` calls look at does not itself end in a comma (a device alias,
      last tag or last unquoted field value ending in `,` loses those commas). */
  lemma LineShape(device: string, measurement: string, entries: seq<Entry>)
    requires var tags := OfKind(entries, "tag");
             tags == [] ==> NoTrailingComma(device)
    requires var tags := OfKind(entries, "tag");
             tags != [] ==> NoTrailingComma(EscapeTag(tags[|tags| - 1].name, tags[|tags| - 1].value))
    requires var fields := OfKind(entries, "field");
             fields != [] ==> NoTrailingComma(FieldText(fields[|fields| - 1]))
    ensures Line(device, measurement, entries)
         == measurement + ",device=" + device + Prefixed(TagTexts(OfKind(entries, "tag")), ',') + " "
            + Separated(FieldTexts(OfKind(entries, "field")), ',')
  {
    var tags := OfKind(entries, "tag");
    var fields := OfKind(entries, "field");
    var ts := TagTexts(tags);
    var fs := FieldTexts(fields);
    assert ts != [] ==> ts[|ts| - 1] != [] && NoTrailingComma(ts[|ts| - 1]) by {
      if tags != [] {
        var last := tags[|tags| - 1];
        assert ts[|ts| - 1] == EscapeTag(last.name, last.value);
        EscapeTagBranchUnreachable(last.name, last.value);
      }
    }
    assert fs != [] ==> fs[|fs| - 1] != [] && NoTrailingComma(fs[|fs| - 1]) by {
      if fields != [] {
        assert fs[|fs| - 1] == FieldText(fields[|fields| - 1]);
      }
    }
    LayoutShape(measurement + ",device=" + device, ts, fs);
  }

  /** A record with no `'field'` entry gives a line that ends in the space
      that separates tags from fields. */
  lemma FieldlessLineEndsInSpace(device: string, measurement: string, entries: seq<Entry>)
    requires OfKind(entries, "field") == []
    ensures EndsWith(Line(device, measurement, entries), " ")
  {
    var head := measurement + ",device=" + device + ",";
    var tagged := RStrip(head + Terminated(TagTexts(OfKind(entries, "tag")), ','), ',');
    assert FieldTexts(OfKind(entries, "field")) == [];
    assert tagged + " " + Terminated([], ',') == tagged + " ";
  }

  /** An entry whose kind is neither `'tag'` nor `'field'` does not change
      the line, wherever it stands. */
  lemma OtherKindsDropped(device: string, measurement: string, a: seq<Entry>, e: Entry, b: seq<Entry>)
    requires e.kind != "tag" && e.kind != "field"
    ensures Line(device, measurement, a + [e] + b) == Line(device, measurement, a + b)
  {
    OfKindConcat(a + [e], b, "tag");
    OfKindConcat(a + [e], b, "field");
    OfKindConcat(a, b, "tag");
    OfKindConcat(a, b, "field");
    assert (a + [e])[..|a|] == a;
    assert OfKind(a, "tag") + [] == OfKind(a, "tag");
    assert OfKind(a, "field") + [] == OfKind(a, "field");
  }

  /** The payload of two batches is the payload of the first followed by the
      payload of the second; no batch gives the empty text. */
  lemma PayloadConcat(a: seq<seq<Item>>, b: seq<seq<Item>>)
    requires AllWellFormed(a) && AllWellFormed(b)
    ensures AllWellFormed(a + b)
    ensures Payload(a + b) == Payload(a) + Payload(b)
    ensures Payload([]) == ""
  {
    MapSeqConcat(LineOf, a, b);
    TerminatedConcat(Lines(a), Lines(b), '\n');
  }

  lemma NoNewlineInPieces(records: seq<seq<Item>>)
    requires AllWellFormed(records)
    requires forall i :: 0 <= i < |records| ==> '\n' !in LineOf(records[i])
    ensures forall k :: 0 <= k < |Lines(records) + [""]| ==> '\n' !in (Lines(records) + [""])[k]
  {
    var ls := Lines(records);
    var ps := ls + [""];
    forall k | 0 <= k < |ps|
      ensures '\n' !in ps[k]
    {
      if k < |ls| {
        assert ps[k] == ls[k];
        MapSeqAt(LineOf, records, k);
      } else {
        assert ps[k] == "";
      }
    }
  }

  /** Splitting the payload at its newlines gives back one line per record,
      in order, and a final empty piece after the last newline, provided no
      line has a newline of its own. */
  lemma PayloadSplitsIntoLines(records: seq<seq<Item>>)
    requires AllWellFormed(records)
    requires forall i :: 0 <= i < |records| ==> '\n' !in LineOf(records[i])
    ensures Split(Payload(records), '\n') == Lines(records) + [""]
  {
    NoNewlineInPieces(records);
    TerminatedIsJoin(Lines(records), '\n');
    SplitJoin(Lines(records) + [""], '\n');
  }

  /** The same, piece by piece: piece `i` is the line of record `i`, and the
      piece after the last newline is empty. */
  lemma PayloadLinesAt(records: seq<seq<Item>>)
    requires AllWellFormed(records)
    requires forall i :: 0 <= i < |records| ==> '\n' !in LineOf(records[i])
    ensures |Split(Payload(records), '\n')| == |records| + 1
    ensures Split(Payload(records), '\n')[|records|] == ""
    ensures forall i :: 0 <= i < |records| ==> Split(Payload(records), '\n')[i] == LineOf(records[i])
  {
    PayloadSplitsIntoLines(records);
    forall i | 0 <= i < |records|
      ensures Split(Payload(records), '\n')[i] == LineOf(records[i])
    {
      MapSeqAt(LineOf, records, i);
    }
  }
}
