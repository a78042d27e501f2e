/** The string logic around an SSH session: how the server banner decides
    the prompt, how a prompt is read off captured text, when the
    `terminal length 0` setup command is sent, what `SSHTarget.__init__`
    records, and the split of targets into reachable and unreachable ones.
    The connections themselves are not modelled: the banner, the captured text
    and the outcome of `get_prompt` are inputs. */
module Session {
  import opened Wrappers
  import opened PyText
  import opened Worklist

  // ---------------------------------------------------------------------------
  // Banner and prompt (lines 133-157, 191)
  // ---------------------------------------------------------------------------

  /** What `_get_prompt` does for a banner: learn the prompt from the session,
      or take a fixed one. */
  datatype PromptRule = LearnPrompt | FixedPrompt(prompt: string)

  /** Lines 133-157: `Cisco`, `PKIX` or `SSH-2.0-OpenSSH` in the banner means
      learn the prompt; otherwise `Ubuntu` gives `:~$` and anything else `$`. */
  function ClassifyBanner(serverVersion: string): PromptRule {
    if Contains(serverVersion, "Cisco") || Contains(serverVersion, "PKIX") || Contains(serverVersion, "SSH-2.0-OpenSSH") then
      LearnPrompt
    else if Contains(serverVersion, "Ubuntu") then FixedPrompt(":~$")
    else FixedPrompt("$")
  }

  /** Line 191: the setup command is sent for `Cisco` and `PKIX` banners only. */
  predicate NeedsTerminalLengthZero(serverVersion: string) {
    Contains(serverVersion, "Cisco") || Contains(serverVersion, "PKIX")
  }

  /** Line 150: the capture stripped, split on newlines, the last line
      stripped. */
  function PromptFromCapture(result: string): string {
    var lines := Split(Strip(result), '\n');
    Strip(lines[|lines| - 1])
  }

  /** `_get_prompt`'s result for a banner and the text captured after
      sending two newlines (`''` when the read timed out). */
  function PromptFor(serverVersion: string, captured: string): (string, string) {
    match ClassifyBanner(serverVersion)
    case LearnPrompt => (serverVersion, PromptFromCapture(captured))
    case FixedPrompt(p) => (serverVersion, p)
  }

  /** Every host that gets `terminal length 0` had its prompt learned from
      the session, never fixed, so a timed-out read leaves it the empty
      prompt as `PromptReadTimeout` says. */
  lemma TerminalLengthImpliesLearned(serverVersion: string)
    requires NeedsTerminalLengthZero(serverVersion)
    ensures ClassifyBanner(serverVersion) == LearnPrompt
    ensures PromptFor(serverVersion, "") == (serverVersion, "")
  {
    PromptReadTimeout(serverVersion);
  }

  /** A learned prompt whose read timed out (the capture stays `''`) is the
      empty prompt, not a failure: the connection still counts as made. */
  lemma PromptReadTimeout(serverVersion: string)
    requires ClassifyBanner(serverVersion) == LearnPrompt
    ensures PromptFor(serverVersion, "") == (serverVersion, "")
  {
    assert Split("", '\n') == [""];
  }

  /** The banner of an OpenSSH server is a learned prompt even when it names
      Ubuntu, and it gets no `terminal length 0`: the `Ubuntu` branch is taken
      only by banners without `SSH-2.0-OpenSSH`. */
  lemma OpenSshBanner(a: string, b: string)
    requires !Contains(a + "SSH-2.0-OpenSSH" + b, "Cisco") && !Contains(a + "SSH-2.0-OpenSSH" + b, "PKIX")
    ensures ClassifyBanner(a + "SSH-2.0-OpenSSH" + b) == LearnPrompt
    ensures !NeedsTerminalLengthZero(a + "SSH-2.0-OpenSSH" + b)
  {
    ContainsInfix(a, "SSH-2.0-OpenSSH", b);
  }

  /** A fixed prompt is `:~$` for a banner naming Ubuntu and `$` otherwise. */
  lemma FixedPromptCases(serverVersion: string)
    requires ClassifyBanner(serverVersion).FixedPrompt?
    ensures !NeedsTerminalLengthZero(serverVersion)
    ensures !Contains(serverVersion, "SSH-2.0-OpenSSH")
    ensures ClassifyBanner(serverVersion).prompt == (if Contains(serverVersion, "Ubuntu") then ":~$" else "$")
  {
  }

  /** Text with no newline strips to text with no newline. */
  lemma StripKeepsOut(s: string, c: char)
    requires c !in s
    ensures c !in Strip(s)
  {
    var i := StripSlice(s);
    var r := Strip(s);
    forall k | 0 <= k < |r| ensures r[k] != c {
      assert r[k] == s[i + k];
    }
  }

  /** Text with non-blank ends is its own `strip()`. */
  lemma StripStripped(p: string)
    requires p != [] && !IsSpace(p[0]) && !IsSpace(p[|p| - 1])
    ensures Strip(p) == p
  {
    var i := StripSlice(p);
    var r := Strip(p);
    assert !IsSpace(p[0]) ==> i == 0;
    assert !IsSpace(p[|p| - 1]) ==> i + |r| == |p|;
  }

  /** The prompt holds no newline and has no blank at either end; when the
      capture ends in a line `p` with non-blank ends, the prompt is `p`. */
  lemma PromptSpec(result: string)
    ensures '\n' !in PromptFromCapture(result)
    ensures var p := PromptFromCapture(result); p == [] || (!IsSpace(p[0]) && !IsSpace(p[|p| - 1]))
  {
    var lines := Split(Strip(result), '\n');
    SplitNoSep(Strip(result), '\n');
    StripKeepsOut(lines[|lines| - 1], '\n');
    var _ := StripSlice(lines[|lines| - 1]);
  }

  lemma PromptOfLastLine(t: string, p: string)
    requires '\n' !in p && p != [] && !IsSpace(p[0]) && !IsSpace(p[|p| - 1])
    ensures PromptFromCapture(t + "\n" + p) == p
    ensures PromptFromCapture(p) == p
  {
    StripStripped(p);
    SplitPlain(p, '\n');
    var s := t + "\n" + p;
    var i := StripSlice(s);
    var r := Strip(s);
    assert s[|s| - 1] == p[|p| - 1] && s[|t| + 1] == p[0];
    assert !IsSpace(s[|s| - 1]) ==> i + |r| == |s|;
    assert !IsSpace(s[|t| + 1]) ==> i <= |t| + 1;
    assert r == s[i..];
    if i <= |t| {
      assert r == t[i..] + ['\n'] + p;
      SplitAppend(t[i..], p, '\n');
    } else {
      assert r == p;
      SplitPlain(p, '\n');
    }
  }

  // ---------------------------------------------------------------------------
  // SSHTarget (lines 90-105)
  // ---------------------------------------------------------------------------

  /** What `get_prompt` returns: `'Failed'` when the connection failed, else
      the banner and the prompt. */
  datatype PromptResult = Failed | Learned(serverVersion: string, prompt: string)

  /** One device to poll, built from a work item. */
  class SSHTarget {
    var alias: string
    var mgmt: string
    var reachable: bool
    var username: string
    var password: string
    var commands: seq<string>
    var serverVersion: string
    var prompt: string

    /** `SSHTarget(info)`, with `get_prompt`'s outcome for `info["host"]`
        given. A failed connection leaves the device unreachable with banner
        and prompt `'Undefined'`. */
    constructor (info: WorkItem, presult: PromptResult)
      ensures alias == info.hostAlias && mgmt == info.host
      ensures username == info.username && password == info.password && commands == info.commands
      ensures reachable <==> presult.Learned?
      ensures presult.Failed? ==> serverVersion == "Undefined" && prompt == "Undefined"
      ensures presult.Learned? ==> serverVersion == presult.serverVersion && prompt == presult.prompt
    {
      alias := info.hostAlias;
      mgmt := info.host;
      username := info.username;
      password := info.password;
      commands := info.commands;
      if presult.Failed? {
        serverVersion, prompt := "Undefined", "Undefined";
        reachable := false;
      } else {
        serverVersion, prompt := presult.serverVersion, presult.prompt;
        reachable := true;
      }
    }
  }

  // ---------------------------------------------------------------------------
  // Reachable and unreachable devices (lines 377-378)
  // ---------------------------------------------------------------------------

  function Aliases(ts: seq<SSHTarget>): (r: seq<string>)
    reads ts
    ensures |r| == |ts|
    decreases |ts|
  {
    if ts == [] then [] else Aliases(ts[..|ts| - 1]) + [ts[|ts| - 1].alias]
  }

  /** `[device.alias for device in processed_results if device.reachable]`
      for `want` true, and the `not device.reachable` list for `want` false. */
  function AliasesWhere(ts: seq<SSHTarget>, want: bool): seq<string>
    reads ts
    decreases |ts|
  {
    if ts == [] then []
    else
      var t := ts[|ts| - 1];
      AliasesWhere(ts[..|ts| - 1], want) + (if t.reachable == want then [t.alias] else [])
  }

  /** The two lists together hold every alias once. */
  lemma {:induction false} PartitionCount(ts: seq<SSHTarget>)
    ensures |AliasesWhere(ts, true)| + |AliasesWhere(ts, false)| == |ts|
    ensures multiset(AliasesWhere(ts, true)) + multiset(AliasesWhere(ts, false)) == multiset(Aliases(ts))
    decreases |ts|
  {
    if ts != [] {
      PartitionCount(ts[..|ts| - 1]);
    }
  }

  /** A target's alias is in the list its `reachable` flag names. */
  lemma {:induction false} PartitionComplete(ts: seq<SSHTarget>)
    ensures forall k :: 0 <= k < |ts| ==> ts[k].alias in AliasesWhere(ts, ts[k].reachable)
    decreases |ts|
  {
    if ts != [] {
      var n := |ts| - 1;
      PartitionComplete(ts[..n]);
      forall k | 0 <= k < |ts| ensures ts[k].alias in AliasesWhere(ts, ts[k].reachable) {
        if k < n {
          assert ts[k] == ts[..n][k];
        }
      }
    }
  }

  /** Every alias in a list belongs to a target with that flag. */
  lemma {:induction false} PartitionSound(ts: seq<SSHTarget>, want: bool)
    ensures forall a :: a in AliasesWhere(ts, want) ==> exists k :: 0 <= k < |ts| && ts[k].alias == a && ts[k].reachable == want
    decreases |ts|
  {
    if ts != [] {
      var n := |ts| - 1;
      PartitionSound(ts[..n], want);
      assert forall k :: 0 <= k < n ==> ts[k] == ts[..n][k];
    }
  }
}
