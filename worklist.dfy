/** `get_work`: merges the hosts of an inventory with the credential entries
    of a device group into the list of hosts to connect to. The credential set
    that `getEnv.getparam(workparams['credential_set'])` returns is passed in
    as `defaultCreds`. */
module Worklist {
  import opened Wrappers

  /** One entry of `workparams['hosts']`: `item.get("host")` and
      `item.get("commands")`. */
  datatype HostItem = HostItem(host: Option<string>, commands: Option<seq<string>>)

  /** The inventory: `workparams.get('groupcommands')` and
      `workparams['hosts']`. */
  datatype WorkParams = WorkParams(groupCommands: Option<seq<string>>, hosts: seq<HostItem>)

  /** One credential entry of the device group: `alias`, and the optional
      keys `username`, `password` and `mgmt_hostnameip`. */
  datatype CredEntry = CredEntry(alias: string, username: Option<string>, password: Option<string>, mgmtHostnameIp: Option<string>)

  /** The default credential set: its `username` and `password` keys. */
  datatype DefaultCreds = DefaultCreds(username: Option<string>, password: Option<string>)

  /** One element of the work list: `hostalias`, `host`, `username`,
      `password` and `commands`. */
  datatype WorkItem = WorkItem(hostAlias: string, host: string, username: string, password: string, commands: seq<string>)

  /** The `KeyError`s `get_work` can raise for a host it does not skip. */
  datatype WorkError =
    | NoDefault(key: string)   // the default set lacks `username` or `password`
    | NoMgmtAddress(alias: string) // the entry lacks `mgmt_hostnameip`

  // ---------------------------------------------------------------------------
  // The work list, as functions
  // ---------------------------------------------------------------------------

  /** The credential entry of a host: the first whose `alias` is `host`. */
  function FindCreds(creds: seq<CredEntry>, host: Option<string>): Option<CredEntry>
    decreases |creds|
  {
    if creds == [] then None
    else if host == Some(creds[0].alias) then Some(creds[0])
    else FindCreds(creds[1..], host)
  }

  /** `workparams.get('groupcommands')`, with `None` read as `[]`. */
  function GroupCommands(group: Option<seq<string>>): seq<string> {
    if group.Some? then group.value else []
  }

  /** `d.get(key, default)`: the entry's value when present, else the
      default. */
  function GetOr(v: Option<string>, default: string): string {
    if v.Some? then v.value else default
  }

  /** The work item of a host with credential entry `d`. The default of
      `device.get('username', default_creds["username"])` is evaluated before
      the lookup, so a missing default raises even for an entry that has the
      key. */
  function ItemFor(item: HostItem, d: CredEntry, defaults: DefaultCreds, group: Option<seq<string>>): Result<WorkItem, WorkError> {
    if defaults.username.None? then Failure(NoDefault("username"))
    else if defaults.password.None? then Failure(NoDefault("password"))
    else if d.mgmtHostnameIp.None? then Failure(NoMgmtAddress(d.alias))
    else
      var commands := if item.commands.None? then GroupCommands(group) else item.commands.value + GroupCommands(group);
      Success(WorkItem(d.alias, d.mgmtHostnameIp.value, GetOr(d.username, defaults.username.value),
                       GetOr(d.password, defaults.password.value), commands))
  }

  /** What one host contributes: nothing when it has no credential entry
      (`continue`), otherwise its work item. */
  function HostWork(item: HostItem, creds: seq<CredEntry>, defaults: DefaultCreds, group: Option<seq<string>>): Result<seq<WorkItem>, WorkError> {
    match FindCreds(creds, item.host)
    case None => Success([])
    case Some(d) =>
      var w :- ItemFor(item, d, defaults, group);
      Success([w])
  }

  /** The work list for the hosts in order. */
  function Work(hosts: seq<HostItem>, creds: seq<CredEntry>, defaults: DefaultCreds, group: Option<seq<string>>): Result<seq<WorkItem>, WorkError>
    decreases |hosts|
  {
    if hosts == [] then Success([])
    else
      var n := |hosts| - 1;
      Then(Work(hosts[..n], creds, defaults, group), HostWork(hosts[n], creds, defaults, group))
  }

  /** The hosts that have a credential entry, in order, each with its
      entry. */
  function Matched(hosts: seq<HostItem>, creds: seq<CredEntry>): seq<(HostItem, CredEntry)>
    decreases |hosts|
  {
    if hosts == [] then []
    else
      var n := |hosts| - 1;
      var found := FindCreds(creds, hosts[n].host);
      Matched(hosts[..n], creds) + (if found.Some? then [(hosts[n], found.value)] else [])
  }

  // ---------------------------------------------------------------------------
  // The method (lines 303-340)
  // ---------------------------------------------------------------------------

  /** The body of the loop at lines 325-338 for a host with entry `device`;
      `groupcommands` is the list read at lines 307-308. */
  method BuildItem(item: HostItem, device: CredEntry, defaultCreds: DefaultCreds, groupcommands: seq<string>)
    returns (r: Result<WorkItem, WorkError>)
    ensures r == ItemFor(item, device, defaultCreds, Some(groupcommands))
  {
    if defaultCreds.username.None? {
      return Failure(NoDefault("username"));
    }
    var username := if device.username.Some? then device.username.value else defaultCreds.username.value;
    if defaultCreds.password.None? {
      return Failure(NoDefault("password"));
    }
    var password := if device.password.Some? then device.password.value else defaultCreds.password.value;
    if device.mgmtHostnameIp.None? {
      return Failure(NoMgmtAddress(device.alias));
    }
    var mgmthostnameip := device.mgmtHostnameIp.value;
    var commands;
    if item.commands.None? {
      commands := groupcommands;
    } else {
      commands := item.commands.value + groupcommands;
    }
    return Success(WorkItem(device.alias, mgmthostnameip, username, password, commands));
  }

  /** An item depends on the group commands only through the list they
      give. */
  lemma ItemForGroup(item: HostItem, d: CredEntry, defaults: DefaultCreds, g: Option<seq<string>>, h: Option<seq<string>>)
    requires GroupCommands(g) == GroupCommands(h)
    ensures ItemFor(item, d, defaults, g) == ItemFor(item, d, defaults, h)
  {
  }

  /** `get_work(workparams, devicecreds)`. */
  method GetWork(workparams: WorkParams, devicecreds: seq<CredEntry>, defaultCreds: DefaultCreds)
    returns (r: Result<seq<WorkItem>, WorkError>)
    ensures r == Work(workparams.hosts, devicecreds, defaultCreds, workparams.groupCommands)
  {
    hide ItemFor;
    var groupcommands := if workparams.groupCommands.None? then [] else workparams.groupCommands.value;
    assert GroupCommands(Some(groupcommands)) == GroupCommands(workparams.groupCommands);
    var hosts := workparams.hosts;
    var worklist: seq<WorkItem> := [];
    for i := 0 to |hosts|
      invariant Work(hosts[..i], devicecreds, defaultCreds, workparams.groupCommands) == Success(worklist)
    {
      assert hosts[..i + 1][..i] == hosts[..i];
      var item := hosts[i];
      var found := FindCreds(devicecreds, item.host);
      if found.None? {
        assert worklist + [] == worklist;
        continue;
      }
      var w := BuildItem(item, found.value, defaultCreds, groupcommands);
      ItemForGroup(item, found.value, defaultCreds, Some(groupcommands), workparams.groupCommands);
      if w.Failure? {
        WorkPrefixFailure(hosts, devicecreds, defaultCreds, workparams.groupCommands, i + 1);
        return Failure(w.error);
      }
      worklist := worklist + [w.value];
    }
    assert hosts[..|hosts|] == hosts;
    return Success(worklist);
  }

  // ---------------------------------------------------------------------------
  // Order and the first exception
  // ---------------------------------------------------------------------------

  lemma {:induction false} WorkConcat(a: seq<HostItem>, b: seq<HostItem>, creds: seq<CredEntry>, defaults: DefaultCreds, group: Option<seq<string>>)
    ensures Work(a + b, creds, defaults, group) == Then(Work(a, creds, defaults, group), Work(b, creds, defaults, group))
    decreases |b|
  {
    if b == [] {
      assert a + b == a;
      ThenUnit(Work(a, creds, defaults, group));
    } else {
      var n := |b| - 1;
      assert (a + b)[..|a + b| - 1] == a + b[..n];
      WorkConcat(a, b[..n], creds, defaults, group);
      ThenAssociative(Work(a, creds, defaults, group), Work(b[..n], creds, defaults, group), HostWork(b[n], creds, defaults, group));
    }
  }

  lemma WorkPrefixFailure(hosts: seq<HostItem>, creds: seq<CredEntry>, defaults: DefaultCreds, group: Option<seq<string>>, i: nat)
    requires i <= |hosts| && Work(hosts[..i], creds, defaults, group).Failure?
    ensures Work(hosts, creds, defaults, group) == Work(hosts[..i], creds, defaults, group)
  {
    assert hosts == hosts[..i] + hosts[i..];
    WorkConcat(hosts[..i], hosts[i..], creds, defaults, group);
  }

  // ---------------------------------------------------------------------------
  // What the work list is
  // ---------------------------------------------------------------------------

  /** A host has no entry exactly when no `alias` is its name, and otherwise
      gets the first entry with its name. */
  lemma {:induction false} FindCredsFirst(creds: seq<CredEntry>, host: Option<string>) returns (i: nat)
    ensures FindCreds(creds, host).None? <==> forall k :: 0 <= k < |creds| ==> host != Some(creds[k].alias)
    ensures FindCreds(creds, host).Some? ==>
      && i < |creds|
      && FindCreds(creds, host).value == creds[i]
      && host == Some(creds[i].alias)
      && forall k :: 0 <= k < i ==> host != Some(creds[k].alias)
    decreases |creds|
  {
    if creds == [] || host == Some(creds[0].alias) {
      i := 0;
    } else {
      var j := FindCredsFirst(creds[1..], host);
      i := j + 1;
      assert forall k :: 1 <= k < |creds| ==> creds[k] == creds[1..][k - 1];
    }
  }

  /** The work list holds one item per host with a credential entry, in host
      order, and it is built exactly when every such host's item can be. */
  lemma {:induction false} WorkMatched(hosts: seq<HostItem>, creds: seq<CredEntry>, defaults: DefaultCreds, group: Option<seq<string>>)
    ensures Work(hosts, creds, defaults, group).Success? <==>
      forall k :: 0 <= k < |Matched(hosts, creds)| ==>
        ItemFor(Matched(hosts, creds)[k].0, Matched(hosts, creds)[k].1, defaults, group).Success?
    ensures Work(hosts, creds, defaults, group).Success? ==>
      && |Work(hosts, creds, defaults, group).value| == |Matched(hosts, creds)|
      && forall k :: 0 <= k < |Matched(hosts, creds)| ==>
           Work(hosts, creds, defaults, group).value[k] ==
           ItemFor(Matched(hosts, creds)[k].0, Matched(hosts, creds)[k].1, defaults, group).value
    decreases |hosts|
  {
    if hosts != [] {
      var n := |hosts| - 1;
      WorkMatched(hosts[..n], creds, defaults, group);
      var prev := Matched(hosts[..n], creds);
      var found := FindCreds(creds, hosts[n].host);
      if found.Some? {
        var all := Matched(hosts, creds);
        assert all == prev + [(hosts[n], found.value)];
        assert forall k :: 0 <= k < |prev| ==> all[k] == prev[k];
        assert all[|prev|] == (hosts[n], found.value);
      } else {
        assert Matched(hosts, creds) == prev;
      }
    }
  }

  /** Every matched pair is a host and its credential entry; every host with
      an entry is matched. */
  lemma {:induction false} MatchedSpec(hosts: seq<HostItem>, creds: seq<CredEntry>)
    ensures forall k :: 0 <= k < |Matched(hosts, creds)| ==>
      && Matched(hosts, creds)[k].0 in hosts
      && FindCreds(creds, Matched(hosts, creds)[k].0.host) == Some(Matched(hosts, creds)[k].1)
    ensures forall h :: h in hosts && FindCreds(creds, h.host).Some? ==> (h, FindCreds(creds, h.host).value) in Matched(hosts, creds)
    ensures |Matched(hosts, creds)| <= |hosts|
    decreases |hosts|
  {
    if hosts != [] {
      var n := |hosts| - 1;
      MatchedSpec(hosts[..n], creds);
      assert hosts == hosts[..n] + [hosts[n]];
    }
  }

  /** A host's item: the credential entry's `alias` and `mgmt_hostnameip`;
      the entry's `username` and `password` when present, the defaults
      otherwise, and both defaults must exist in any case; the host's own
      commands followed by the group commands. */
  lemma ItemForSpec(item: HostItem, d: CredEntry, defaults: DefaultCreds, group: Option<seq<string>>)
    ensures ItemFor(item, d, defaults, group).Success? <==>
      defaults.username.Some? && defaults.password.Some? && d.mgmtHostnameIp.Some?
    ensures ItemFor(item, d, defaults, group).Success? ==>
      var w := ItemFor(item, d, defaults, group).value;
      && w.hostAlias == d.alias
      && Some(w.host) == d.mgmtHostnameIp
      && (d.username.Some? ==> Some(w.username) == d.username)
      && (d.username.None? ==> Some(w.username) == defaults.username)
      && (d.password.Some? ==> Some(w.password) == d.password)
      && (d.password.None? ==> Some(w.password) == defaults.password)
      && (item.commands.Some? ==> w.commands[..|item.commands.value|] == item.commands.value)
      && w.commands[|w.commands| - |GroupCommands(group)|..] == GroupCommands(group)
      && |w.commands| == (if item.commands.Some? then |item.commands.value| else 0) + (if group.Some? then |group.value| else 0)
    ensures ItemFor(item, d, defaults, group).Success? && item.commands.None? && group.None? ==>
      ItemFor(item, d, defaults, group).value.commands == []
  {
  }

  /** A host without a credential entry adds nothing and changes nothing. */
  lemma SkippedHost(hosts: seq<HostItem>, h: HostItem, creds: seq<CredEntry>, defaults: DefaultCreds, group: Option<seq<string>>)
    requires forall k :: 0 <= k < |creds| ==> h.host != Some(creds[k].alias)
    ensures Work(hosts + [h], creds, defaults, group) == Work(hosts, creds, defaults, group)
    ensures Matched(hosts + [h], creds) == Matched(hosts, creds)
  {
    var _ := FindCredsFirst(creds, h.host);
    assert (hosts + [h])[..|hosts|] == hosts;
    ThenUnit(Work(hosts, creds, defaults, group));
  }
}
