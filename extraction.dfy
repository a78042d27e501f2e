/** `extract_matches`: applies the parse spec named by each captured command
    output and builds measurement lists `[alias, measurement, (name, kind,
    valuetype, value), ...]`. The regular-expression engine is not modelled:
    what `re.search` and `re.findall` return for a pattern and a text is given
    by a `Matcher`. */
module Extraction {
  import opened Wrappers
  import opened PyText
  import opened Records
  import opened Seqs

  // ---------------------------------------------------------------------------
  // Parse specs and captured output
  // ---------------------------------------------------------------------------

  /** What a spec says about one capture group: `match{i}`, `match{i}keytype`
      and `match{i}valuetype` (or `groupname`, `groupkeytype`,
      `groupvaluetype` in an iterative spec). */
  datatype GroupMeta = GroupMeta(name: string, keyType: string, valueType: string)

  /** One `statictags` entry: `tagname` and `tagvalue`. */
  datatype StaticTag = StaticTag(tagName: string, tagValue: string)

  /** One entry of `regexmatches`: a pattern whose first group gives one
      value, or (with a `groups` key) a pattern whose every match gives the
      value of the next declared slot. */
  datatype GroupSpec =
    | Scalar(regex: string, meta: GroupMeta)
    | Repeating(regex: string, slots: seq<GroupMeta>)

  /** `matchtype` with the keys it uses. In `Single` and `Multiple` the
      metadata of group `i` is `groups[i - 1]`; a group past the end has no
      `match{i}` key. Any other `matchtype` produces nothing. */
  datatype MatchType =
    | Single(regex: string, groups: seq<GroupMeta>)
    | Multiple(regex: string, groups: seq<GroupMeta>)
    | Iterative(regexMatches: seq<GroupSpec>)
    | Unrecognised(matchType: string)

  /** One parse spec; `statictags` missing or empty is the empty sequence. */
  datatype ParseSpec = ParseSpec(name: string, measurement: string, staticTags: seq<StaticTag>, matchType: MatchType)

  /** One `(alias, command, parsespec, result)` tuple of `run_commands`. */
  datatype Output = Output(alias: string, command: string, specRef: string, text: string)

  /** The regular-expression engine, as seen by the program: `search(p, t)`
      gives the groups of the first match of `p` in `t` (`None` for a group
      that did not take part), or `None`; `findAll(p, t)` gives the group
      tuple of every match, a one-element tuple standing for the plain string
      Python returns for a pattern with at most one group. */
  datatype Matcher = Matcher(
    search: (string, string) -> Option<seq<Option<string>>>,
    findAll: (string, string) -> seq<seq<string>>)

  /** The exceptions `extract_matches` can raise. */
  datatype ExtractError =
    | ResultsMissing       // a host's `run_commands` returned `None`
    | NoParseSpec(ref: string) // no spec has this `parsespec` name
    | NoGroupMeta(index: nat)  // a group with no `match{index}` key
    | NoSuchGroup          // `group(1)` of a pattern without groups
    | GroupUnmatched       // `group(1)` is `None`, which has no `strip`
    | NoGroupSlot(count: nat)  // a match past the declared `groups`
    | NotText              // a tuple from `findall`, which has no `strip`

  type Batch = seq<seq<Item>>

  // ---------------------------------------------------------------------------
  // The records of one output, as functions
  // ---------------------------------------------------------------------------

  /** The spec used for an output: the first one whose `parsespec` is `ref`. */
  function FindSpec(specs: seq<ParseSpec>, ref: string): Result<ParseSpec, ExtractError>
    decreases |specs|
  {
    if specs == [] then Failure(NoParseSpec(ref))
    else if specs[0].name == ref then Success(specs[0])
    else FindSpec(specs[1..], ref)
  }

  /** The start of every list: `[output[0], parsespec["measurement"]]`. */
  function Head(alias: string, spec: ParseSpec): seq<Item> {
    [Str(alias), Str(spec.measurement)]
  }

  function StaticItem(t: StaticTag): Item {
    Tup(Entry(t.tagName, "tag", "string", t.tagValue))
  }

  function GroupItem(meta: GroupMeta, value: string): Item {
    Tup(Entry(meta.name, meta.keyType, meta.valueType, value))
  }

  /** `f'{item}'` of a search group: a group that did not take part is `None`. */
  function GroupText(g: Option<string>): string {
    if g.Some? then g.value else "None"
  }

  /** Group `i + 1` with value `values[i]` and the metadata `groups[i]`. */
  function GroupEntries(groups: seq<GroupMeta>, values: seq<string>): (r: seq<Item>)
    requires |values| <= |groups|
    ensures |r| == |values|
    decreases |values|
  {
    if values == [] then []
    else
      var n := |values| - 1;
      GroupEntries(groups, values[..n]) + [GroupItem(groups[n], values[n])]
  }

  /** The entries for the groups of one match; the first group without
      metadata raises the `KeyError`. */
  function GroupItems(groups: seq<GroupMeta>, values: seq<string>): Result<seq<Item>, ExtractError> {
    if |values| > |groups| then Failure(NoGroupMeta(|groups| + 1))
    else Success(GroupEntries(groups, values))
  }

  /** `single`: one list for a match, none without one. */
  function SingleRecords(prefix: seq<Item>, groups: seq<GroupMeta>, found: Option<seq<Option<string>>>): Result<Batch, ExtractError> {
    match found
    case None => Success([])
    case Some(gs) =>
      var items :- GroupItems(groups, MapSeq(GroupText, gs));
      Success([prefix + items])
  }

  /** The list one `findall` match gives in `multiple` mode, restarted from
      the head. */
  function MatchRecord(head: seq<Item>, groups: seq<GroupMeta>, values: seq<string>): Result<Batch, ExtractError> {
    var items :- GroupItems(groups, values);
    Success([head + items])
  }

  /** `multiple`: one list per match, in match order. */
  function MultipleRecords(head: seq<Item>, groups: seq<GroupMeta>, matches: seq<seq<string>>): Result<Batch, ExtractError>
    decreases |matches|
  {
    if matches == [] then Success([])
    else
      var n := |matches| - 1;
      Then(MultipleRecords(head, groups, matches[..n]), MatchRecord(head, groups, matches[n]))
  }

  /** The entry the match at position `c` of a `groups` spec gives: slot `c`
      with the match stripped. */
  function SlotItem(slots: seq<GroupMeta>, c: nat, values: seq<string>): Result<seq<Item>, ExtractError> {
    if c >= |slots| then Failure(NoGroupSlot(c))
    else if |values| != 1 then Failure(NotText)
    else Success([GroupItem(slots[c], Strip(values[0]))])
  }

  /** The entries of a `groups` spec, one per match, in match order. */
  function SlotItems(slots: seq<GroupMeta>, matches: seq<seq<string>>): Result<seq<Item>, ExtractError>
    decreases |matches|
  {
    if matches == [] then Success([])
    else
      var c := |matches| - 1;
      Then(SlotItems(slots, matches[..c]), SlotItem(slots, c, matches[c]))
  }

  /** The entries of one `regexmatches` entry: the stripped first group of a
      scalar pattern (nothing without a match), or the entries of a `groups`
      spec. */
  function SpecItems(g: GroupSpec, m: Matcher, text: string): Result<seq<Item>, ExtractError> {
    match g
    case Scalar(regex, meta) =>
      (match m.search(regex, text)
       case None => Success([])
       case Some(gs) =>
         if gs == [] then Failure(NoSuchGroup)
         else if gs[0].None? then Failure(GroupUnmatched)
         else Success([GroupItem(meta, Strip(gs[0].value))]))
    case Repeating(regex, slots) => SlotItems(slots, m.findAll(regex, text))
  }

  /** `iterative`: the entries of every `regexmatches` entry, in order. */
  function IterativeItems(specs: seq<GroupSpec>, m: Matcher, text: string): Result<seq<Item>, ExtractError>
    decreases |specs|
  {
    if specs == [] then Success([])
    else
      var n := |specs| - 1;
      Then(IterativeItems(specs[..n], m, text), SpecItems(specs[n], m, text))
  }

  /** The lists built for one output. */
  function OutputRecords(specs: seq<ParseSpec>, o: Output, m: Matcher): Result<Batch, ExtractError> {
    var spec :- FindSpec(specs, o.specRef);
    var head := Head(o.alias, spec);
    match spec.matchType
    case Single(regex, groups) =>
      SingleRecords(head + MapSeq(StaticItem, spec.staticTags), groups, m.search(regex, o.text))
    case Multiple(regex, groups) =>
      MultipleRecords(head, groups, m.findAll(regex, o.text))
    case Iterative(gs) =>
      var items :- IterativeItems(gs, m, o.text);
      Success([head + items])
    case Unrecognised(_) => Success([])
  }

  /** The lists built for the outputs of one host, in order. */
  function DeviceRecords(specs: seq<ParseSpec>, outputs: seq<Output>, m: Matcher): Result<Batch, ExtractError>
    decreases |outputs|
  {
    if outputs == [] then Success([])
    else
      var n := |outputs| - 1;
      Then(DeviceRecords(specs, outputs[..n], m), OutputRecords(specs, outputs[n], m))
  }

  /** The lists built for one host; a host whose `run_commands` returned
      `None` raises when the loop tries to go through it. */
  function HostRecords(specs: seq<ParseSpec>, results: Option<seq<Output>>, m: Matcher): Result<Batch, ExtractError> {
    match results
    case None => Failure(ResultsMissing)
    case Some(outputs) => DeviceRecords(specs, outputs, m)
  }

  /** `extract_matches(parsespecs, aggregate_output)`: the lists of every
      host, in order. */
  function ExtractAll(specs: seq<ParseSpec>, aggregate: seq<Option<seq<Output>>>, m: Matcher): Result<Batch, ExtractError>
    decreases |aggregate|
  {
    if aggregate == [] then Success([])
    else
      var n := |aggregate| - 1;
      Then(ExtractAll(specs, aggregate[..n], m), HostRecords(specs, aggregate[n], m))
  }

  // ---------------------------------------------------------------------------
  // What the records are
  // ---------------------------------------------------------------------------

  /** The spec lookup fails, with the `IndexError` of `[...][0]`, exactly when
      no spec carries the name, and otherwise finds the first that does. */
  lemma {:induction false} FindSpecFirst(specs: seq<ParseSpec>, ref: string) returns (i: nat)
    ensures FindSpec(specs, ref).Failure? <==> forall k :: 0 <= k < |specs| ==> specs[k].name != ref
    ensures FindSpec(specs, ref).Failure? ==> FindSpec(specs, ref).error == NoParseSpec(ref)
    ensures FindSpec(specs, ref).Success? ==>
      && i < |specs|
      && FindSpec(specs, ref).value == specs[i]
      && specs[i].name == ref
      && forall k :: 0 <= k < i ==> specs[k].name != ref
    decreases |specs|
  {
    if specs == [] || specs[0].name == ref {
      i := 0;
    } else {
      var j := FindSpecFirst(specs[1..], ref);
      i := j + 1;
      assert forall k :: 1 <= k < |specs| ==> specs[k] == specs[1..][k - 1];
    }
  }

  lemma {:induction false} GroupEntriesAt(groups: seq<GroupMeta>, values: seq<string>, i: nat)
    requires |values| <= |groups| && i < |values|
    ensures GroupEntries(groups, values)[i] == GroupItem(groups[i], values[i])
    decreases |values|
  {
    if i < |values| - 1 {
      GroupEntriesAt(groups, values[..|values| - 1], i);
    }
  }

  /** `single`: no list without a match, the `KeyError` for a group without
      metadata, and otherwise one list: the head, every static tag in order,
      then every group in order under its `match{i}` keys, `None` groups as
      the text `"None"`. */
  lemma SingleMode(specs: seq<ParseSpec>, o: Output, m: Matcher, spec: ParseSpec, regex: string, groups: seq<GroupMeta>)
    requires FindSpec(specs, o.specRef) == Success(spec) && spec.matchType == Single(regex, groups)
    ensures m.search(regex, o.text).None? ==> OutputRecords(specs, o, m) == Success([])
    ensures m.search(regex, o.text).Some? && |m.search(regex, o.text).value| > |groups| ==>
      OutputRecords(specs, o, m) == Failure(NoGroupMeta(|groups| + 1))
    ensures m.search(regex, o.text).Some? && |m.search(regex, o.text).value| <= |groups| ==>
      && OutputRecords(specs, o, m).Success?
      && |OutputRecords(specs, o, m).value| == 1
      && SingleShape(OutputRecords(specs, o, m).value[0], o.alias, spec, groups, m.search(regex, o.text).value)
  {
    var found := m.search(regex, o.text);
    if found.Some? && |found.value| <= |groups| {
      SingleListShape(o.alias, spec, groups, found.value);
    }
  }

  lemma SingleListShape(alias: string, spec: ParseSpec, groups: seq<GroupMeta>, gs: seq<Option<string>>)
    requires |gs| <= |groups|
    ensures SingleShape(SingleList(alias, spec, groups, gs), alias, spec, groups, gs)
    ensures WellFormed(SingleList(alias, spec, groups, gs))
  {
    var st := spec.staticTags;
    var values := MapSeq(GroupText, gs);
    var statics := MapSeq(StaticItem, st);
    var entries := GroupEntries(groups, values);
    var r := Head(alias, spec) + statics + entries;
    forall k | 0 <= k < |st|
      ensures r[2 + k] == Tup(Entry(st[k].tagName, "tag", "string", st[k].tagValue))
    {
      assert r[2 + k] == statics[k];
      MapSeqAt(StaticItem, st, k);
    }
    forall k | 0 <= k < |gs|
      ensures r[2 + |st| + k] == Tup(Entry(groups[k].name, groups[k].keyType, groups[k].valueType, GroupText(gs[k])))
    {
      assert r[2 + |st| + k] == entries[k];
      MapSeqAt(GroupText, gs, k);
      GroupEntriesAt(groups, values, k);
    }
    StaticItemsTup(st);
    GroupEntriesTup(groups, values);
    forall k | 2 <= k < |r| ensures r[k].Tup? {
      if k < 2 + |st| {
        assert r[k] == statics[k - 2];
      } else {
        assert r[k] == entries[k - 2 - |st|];
      }
    }
  }

  /** The list `single` builds from a match with groups `gs`. */
  function SingleList(alias: string, spec: ParseSpec, groups: seq<GroupMeta>, gs: seq<Option<string>>): seq<Item>
    requires |gs| <= |groups|
  {
    Head(alias, spec) + MapSeq(StaticItem, spec.staticTags) + GroupEntries(groups, MapSeq(GroupText, gs))
  }

  /** What the list `single` builds from a match with groups `gs` holds. */
  predicate SingleShape(r: seq<Item>, alias: string, spec: ParseSpec, groups: seq<GroupMeta>, gs: seq<Option<string>>)
    requires |gs| <= |groups|
  {
    var st := spec.staticTags;
    && |r| == 2 + |st| + |gs|
    && r[0] == Str(alias)
    && r[1] == Str(spec.measurement)
    && (forall k :: 0 <= k < |st| ==> r[2 + k] == Tup(Entry(st[k].tagName, "tag", "string", st[k].tagValue)))
    && (forall k :: 0 <= k < |gs| ==>
          r[2 + |st| + k] == Tup(Entry(groups[k].name, groups[k].keyType, groups[k].valueType, GroupText(gs[k]))))
  }

  /** The lists of `multiple` mode: one per match, in order, or the
      `KeyError` of the first match with more groups than metadata. */
  lemma {:induction false} MultipleAll(head: seq<Item>, groups: seq<GroupMeta>, matches: seq<seq<string>>)
    ensures MultipleRecords(head, groups, matches).Success? <==> forall k :: 0 <= k < |matches| ==> |matches[k]| <= |groups|
    ensures MultipleRecords(head, groups, matches).Failure? ==>
      MultipleRecords(head, groups, matches).error == NoGroupMeta(|groups| + 1)
    ensures MultipleRecords(head, groups, matches).Success? ==>
      && |MultipleRecords(head, groups, matches).value| == |matches|
      && forall k :: 0 <= k < |matches| ==>
           |matches[k]| <= |groups| && MultipleRecords(head, groups, matches).value[k] == head + GroupEntries(groups, matches[k])
    decreases |matches|
  {
    if matches != [] {
      var n := |matches| - 1;
      var init := matches[..n];
      MultipleAll(head, groups, init);
      assert forall k :: 0 <= k < n ==> init[k] == matches[k];
    }
  }

  /** `multiple`: the static tags are dropped, since every match restarts
      from `[alias, measurement]`; each list then holds the groups of its
      match in order. */
  lemma MultipleMode(specs: seq<ParseSpec>, o: Output, m: Matcher, spec: ParseSpec, regex: string, groups: seq<GroupMeta>, matches: seq<seq<string>>)
    requires FindSpec(specs, o.specRef) == Success(spec) && spec.matchType == Multiple(regex, groups)
    requires matches == m.findAll(regex, o.text)
    ensures OutputRecords(specs, o, m).Success? <==> forall k :: 0 <= k < |matches| ==> |matches[k]| <= |groups|
    ensures OutputRecords(specs, o, m).Failure? ==> OutputRecords(specs, o, m).error == NoGroupMeta(|groups| + 1)
    ensures OutputRecords(specs, o, m).Success? ==>
      && |OutputRecords(specs, o, m).value| == |matches|
      && (forall k :: 0 <= k < |matches| ==>
           && |OutputRecords(specs, o, m).value[k]| == 2 + |matches[k]|
           && OutputRecords(specs, o, m).value[k][..2] == [Str(o.alias), Str(spec.measurement)])
      && forall k, i :: 0 <= k < |matches| && 0 <= i < |matches[k]| ==>
           OutputRecords(specs, o, m).value[k][2 + i] == GroupItem(groups[i], matches[k][i])
  {
    var head := Head(o.alias, spec);
    assert OutputRecords(specs, o, m) == MultipleRecords(head, groups, matches);
    MultipleAll(head, groups, matches);
    if OutputRecords(specs, o, m).Success? {
      var rs := OutputRecords(specs, o, m).value;
      forall k | 0 <= k < |matches|
        ensures |rs[k]| == 2 + |matches[k]| && rs[k][..2] == head
      {
        assert rs[k] == head + GroupEntries(groups, matches[k]);
      }
      forall k, i | 0 <= k < |matches| && 0 <= i < |matches[k]|
        ensures rs[k][2 + i] == GroupItem(groups[i], matches[k][i])
      {
        GroupEntriesAt(groups, matches[k], i);
      }
    }
  }

  /** The entries one `regexmatches` entry contributes on its own (`[]` for
      one that raises). */
  function SpecValue(g: GroupSpec, m: Matcher, text: string): seq<Item> {
    var r := SpecItems(g, m, text);
    if r.Success? then r.value else []
  }

  function SpecValues(gs: seq<GroupSpec>, m: Matcher, text: string): (r: seq<seq<Item>>)
    ensures |r| == |gs|
    decreases |gs|
  {
    if gs == [] then [] else SpecValues(gs[..|gs| - 1], m, text) + [SpecValue(gs[|gs| - 1], m, text)]
  }

  lemma {:induction false} SpecValuesAt(gs: seq<GroupSpec>, m: Matcher, text: string, k: nat)
    requires k < |gs|
    ensures SpecValues(gs, m, text)[k] == SpecValue(gs[k], m, text)
    decreases |gs|
  {
    if k < |gs| - 1 {
      SpecValuesAt(gs[..|gs| - 1], m, text, k);
    }
  }

  lemma FlattenSpecValuesStep(gs: seq<GroupSpec>, m: Matcher, text: string)
    requires gs != []
    ensures Flatten(SpecValues(gs, m, text)) == Flatten(SpecValues(gs[..|gs| - 1], m, text)) + SpecValue(gs[|gs| - 1], m, text)
  {
    var vs := SpecValues(gs, m, text);
    assert vs[..|vs| - 1] == SpecValues(gs[..|gs| - 1], m, text);
  }

  /** The loop over `regexmatches`: it succeeds exactly when every entry
      does, and then appends the entries' own contributions in declared
      order; otherwise it raises the error of the first entry that raises. */
  lemma {:induction false} IterativeItemsAll(gs: seq<GroupSpec>, m: Matcher, text: string) returns (n: nat)
    ensures IterativeItems(gs, m, text).Success? <==> forall k :: 0 <= k < |gs| ==> SpecItems(gs[k], m, text).Success?
    ensures IterativeItems(gs, m, text).Success? ==> IterativeItems(gs, m, text).value == Flatten(SpecValues(gs, m, text))
    ensures IterativeItems(gs, m, text).Failure? ==>
      && n < |gs|
      && SpecItems(gs[n], m, text).Failure?
      && IterativeItems(gs, m, text).error == SpecItems(gs[n], m, text).error
      && forall k :: 0 <= k < n ==> SpecItems(gs[k], m, text).Success?
    decreases |gs|
  {
    n := 0;
    if gs != [] {
      var c := |gs| - 1;
      var init := gs[..c];
      n := IterativeItemsAll(init, m, text);
      assert forall k :: 0 <= k < c ==> init[k] == gs[k];
      if IterativeItems(init, m, text).Success? {
        n := c;
        FlattenSpecValuesStep(gs, m, text);
      }
    }
  }

  /** `iterative`: one list, the head followed by what every `regexmatches`
      entry contributes, in declared order; the static tags are dropped. The
      list is built exactly when no entry raises, and otherwise the first
      entry that raises ends the call with its error. */
  lemma IterativeMode(specs: seq<ParseSpec>, o: Output, m: Matcher, spec: ParseSpec, gs: seq<GroupSpec>) returns (n: nat)
    requires FindSpec(specs, o.specRef) == Success(spec) && spec.matchType == Iterative(gs)
    ensures OutputRecords(specs, o, m).Success? <==> forall k :: 0 <= k < |gs| ==> SpecItems(gs[k], m, o.text).Success?
    ensures OutputRecords(specs, o, m).Failure? ==>
      && n < |gs|
      && SpecItems(gs[n], m, o.text).Failure?
      && OutputRecords(specs, o, m).error == SpecItems(gs[n], m, o.text).error
      && forall k :: 0 <= k < n ==> SpecItems(gs[k], m, o.text).Success?
    ensures OutputRecords(specs, o, m).Success? ==>
      OutputRecords(specs, o, m).value == [[Str(o.alias), Str(spec.measurement)] + Flatten(SpecValues(gs, m, o.text))]
  {
    n := IterativeItemsAll(gs, m, o.text);
  }

  /** A missing spec raises; an unknown `matchtype` produces nothing. */
  lemma OtherModes(specs: seq<ParseSpec>, o: Output, m: Matcher)
    ensures FindSpec(specs, o.specRef).Failure? ==> OutputRecords(specs, o, m) == Failure(NoParseSpec(o.specRef))
    ensures FindSpec(specs, o.specRef).Success? && FindSpec(specs, o.specRef).value.matchType.Unrecognised? ==>
      OutputRecords(specs, o, m) == Success([])
  {
    var _ := FindSpecFirst(specs, o.specRef);
  }

  /** A `groups` spec: its entries are slot `c` filled with match `c`
      stripped, and it succeeds exactly when there are no more matches than
      slots and every match is a plain string. */
  lemma {:induction false} SlotItemsAll(slots: seq<GroupMeta>, matches: seq<seq<string>>)
    ensures SlotItems(slots, matches).Success? <==>
      |matches| <= |slots| && forall k :: 0 <= k < |matches| ==> |matches[k]| == 1
    ensures SlotItems(slots, matches).Success? ==>
      && |SlotItems(slots, matches).value| == |matches|
      && forall k :: 0 <= k < |matches| ==> SlotItems(slots, matches).value[k] == GroupItem(slots[k], Strip(matches[k][0]))
    decreases |matches|
  {
    if matches != [] {
      var c := |matches| - 1;
      var init := matches[..c];
      SlotItemsAll(slots, init);
      assert forall k :: 0 <= k < c ==> init[k] == matches[k];
    }
  }

  /** More plain-string matches than declared slots raise the `IndexError`
      at the first match without a slot. */
  lemma SlotItemsOverflow(slots: seq<GroupMeta>, matches: seq<seq<string>>)
    requires |matches| > |slots|
    requires forall k :: 0 <= k < |matches| ==> |matches[k]| == 1
    ensures SlotItems(slots, matches) == Failure(NoGroupSlot(|slots|))
  {
    var c := |slots|;
    var upto := matches[..c + 1];
    assert upto[..c] == matches[..c];
    SlotItemsAll(slots, matches[..c]);
    assert SlotItems(slots, upto) == Failure(NoGroupSlot(c));
    SlotPrefixFailure(slots, matches, c + 1);
  }

  /** Any host whose `run_commands` returned `None` makes the whole call
      raise. */
  lemma ExtractAllMissing(specs: seq<ParseSpec>, aggregate: seq<Option<seq<Output>>>, m: Matcher, d: nat)
    requires d < |aggregate| && aggregate[d].None?
    ensures ExtractAll(specs, aggregate, m).Failure?
  {
    var upto := aggregate[..d + 1];
    assert upto[..d] == aggregate[..d];
    assert ExtractAll(specs, upto, m).Failure?;
    ExtractAllPrefixFailure(specs, aggregate, m, d + 1);
  }

  // ---------------------------------------------------------------------------
  // Every list has the shape `assemble_influx_lp` expects
  // ---------------------------------------------------------------------------

  predicate AllTup(items: seq<Item>) {
    forall k :: 0 <= k < |items| ==> items[k].Tup?
  }

  lemma {:induction false} GroupEntriesTup(groups: seq<GroupMeta>, values: seq<string>)
    requires |values| <= |groups|
    ensures AllTup(GroupEntries(groups, values))
  {
    forall k | 0 <= k < |values| ensures GroupEntries(groups, values)[k].Tup? {
      GroupEntriesAt(groups, values, k);
    }
  }

  lemma StaticItemsTup(st: seq<StaticTag>)
    ensures AllTup(MapSeq(StaticItem, st))
  {
    forall k | 0 <= k < |st| ensures MapSeq(StaticItem, st)[k].Tup? {
      MapSeqAt(StaticItem, st, k);
    }
  }

  lemma ThenTup(a: Result<seq<Item>, ExtractError>, b: Result<seq<Item>, ExtractError>)
    requires a.Success? ==> AllTup(a.value)
    requires b.Success? ==> AllTup(b.value)
    ensures Then(a, b).Success? ==> AllTup(Then(a, b).value)
  {
  }

  lemma ThenWellFormed(a: Result<Batch, ExtractError>, b: Result<Batch, ExtractError>)
    requires a.Success? ==> AllWellFormed(a.value)
    requires b.Success? ==> AllWellFormed(b.value)
    ensures Then(a, b).Success? ==> AllWellFormed(Then(a, b).value)
  {
    if a.Success? && b.Success? {
      var r := a.value + b.value;
      assert forall i :: |a.value| <= i < |r| ==> r[i] == b.value[i - |a.value|];
    }
  }

  lemma {:induction false} IterativeItemsTup(gs: seq<GroupSpec>, m: Matcher, text: string)
    ensures IterativeItems(gs, m, text).Success? ==> AllTup(IterativeItems(gs, m, text).value)
    decreases |gs|
  {
    if gs != [] {
      var n := |gs| - 1;
      IterativeItemsTup(gs[..n], m, text);
      var g := gs[n];
      if g.Repeating? {
        SlotItemsAll(g.slots, m.findAll(g.regex, text));
      }
      ThenTup(IterativeItems(gs[..n], m, text), SpecItems(g, m, text));
    }
  }

  lemma {:induction false} MultipleWellFormed(head: seq<Item>, groups: seq<GroupMeta>, matches: seq<seq<string>>)
    requires WellFormed(head) && |head| == 2
    ensures MultipleRecords(head, groups, matches).Success? ==> AllWellFormed(MultipleRecords(head, groups, matches).value)
  {
    MultipleAll(head, groups, matches);
    if MultipleRecords(head, groups, matches).Success? {
      var rs := MultipleRecords(head, groups, matches).value;
      forall k | 0 <= k < |rs| ensures WellFormed(rs[k]) {
        GroupEntriesTup(groups, matches[k]);
      }
    }
  }

  /** Every list built for one output is `[alias, measurement, tuple...]`. */
  lemma OutputRecordsWellFormed(specs: seq<ParseSpec>, o: Output, m: Matcher)
    ensures OutputRecords(specs, o, m).Success? ==> AllWellFormed(OutputRecords(specs, o, m).value)
  {
    if FindSpec(specs, o.specRef).Success? {
      var spec := FindSpec(specs, o.specRef).value;
      var head := Head(o.alias, spec);
      match spec.matchType
      case Single(regex, groups) =>
        var found := m.search(regex, o.text);
        if found.Some? && |found.value| <= |groups| {
          SingleListShape(o.alias, spec, groups, found.value);
        }
      case Multiple(regex, groups) =>
        MultipleWellFormed(head, groups, m.findAll(regex, o.text));
      case Iterative(gs) =>
        IterativeItemsTup(gs, m, o.text);
      case Unrecognised(_) =>
    }
  }

  lemma {:induction false} DeviceRecordsWellFormed(specs: seq<ParseSpec>, outputs: seq<Output>, m: Matcher)
    ensures DeviceRecords(specs, outputs, m).Success? ==> AllWellFormed(DeviceRecords(specs, outputs, m).value)
    decreases |outputs|
  {
    if outputs != [] {
      var n := |outputs| - 1;
      DeviceRecordsWellFormed(specs, outputs[..n], m);
      OutputRecordsWellFormed(specs, outputs[n], m);
      ThenWellFormed(DeviceRecords(specs, outputs[..n], m), OutputRecords(specs, outputs[n], m));
    }
  }

  /** Every list `extract_matches` returns is `[alias, measurement,
      tuple...]`, the shape `assemble_influx_lp` pops and reads. */
  lemma {:induction false} ExtractAllWellFormed(specs: seq<ParseSpec>, aggregate: seq<Option<seq<Output>>>, m: Matcher)
    ensures ExtractAll(specs, aggregate, m).Success? ==> AllWellFormed(ExtractAll(specs, aggregate, m).value)
    decreases |aggregate|
  {
    if aggregate != [] {
      var n := |aggregate| - 1;
      ExtractAllWellFormed(specs, aggregate[..n], m);
      if aggregate[n].Some? {
        DeviceRecordsWellFormed(specs, aggregate[n].value, m);
      }
      ThenWellFormed(ExtractAll(specs, aggregate[..n], m), HostRecords(specs, aggregate[n], m));
    }
  }

  // ---------------------------------------------------------------------------
  // The method (lines 394-517)
  // ---------------------------------------------------------------------------

  /** The loop at lines 415-419: one `(tagname, 'tag', 'string', tagvalue)`
      tuple per static tag, in order. */
  method AppendStaticTags(measurement: seq<Item>, tags: seq<StaticTag>) returns (r: seq<Item>)
    ensures r == measurement + MapSeq(StaticItem, tags)
  {
    r := measurement;
    for k := 0 to |tags|
      invariant r == measurement + MapSeq(StaticItem, tags[..k])
    {
      MapSeqStep(StaticItem, tags, k);
      ConcatAssoc(measurement, MapSeq(StaticItem, tags[..k]), [StaticItem(tags[k])]);
      r := r + [Tup(Entry(tags[k].tagName, "tag", "string", tags[k].tagValue))];
    }
    assert tags[..|tags|] == tags;
  }

  /** The inner loops at lines 437-449 and 464-477: group `index` goes under
      the keys `match{index}`, `match{index}keytype` and `match{index}valuetype`,
      and a missing key raises. */
  method AppendGroups(measurement: seq<Item>, groups: seq<GroupMeta>, values: seq<string>)
    returns (r: Result<seq<Item>, ExtractError>)
    ensures r == Then(Success(measurement), GroupItems(groups, values))
  {
    var acc := measurement;
    for i := 0 to |values|
      invariant i <= |groups|
      invariant acc == measurement + GroupEntries(groups, values[..i])
    {
      var index := i + 1;
      if index > |groups| {
        return Failure(NoGroupMeta(index));
      }
      assert values[..i + 1][..i] == values[..i];
      ConcatAssoc(measurement, GroupEntries(groups, values[..i]), [GroupItem(groups[i], values[i])]);
      acc := acc + [Tup(Entry(groups[i].name, groups[i].keyType, groups[i].valueType, values[i]))];
    }
    assert values[..|values|] == values;
    return Success(acc);
  }

  /** The loop at lines 460-478: one list per match, each restarted from the
      head. */
  method CollectMultiple(head: seq<Item>, groups: seq<GroupMeta>, matches: seq<seq<string>>)
    returns (r: Result<Batch, ExtractError>)
    ensures r == MultipleRecords(head, groups, matches)
  {
    var records: Batch := [];
    for k := 0 to |matches|
      invariant MultipleRecords(head, groups, matches[..k]) == Success(records)
    {
      assert matches[..k + 1][..k] == matches[..k];
      var measurement := AppendGroups(head, groups, matches[k]);
      if measurement.Failure? {
        MultiplePrefixFailure(head, groups, matches, k + 1);
        return Failure(measurement.error);
      }
      records := records + [measurement.value];
    }
    assert matches[..|matches|] == matches;
    return Success(records);
  }

  /** The loop at lines 498-502: the match at position `count` fills slot
      `count`; a match past the declared slots raises the `IndexError`. */
  method AppendSlots(measurement: seq<Item>, slots: seq<GroupMeta>, matches: seq<seq<string>>)
    returns (r: Result<seq<Item>, ExtractError>)
    ensures r == Then(Success(measurement), SlotItems(slots, matches))
  {
    var acc := measurement;
    for count := 0 to |matches|
      invariant SlotItems(slots, matches[..count]).Success?
      invariant acc == measurement + SlotItems(slots, matches[..count]).value
    {
      assert matches[..count + 1][..count] == matches[..count];
      if count >= |slots| || |matches[count]| != 1 {
        SlotPrefixFailure(slots, matches, count + 1);
        return Then(Success(measurement), SlotItems(slots, matches[..count + 1]));
      }
      ConcatAssoc(measurement, SlotItems(slots, matches[..count]).value, [GroupItem(slots[count], Strip(matches[count][0]))]);
      acc := acc + [Tup(Entry(slots[count].name, slots[count].keyType, slots[count].valueType, Strip(matches[count][0])))];
    }
    assert matches[..|matches|] == matches;
    return Success(acc);
  }

  /** One entry of `regexmatches` (lines 492-515): a `group` pattern adds one
      stripped group unless it does not match (`continue`), a `groups`
      pattern adds one entry per `findall` match. */
  method AppendSpec(measurement: seq<Item>, g: GroupSpec, m: Matcher, text: string)
    returns (r: Result<seq<Item>, ExtractError>)
    ensures r == Then(Success(measurement), SpecItems(g, m, text))
  {
    match g
    case Repeating(regex, slots) =>
      var x := m.findAll(regex, text);
      r := AppendSlots(measurement, slots, x);
    case Scalar(regex, meta) =>
      var x := m.search(regex, text);
      if x.None? {
        assert measurement + [] == measurement;
        return Success(measurement);
      } else if x.value == [] {
        return Failure(NoSuchGroup);
      } else if x.value[0].None? {
        return Failure(GroupUnmatched);
      }
      return Success(measurement + [Tup(Entry(meta.name, meta.keyType, meta.valueType, Strip(x.value[0].value)))]);
  }

  /** The loop at lines 489-515 over `regexmatches`. */
  method CollectIterative(head: seq<Item>, gs: seq<GroupSpec>, m: Matcher, text: string)
    returns (r: Result<seq<Item>, ExtractError>)
    ensures r == Then(Success(head), IterativeItems(gs, m, text))
  {
    var measurement := head;
    for n := 0 to |gs|
      invariant IterativeItems(gs[..n], m, text).Success?
      invariant measurement == head + IterativeItems(gs[..n], m, text).value
    {
      assert gs[..n + 1][..n] == gs[..n];
      ghost var done := IterativeItems(gs[..n], m, text).value;
      var step := AppendSpec(measurement, gs[n], m, text);
      if step.Failure? {
        IterativePrefixFailure(gs, m, text, n + 1);
        return step;
      }
      ConcatAssoc(head, done, SpecItems(gs[n], m, text).value);
      measurement := step.value;
    }
    assert gs[..|gs|] == gs;
    return Success(measurement);
  }

  /** The body of the inner loop (lines 400-516) for one output. */
  method ProcessOutput(parsespecs: seq<ParseSpec>, output: Output, m: Matcher)
    returns (r: Result<Batch, ExtractError>)
    ensures r == OutputRecords(parsespecs, output, m)
  {
    var found := FindSpec(parsespecs, output.specRef);
    if found.Failure? {
      return Failure(found.error);
    }
    var parsespec := found.value;
    var head := [Str(output.alias), Str(parsespec.measurement)];
    var measurement := AppendStaticTags(head, parsespec.staticTags);
    match parsespec.matchType
    case Single(regex, groups) =>
      var x := m.search(regex, output.text);
      if x.Some? {
        var full := AppendGroups(measurement, groups, MapSeq(GroupText, x.value));
        if full.Failure? {
          return Failure(full.error);
        }
        return Success([full.value]);
      }
      return Success([]);
    case Multiple(regex, groups) =>
      var matches := m.findAll(regex, output.text);
      r := CollectMultiple(head, groups, matches);
    case Iterative(regexmatches) =>
      var full := CollectIterative(head, regexmatches, m, output.text);
      if full.Failure? {
        return Failure(full.error);
      }
      return Success([full.value]);
    case Unrecognised(_) =>
      return Success([]);
  }

  /** `extract_matches`: the loops at lines 399-400 over every host and every
      output, appending to `measurements`; the first exception ends it. */
  method ExtractMatches(parsespecs: seq<ParseSpec>, aggregateOutput: seq<Option<seq<Output>>>, m: Matcher)
    returns (r: Result<Batch, ExtractError>)
    ensures r == ExtractAll(parsespecs, aggregateOutput, m)
  {
    var measurements: Batch := [];
    for d := 0 to |aggregateOutput|
      invariant ExtractAll(parsespecs, aggregateOutput[..d], m) == Success(measurements)
    {
      assert aggregateOutput[..d + 1][..d] == aggregateOutput[..d];
      if aggregateOutput[d].None? {
        ExtractAllPrefixFailure(parsespecs, aggregateOutput, m, d + 1);
        return Failure(ResultsMissing);
      }
      var deviceResults := aggregateOutput[d].value;
      var forDevice := CollectDevice(parsespecs, deviceResults, m);
      if forDevice.Failure? {
        ExtractAllPrefixFailure(parsespecs, aggregateOutput, m, d + 1);
        return Failure(forDevice.error);
      }
      measurements := measurements + forDevice.value;
    }
    assert aggregateOutput[..|aggregateOutput|] == aggregateOutput;
    return Success(measurements);
  }

  /** The loop at line 400 over the outputs of one host. */
  method CollectDevice(parsespecs: seq<ParseSpec>, outputs: seq<Output>, m: Matcher)
    returns (r: Result<Batch, ExtractError>)
    ensures r == DeviceRecords(parsespecs, outputs, m)
  {
    var records: Batch := [];
    for j := 0 to |outputs|
      invariant DeviceRecords(parsespecs, outputs[..j], m) == Success(records)
    {
      assert outputs[..j + 1][..j] == outputs[..j];
      var more := ProcessOutput(parsespecs, outputs[j], m);
      if more.Failure? {
        DevicePrefixFailure(parsespecs, outputs, m, j + 1);
        return Failure(more.error);
      }
      records := records + more.value;
    }
    assert outputs[..|outputs|] == outputs;
    return Success(records);
  }

  // ---------------------------------------------------------------------------
  // Order and the first exception
  // ---------------------------------------------------------------------------

  lemma {:induction false} ExtractAllConcat(specs: seq<ParseSpec>, a: seq<Option<seq<Output>>>, b: seq<Option<seq<Output>>>, m: Matcher)
    ensures ExtractAll(specs, a + b, m) == Then(ExtractAll(specs, a, m), ExtractAll(specs, b, m))
    decreases |b|
  {
    if b == [] {
      assert a + b == a;
      ThenUnit(ExtractAll(specs, a, m));
    } else {
      var n := |b| - 1;
      assert (a + b)[..|a + b| - 1] == a + b[..n];
      ExtractAllConcat(specs, a, b[..n], m);
      ThenAssociative(ExtractAll(specs, a, m), ExtractAll(specs, b[..n], m), HostRecords(specs, b[n], m));
    }
  }

  lemma ExtractAllPrefixFailure(specs: seq<ParseSpec>, aggregate: seq<Option<seq<Output>>>, m: Matcher, d: nat)
    requires d <= |aggregate| && ExtractAll(specs, aggregate[..d], m).Failure?
    ensures ExtractAll(specs, aggregate, m) == ExtractAll(specs, aggregate[..d], m)
  {
    assert aggregate == aggregate[..d] + aggregate[d..];
    ExtractAllConcat(specs, aggregate[..d], aggregate[d..], m);
  }

  lemma {:induction false} DeviceRecordsConcat(specs: seq<ParseSpec>, a: seq<Output>, b: seq<Output>, m: Matcher)
    ensures DeviceRecords(specs, a + b, m) == Then(DeviceRecords(specs, a, m), DeviceRecords(specs, b, m))
    decreases |b|
  {
    if b == [] {
      assert a + b == a;
      ThenUnit(DeviceRecords(specs, a, m));
    } else {
      var n := |b| - 1;
      assert (a + b)[..|a + b| - 1] == a + b[..n];
      DeviceRecordsConcat(specs, a, b[..n], m);
      ThenAssociative(DeviceRecords(specs, a, m), DeviceRecords(specs, b[..n], m), OutputRecords(specs, b[n], m));
    }
  }

  lemma DevicePrefixFailure(specs: seq<ParseSpec>, outputs: seq<Output>, m: Matcher, j: nat)
    requires j <= |outputs| && DeviceRecords(specs, outputs[..j], m).Failure?
    ensures DeviceRecords(specs, outputs, m) == DeviceRecords(specs, outputs[..j], m)
  {
    assert outputs == outputs[..j] + outputs[j..];
    DeviceRecordsConcat(specs, outputs[..j], outputs[j..], m);
  }

  lemma {:induction false} MultipleConcat(head: seq<Item>, groups: seq<GroupMeta>, a: seq<seq<string>>, b: seq<seq<string>>)
    ensures MultipleRecords(head, groups, a + b) == Then(MultipleRecords(head, groups, a), MultipleRecords(head, groups, b))
    decreases |b|
  {
    if b == [] {
      assert a + b == a;
      ThenUnit(MultipleRecords(head, groups, a));
    } else {
      var n := |b| - 1;
      assert (a + b)[..|a + b| - 1] == a + b[..n];
      MultipleConcat(head, groups, a, b[..n]);
      ThenAssociative(MultipleRecords(head, groups, a), MultipleRecords(head, groups, b[..n]), MatchRecord(head, groups, b[n]));
    }
  }

  lemma MultiplePrefixFailure(head: seq<Item>, groups: seq<GroupMeta>, matches: seq<seq<string>>, k: nat)
    requires k <= |matches| && MultipleRecords(head, groups, matches[..k]).Failure?
    ensures MultipleRecords(head, groups, matches) == MultipleRecords(head, groups, matches[..k])
  {
    assert matches == matches[..k] + matches[k..];
    MultipleConcat(head, groups, matches[..k], matches[k..]);
  }

  lemma {:induction false} IterativeConcat(a: seq<GroupSpec>, b: seq<GroupSpec>, m: Matcher, text: string)
    ensures IterativeItems(a + b, m, text) == Then(IterativeItems(a, m, text), IterativeItems(b, m, text))
    decreases |b|
  {
    if b == [] {
      assert a + b == a;
      ThenUnit(IterativeItems(a, m, text));
    } else {
      var n := |b| - 1;
      assert (a + b)[..|a + b| - 1] == a + b[..n];
      IterativeConcat(a, b[..n], m, text);
      ThenAssociative(IterativeItems(a, m, text), IterativeItems(b[..n], m, text), SpecItems(b[n], m, text));
    }
  }

  lemma IterativePrefixFailure(gs: seq<GroupSpec>, m: Matcher, text: string, n: nat)
    requires n <= |gs| && IterativeItems(gs[..n], m, text).Failure?
    ensures IterativeItems(gs, m, text) == IterativeItems(gs[..n], m, text)
  {
    assert gs == gs[..n] + gs[n..];
    IterativeConcat(gs[..n], gs[n..], m, text);
  }

  /** Once a `groups` spec has raised for a match, later matches change
      nothing. */
  lemma {:induction false} SlotPrefixFailure(slots: seq<GroupMeta>, matches: seq<seq<string>>, k: nat)
    requires k <= |matches| && SlotItems(slots, matches[..k]).Failure?
    ensures SlotItems(slots, matches) == SlotItems(slots, matches[..k])
    decreases |matches|
  {
    if k < |matches| {
      var c := |matches| - 1;
      assert matches[..c][..k] == matches[..k];
      SlotPrefixFailure(slots, matches[..c], k);
    } else {
      assert matches[..k] == matches;
    }
  }
}
