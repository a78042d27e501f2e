# SSH2Influx core, modelled in Dafny

SSH2Influx polls network devices over SSH on a schedule and forwards what it
reads to InfluxDB. One polling round works as follows:

- an inventory is merged with credential entries into a work list (`get_work`);
- each device's banner decides how its shell prompt is learned;
- the captured output of each command is matched against a parse spec
  (`extract_matches`). This yields measurement lists
  `[alias, measurement, (name, kind, valuetype, value), ...]`;
- those lists are turned into InfluxDB line-protocol text
  (`assemble_influx_lp`). This uses the program's own tag-escaping rule.

This project models that text-to-record-to-text core and proves what it does.

Modules, one per part of the program:

- `Wrappers`: `Option` and `Result`, and `Then`, which composes two steps that each produce a list. The first exception raised wins.
- `Seqs`: `MapSeq`, i.e. `[f(x) for x in xs]`.
- `PyText`: the Python `str` operations the code relies on: `isspace`, `strip`, `rstrip(c)`, `in`, `endswith` and `split(c)`. It also defines `join`, which the code never calls; it exists only for lemmas, to state the round trips of `split` and the comma-separated shape of a line.
- `Records`: the entry tuple, the measurement list, and `Measurement`, a class for the Python list that `assemble_influx_lp` changes with `pop(0)`.
- `LineProtocol`: `assemble_influx_lp` as a method over `Measurement` objects, specified by the function `Payload`.
- `Extraction`: `extract_matches` as nested-loop methods, specified by the function `ExtractAll`. What `re.search` and `re.findall` return is given by a `Matcher` value.
- `Worklist`: `get_work` as a loop method, specified by `Work`. The credential set `getEnv.getparam` would return is a parameter.
- `Session`: banner classification, prompt extraction and the `terminal length 0` test. It also holds `SSHTarget.__init__`, with the connection outcome as a parameter, and the reachable/unreachable split.
- `Pipeline`: `extract_matches` followed by `assemble_influx_lp`.

Every imperative method is proved equal to its specification function. The
lemmas then state what the source promises about those functions.

Where the code differs from what its authors intended, the model follows the code:

- A `groups` entry of an `iterative` spec raises `IndexError` when there are more matches than declared slots. The intended behaviour is to drop the excess matches silently. See `Extraction.SlotItemsOverflow`.
- Every captured value was meant to be trimmed. In `single` and `multiple` mode the values are not stripped; only `iterative` strips them.
- A trailing escaped space in a tag was meant to be stripped. That branch exists (lines 536-537), but the earlier `strip()` means it is never taken. See `LineProtocol.EscapeTagBranchUnreachable`.
- A banner naming Ubuntu was meant to give the Ubuntu prompt. The code checks `SSH-2.0-OpenSSH` first, so an OpenSSH banner that names Ubuntu has its prompt learned instead. See `Session.OpenSshBanner`.
- In `multiple` mode every match was meant to receive the static tags again. The code restarts each list from `[alias, measurement]` only (line 463), so `multiple` lists carry no static tags. See `Extraction.MultipleMode`.
- A prompt read that times out was meant to leave the prompt undefined and the device unreachable. The code catches the timeout and learns the empty prompt `''`, and the device stays reachable. See `Session.PromptReadTimeout` and `Session.SSHTarget.constructor`.
- Values in `single` and `multiple` mode are not stripped, and patterns are matched with `re.S`, so a captured value can hold a newline. Such a list then spreads over several lines of the payload. That is why `LineProtocol.PayloadSplitsIntoLines` and `Pipeline.RoundSpec` assume that no line holds a newline.
- Tag escaping is not idempotent. The intended behaviour is that a tag value which already holds an escaped space is left as it is. The code escapes the space again and keeps the backslash, so `CPU\ Load` becomes `CPU\\ Load`. See `LineProtocol.EscapeTagEscapedSpace` and `LineProtocol.EscapeTagEscapedSpaceExample`.
- Unreachable devices were meant to be left out of the collection and to be harmless. The intended behaviour is that only reachable devices have their commands run. The work list is never filtered by the reachable/unreachable split, so line 601 calls `run_commands` on unreachable devices too. A failure there is caught and returns `None` (lines 245-254), and the loop at line 400 then raises a `TypeError` that ends the whole round. See `Extraction.ExtractAllMissing`.
- Every record was meant to carry at least one field. The intended behaviour is that a list without fields produces no line. `iterative` mode always appends its list, even when no `regexmatches` entry contributed anything, and such a record's line ends in the space before the (empty) field part. See `Extraction.IterativeMode` and `LineProtocol.FieldlessLineEndsInSpace`.
- In `iterative` mode, as in `multiple` mode, every list was meant to receive the static tags. The intended behaviour is that they follow `[alias, measurement]`. The code restarts the list from `[alias, measurement]` at line 484, after the static tags were added, so `iterative` lists carry no static tags either. See `Extraction.IterativeMode`.

How failures are represented:

- An exception that ends `extract_matches` or `get_work` is a `Failure` value naming it.
- A host whose `run_commands` returned `None` makes the loop at line 400 raise a `TypeError`. This is `ResultsMissing`.

## Model

| member | source | states |
|---|---|---|
| LineProtocol.AssembleInfluxLp | SSH2Influx.py:520-552 | the result is each record's line followed by a newline, in input order, and every input list has lost exactly its first two elements, the rest unchanged |
| LineProtocol.FormatLine | SSH2Influx.py:526-548 | one record's line is built from its alias, measurement and entries after two `pop(0)` calls, which leave the list without its first two elements |
| LineProtocol.AppendTags | SSH2Influx.py:532-538 | appends every tag's escaped text followed by a comma, in tag order |
| LineProtocol.AppendFields | SSH2Influx.py:541-547 | appends every field's text followed by a comma, in field order; a `'string'` field is quoted |
| Records.Measurement.Pop | SSH2Influx.py:526-527 | `pop(0)` returns the first element and removes only that element |
| LineProtocol.LineShape | SSH2Influx.py:531-548 | a line is `measurement,device=alias`, then `,` and the escaped text of each `'tag'` entry in order, a space, then the `'field'` texts in order separated by commas |
| LineProtocol.FieldlessLineEndsInSpace | SSH2Influx.py:539-548 | a record with no field entry gives a line ending in the separating space |
| LineProtocol.OtherKindsDropped | SSH2Influx.py:528-529 | an entry whose kind is neither `'tag'` nor `'field'` does not change the line, wherever it stands among the entries |
| LineProtocol.OfKindConcat | SSH2Influx.py:528-529 | selecting the entries of one kind from two runs of entries gives those of the first run followed by those of the second |
| LineProtocol.OfKindMembers | SSH2Influx.py:528-529 | the tag (field) list holds exactly the entries of that kind |
| LineProtocol.EscapeTagBranchUnreachable | SSH2Influx.py:533-537 | the escaped tag text never ends in a backslash-space, so the remove-all branch is never taken; the text is non-empty and ends with the last non-blank character of `name=value` |
| LineProtocol.EscapeTagSpaceRuns | SSH2Influx.py:533-535 | for a tag value made of words without blanks or backslashes separated by any number of runs of spaces, each single space becomes a backslash-space and each run of two or more spaces disappears, whatever the number of runs (`CPU Load` gives `CPU\ Load`, `CPU  Load` gives `CPULoad`, `a b  c` gives `a\ bc`) |
| LineProtocol.EscapeTagEscapedSpace | SSH2Influx.py:533-535 | a tag value that already holds an escaped space `\ ` between plain words keeps its backslash and gets a second one, giving `\\ ` |
| LineProtocol.EscapeTagEscapedSpaceExample | SSH2Influx.py:533-535 | the tag `t` with value `CPU\ Load` gives `t=CPU\\ Load` |
| LineProtocol.CollapseKeepsLast | SSH2Influx.py:535 | the `re.sub` never removes a last character that is not blank |
| LineProtocol.EscapeSpacesNoSpace | SSH2Influx.py:533 | `replace(' ', '\ ')` leaves text without spaces unchanged |
| LineProtocol.PayloadConcat | SSH2Influx.py:523-550 | the payload of two batches is the first payload followed by the second; an empty batch gives `""` |
| LineProtocol.PayloadSplitsIntoLines | SSH2Influx.py:550 | when no record's line holds a newline, splitting the payload at newlines gives one line per record, in order, then one empty piece |
| LineProtocol.PayloadLinesAt | SSH2Influx.py:550 | when no record's line holds a newline, the payload splits into one more piece than there are records: piece i is the line of record i and the last piece is empty |
| PyText.StripSlice | SSH2Influx.py:533 | `strip()` keeps a contiguous slice, removes only whitespace around it, and leaves no whitespace at either end |
| PyText.RStripSpec | SSH2Influx.py:539 | `rstrip(',')` keeps a prefix, removes only commas after it, and leaves no comma at the end |
| PyText.JoinSplit | SSH2Influx.py:150 | joining the pieces of a `split` gives the text back |
| PyText.SplitJoin | SSH2Influx.py:150 | splitting a join of separator-free pieces gives the pieces back |
| PyText.SplitAppend | SSH2Influx.py:150 | the text after the last separator is the last piece of the split |
| Extraction.ExtractMatches | SSH2Influx.py:394-517 | the loops over hosts and outputs return exactly `ExtractAll`: the lists of every output in order, or the first exception |
| Extraction.CollectDevice | SSH2Influx.py:400-516 | the loop over one host's outputs returns that host's lists in output order, or the first exception |
| Extraction.ProcessOutput | SSH2Influx.py:401-516 | one output's spec lookup, static tags and match mode give exactly `OutputRecords` |
| Extraction.AppendStaticTags | SSH2Influx.py:411-419 | each static tag is appended as `(tagname, 'tag', 'string', tagvalue)`, in order |
| Extraction.AppendGroups | SSH2Influx.py:437-449 | group i is appended with the metadata `match{i}`; the first group without metadata raises the `KeyError` |
| Extraction.CollectMultiple | SSH2Influx.py:457-479 | one list per `findall` match, each restarted from `[alias, measurement]`, or the first `KeyError` |
| Extraction.AppendSlots | SSH2Influx.py:498-502 | match c fills declared slot c, stripped; a match past the slots raises |
| Extraction.AppendSpec | SSH2Influx.py:492-515 | one `regexmatches` entry adds its stripped group, nothing when the search fails, or its slot entries |
| Extraction.CollectIterative | SSH2Influx.py:482-516 | the entries of every `regexmatches` entry are appended in order after the head, or the first exception |
| Extraction.FindSpecFirst | SSH2Influx.py:405-406 | the lookup fails exactly when no spec has the name, and otherwise returns the first spec that does |
| Extraction.SingleMode | SSH2Influx.py:427-450 | no match gives no list; more groups than metadata raise; otherwise one list: head, static tags in order, then each group's unstripped text (`None` as `"None"`) with its `match{i}` keys |
| Extraction.SingleListShape | SSH2Influx.py:408-449 | the `single` list is well-formed and holds exactly the head, the static tags and the groups in order |
| Extraction.MultipleMode | SSH2Influx.py:452-479 | n matches give n lists in match order, each `[alias, measurement]` then its groups, static tags dropped; success exactly when no match has more groups than metadata |
| Extraction.MultipleAll | SSH2Influx.py:460-478 | the lists are one per match, entrywise, and the error is the `KeyError` on the first missing index |
| Extraction.IterativeMode | SSH2Influx.py:482-516 | exactly one list per output: `[alias, measurement]` followed by the contributions of the `regexmatches` entries in declared order, static tags dropped; built exactly when no entry raises, and otherwise failing with the error of the first entry that raises |
| Extraction.IterativeItemsAll | SSH2Influx.py:489-515 | the loop over `regexmatches` succeeds exactly when every entry does and then yields the entries' own contributions joined in order; otherwise it fails with the error of the first failing entry |
| Extraction.SlotItemsAll | SSH2Influx.py:492-502 | a `groups` entry succeeds exactly when there are no more matches than slots and each match is a plain string; entry c is slot c with match c stripped, and fewer matches leave later slots unused |
| Extraction.SlotItemsOverflow | SSH2Influx.py:498-502 | more plain matches than declared slots raise the `IndexError` at the first match without a slot |
| Extraction.OtherModes | SSH2Influx.py:405-427 | a missing spec raises the lookup error; an unknown `matchtype` gives no list |
| Extraction.ExtractAllMissing | SSH2Influx.py:399-400 | a host whose results are `None` makes the whole call raise |
| Extraction.ExtractAllConcat | SSH2Influx.py:399-400 | the lists of two runs of hosts are those of the first followed by those of the second, and the first exception wins |
| Extraction.DeviceRecordsConcat | SSH2Influx.py:400 | the same for the outputs of one host |
| Extraction.OutputRecordsWellFormed | SSH2Influx.py:408-516 | every list built for an output is `[alias, measurement, tuple...]` |
| Extraction.ExtractAllWellFormed | SSH2Influx.py:394-517 | every list returned has the shape that `assemble_influx_lp` pops and reads |
| Worklist.GetWork | SSH2Influx.py:303-340 | the loop over hosts returns exactly `Work`: one item per host with a credential entry, in order, or the first `KeyError` |
| Worklist.BuildItem | SSH2Influx.py:325-338 | one host's item: credentials from the entry or the defaults, `mgmt_hostnameip`, and the commands |
| Worklist.FindCredsFirst | SSH2Influx.py:318-323 | a host is skipped exactly when no entry has its alias, and otherwise the first such entry is used |
| Worklist.WorkMatched | SSH2Influx.py:313-340 | the work list has one item per matched host, in host order, and it is built exactly when every matched host's item can be |
| Worklist.MatchedSpec | SSH2Influx.py:314-323 | the matched hosts are exactly the hosts that have an entry, each paired with its entry, and never more than the hosts |
| Worklist.ItemForSpec | SSH2Influx.py:325-338 | username and password come from the entry when present, otherwise from the defaults, which must exist in every case; commands are the host's own followed by the group's, `[]` when neither has any |
| Worklist.SkippedHost | SSH2Influx.py:318-323 | a host without an entry adds nothing and changes nothing |
| Session.TerminalLengthImpliesLearned | SSH2Influx.py:191-193 | every banner that gets `terminal length 0` had its prompt learned, and the timed-out read of such a banner learns the empty prompt, by `PromptReadTimeout` |
| Session.OpenSshBanner | SSH2Influx.py:133-157 | an OpenSSH banner naming neither `Cisco` nor `PKIX`, even one naming Ubuntu, learns its prompt and gets no `terminal length 0` |
| Session.FixedPromptCases | SSH2Influx.py:152-157 | a fixed prompt is `:~$` for a banner naming Ubuntu and `$` otherwise, and such a banner gets no `terminal length 0` |
| Session.PromptSpec | SSH2Influx.py:150 | a learned prompt holds no newline and no blank at either end |
| Session.PromptOfLastLine | SSH2Influx.py:150 | when the capture ends in a line with non-blank ends, that line is the prompt |
| Session.SSHTarget.constructor | SSH2Influx.py:90-105 | a failed connection leaves the target unreachable with banner and prompt `'Undefined'`; otherwise both are taken from the connection, and all other fields from the work item |
| Session.PartitionCount | SSH2Influx.py:377-378 | the reachable and unreachable lists together hold every alias exactly once |
| Session.PartitionComplete | SSH2Influx.py:377-378 | each target's alias is in the list its `reachable` flag names |
| Session.PartitionSound | SSH2Influx.py:377-378 | each alias in a list belongs to a target with that flag |
| Pipeline.ProcessRound | SSH2Influx.py:606-608 | extraction followed by assembly on fresh list objects gives exactly `RoundPayload` |
| Pipeline.RoundSpec | SSH2Influx.py:606-608 | a round fails exactly when extraction raises, with its error; otherwise every list is well-formed, and when no line holds a newline the payload splits into one more piece than there are lists, piece i being the line of list i and the last one empty |
| Pipeline.RoundConcat | SSH2Influx.py:606-608 | a round over two runs of hosts gives the first payload followed by the second, and an exception in the first run ends it with that exception |
| Session.PromptReadTimeout | SSH2Influx.py:143-151 | a prompt read that times out learns the empty prompt rather than failing |

## Left out

- SSH I/O is not modelled (`asyncssh.connect`, `create_process`, `readuntil` with timeouts, `time.sleep`, `run_commands`). It is network plumbing; the banner, the captured text and `get_prompt`'s outcome are parameters instead.
- `Session.PromptFor` covers only the string logic of `_get_prompt`. The text `readuntil(delims)` captures is an input.
- The regular-expression engine is not modelled. `re.search` and `re.findall` results come from a `Matcher`. The one exception is the `re.sub` at line 535, which is written out as a left-to-right scan.
- Python's `findall` returns a plain string for a pattern with one group. In `multiple` mode that would make line 464 enumerate characters. The model keeps the tuple shape for `multiple` mode.
- Concurrency and scheduling are not modelled: the thread pools, `as_completed`, `run_threaded`, the `schedule` loop and `KeyboardInterrupt`. `command_results` is taken in the order given, although `as_completed` yields it in completion order.
- `send_to_influx` is a foreign HTTP call.
- `get_params`, argument parsing, `GetEnv.py` and `common/getEnv.py` are file and configuration I/O.
- A captured value holding a newline breaks the one-line-per-list shape of the payload; the line-splitting lemmas assume no line holds one.
- Logging, printing and the `DEBUG`, `THREADS` and `FREQUENCY` flags are not modelled.
- LineProtocol.LineShape: holds under hypotheses. The device alias (for a tagless record), the last tag text and the last field text must not end in a comma. Otherwise the `rstrip(',')` calls also remove those commas; `Layout` models that case, but no separate shape is proved for it.
- LineProtocol.AssembleInfluxLp: requires distinct list objects. The same Python list passed twice would be popped four times; `extract_matches` always builds a new list per measurement.
- Extraction.SingleMode: keys are only read where the code reads them. A parse spec always has `parsespec`, `measurement` and `matchtype`, and its `match{i}` keys are numbered from 1 without gaps. A missing key of that kind would raise a `KeyError` that the model does not represent.
- Static tags: a `statictags` entry without `tagname` or `tagvalue` would carry `None`. The model's static tags always have both.
- Worklist.GetWork: a credential entry always has an `alias`. The default set may lack `username` or `password`; a missing set (`None`) would raise `TypeError` instead of `KeyError`, and the model reports it the same way as a missing key.
- Worklist.GetWork: `workparams['credential_set']` is only the name passed to `getEnv.getparam`. The set it names is the `defaultCreds` parameter.
- LineProtocol.EscapeTagSpaceRuns: covers values whose words hold no blank and no backslash and that do not end with spaces; values with tabs, backslashes or trailing blanks are covered only by the general `EscapeTag` definition and `EscapeTagBranchUnreachable`.
- Python's sharing of one `groupcommands` list between work items is not modelled, since nothing mutates it.
