# Verified models of the RuNOS controller

RuNOS is an OpenFlow controller.  Its core is the Maple runtime: a packet policy is an
ordinary program, its reads of a packet are traced, the traces grow a decision tree, and the
tree is compiled to a prioritised flow table for the switch.  This project models that core
and eight further components in Dafny and proves what they are for.  `dafny verify
dfyconfig.toml` checks everything.

The main results, each over all inputs or all runs:

- **Policy, tree and table agree** (`Runtimes.PolicyTreeAndTableAgree`).  For every
  deterministic policy, every sequence of packets it is given, every packet, every order in
  which the compiler may visit its hash tables, and whatever leaf rules the switch has since
  lost, the rule that wins the packet is a barrier or belongs to a flow that was recorded with
  exactly the decision the policy makes for that packet.  The proof goes through the masked
  field algebra, the modify-and-undo match of the compiler, the transparency of the traced
  packet and the fact that its cache never lets a bit be explored twice on a path.  The bound
  of 65535 rules is tight: `Overflow.PriorityWrapMisroutes` gives a policy and packets for
  which 65536 rules misroute.
- **JSON is RFC 8259** (`JsonDocuments.ReadsExactlyDocuments`).  On every byte string the parser
  succeeds with a value if and only if the string is a text of the grammar, nested at most 200
  deep, that stands for that value; strings are read by the units of section 7, UTF-8 by an
  independent decoder, and of equal keys the last one counts.  The printed form of a value
  parses back to the value if and only if it nests at most 200 deep (`JsonRoundTrip.RoundTrip`).
- **Lossless polling** (`EventPolling.PollingIsLossless`).  A client that replays each answer
  and returns the cursor always holds exactly the live objects, and
  `RuleEvents.ClientsHoldTheRules` carries this to the flow manager, whose reconciliation with
  what switches report (`FlowRules.UpdateReconciles`) keeps the contract of the event log.
- **Wire round trip under fragmentation** (`Wire.WireRoundTrip`), with its exact condition, and
  on top of it replication of the Raft log (`Storage.ReplicationOverTheWire`), whose committed
  entries never change (`Storage.CommittedIsForever`).
- **Leader election** (`ElectionSafety.TimelyRunsAreSafe`, `ElectionFailure.SafeIffAlone`): at
  most one leader per term over all runs that count votes in their own term; without that, no
  cluster of two or more servers is safe.
- **Link table** (`Links.IndexAgreesIff`, `Links.LinkTableIsConsistent`): when table, endpoint
  index and signals agree over every run.
- **Loader** (`Loading.LoadsIffGrounded`): the services load if and only if their dependencies
  are complete and acyclic, in dependency order; and exactly when the loader reports a cycle
  (`LoadingAlarms.FatalIffAlarm`).

## How the code is modelled

State that the original updates in place is a class with methods that update it in place
(`FieldSet`, `Tracer`, `TracedPacket`, `TreeCompiler`, `Runtime`, `JsonParser`,
`EventManager`, `MessageProcessor`, `MemStorage`, `RaftServer`, `LinkDiscovery`, `FlowManager`,
`Loader`); each method is proved against a function of the old state, and the theorems are about those
functions.  Where the code calls into what it does not contain, the model has a parameter: the
policy is any function from the answers so far to the next action, hash table order is an
arbitrary `Schedule`, clocks are arguments.

Properties that turned out to hold only under a condition are stated with the exact condition:

- Priorities are 16 bits wide and wrap (`Compiler.PrioritiesIncreaseIffNoWrap`,
  `Overflow.PriorityWrapMisroutes`).
- `augment` must be handed a flow that is new to the tree or the one the tree has for the
  packet, as the controller does (`Runtimes.ReusedFlowMisleads`).
- The event log misleads clients exactly when a live object is added again
  (`EventPolling.SecondAddMisleads`).
- Strings with whitespace, and empty strings, do not survive the Raft text protocol
  (`Wire.WireRoundTrip`).
- `m_links` is ordered by expiry time alone, so two links with the same time collide, and
  re-cabling a port without clearing its link leaves the index dangling
  (`Links.BeaconAgreesIff`).
- The expiry loop updates the index inside `assert`, so a build without assertions leaves
  dangling entries as soon as anything expires (`Links.ExpiryAgreesIff`).
- An application with a missing dependency is left half initialized, so a later one that
  depends on it is reported as a cycle (`LoadingAlarms.MissingLooksCyclic`, exactly when:
  `LoadingAlarms.FatalIffAlarm`).
- A vote response is counted even if it answers a request of an earlier term, so a term can
  have two leaders (`ElectionFailure.TwoLeaders`, `ElectionFailure.SafeIffAlone`).

Files: `Oxm`, `FieldSets`, `TraceTrees`, `Tracing`, `Compiler`, `Machines`, `Policies`,
`Runtimes` and `Overflow` are the Maple core, in the order in which they build on each
other; `JsonText`, `JsonParsing`, `JsonRoundTrip` and `JsonPrograms` the JSON library, `JsonStrings`,
`JsonNumbers`, `JsonGrammar` and `JsonDocuments` what it accepts; `Events` and `EventPolling` the
event log; `Streams`, `Wire` and `WireText` the Raft text protocol; `Storage` the Raft log;
`Elections`, `ElectionHandlers`, `ElectionSafety` and `ElectionFailure` the elections;
`Links` the link table; `FlowRules` and `RuleEvents` the flow manager; `Loading` and
`LoadingAlarms` the loader; `Basics` and `Decimals` are shared.

## Model

| member | source | states |
|---|---|---|
| `Oxm.MatchIffCommonValue` | oxm/field.hh:544-549 | two masked fields of one type match if and only if some full value satisfies both of them |
| `Oxm.RewriteBits` | oxm/field.hh:551-567 | `>>` is last-writer-wins bit by bit: the result specifies the union of both masks, with the patch's bit wherever the patch specifies one |
| `Oxm.TestIffAgrees` | api/Packet.hh:35-36 | the default `test` holds if and only if the packet has the field's value on every bit of its mask |
| `Oxm.LoadIsTheAgreeingField` | api/Packet.hh:31-36 | a loaded field is the only field with the requested mask that agrees with the packet, in both directions |
| `FieldSets.FieldSet.Load` | oxm/field_set.hh:44-51 | an absent type loads as a wildcard; the bits known are exactly the requested ones that are stored |
| `FieldSets.FieldSet.Modify` | oxm/field_set.hh:54-63 | in place: the entry of the patch's type becomes the old entry overwritten by the patch, and no other entry changes |
| `FieldSets.FieldSet.Erase` | oxm/field_set.hh:65-76 | in place: the mask's bits are forgotten, and an entry with no bits left is removed |
| `FieldSets.EraseKnown` | oxm/field_set.hh:65-76 | whatever was known, exactly the bits of the mask are forgotten, the others keep their values, and no entry without a known bit is left |
| `FieldSets.MatchesIffKnownBits` | oxm/field_set.hh:101-106 | a set matches a packet if and only if the packet has every known bit of the set |
| `FieldSets.ModifyIsConjunction` | oxm/field_set.hh:54-106 | adding a field on unknown bits makes the set match exactly the conjunction of the old match and the test of the field |
| `FieldSets.ModifyThenErase` | oxm/field_set.hh:54-76 | `modify` followed by `erase` of the same bits restores the set, entry for entry, when none of the bits was known |
| `FieldSets.ModifyThenEraseIffUntouched` | oxm/field_set.hh:54-76 | ... and only then: the undo is the identity if and only if no bit of the mask was known |
| `FieldSets.LastWriter` | oxm/field_set.hh:53-63 | the index of the last patch of a sequence that writes a bit, or -1 when none does |
| `FieldSets.LastWriterWins` | oxm/field_set.hh:53-63 | any sequence of `modify` calls leaves every bit as its last writer set it, and as it was when there is none |
| `TraceTrees.Extend` | maple/TraceTree.cc:155-190 | recording one event yields a node that has the event's branch, or an inconsistency |
| `TraceTrees.GraftRedirectsFollowers` | maple/TraceTree.cc:143-204 | recording a finished run redirects to its flow exactly the packets that give the same answers; every other packet keeps its leaf |
| `TraceTrees.UnfinishedGraftIsInvisible` | maple/TraceTree.cc:155-190 | a run that stops before `finish` changes the lookup of no packet |
| `TraceTrees.GraftOneMore` | maple/TraceTree.cc:143-190 | writing one event at the end of the tracer's path is the same as recording the whole longer run from the root |
| `TraceTrees.GraftFinish` | maple/TraceTree.cc:192-203 | writing the flow at the end of the path is the same as recording the whole finished run from the root |
| `TraceTrees.Tracer.Load` | maple/TraceTree.cc:155-170 | in place: succeeds exactly when the longer trace is consistent with the starting tree, and then the tree is the starting tree grown by it |
| `TraceTrees.Tracer.Test` | maple/TraceTree.cc:172-190 | the same for a test and its answer |
| `TraceTrees.Tracer.Finish` | maple/TraceTree.cc:192-203 | succeeds exactly when the finished trace is consistent, and then the tree holds the flow at the trace's end |
| `Tracing.UnexploredIsOriginal` | maple/TraceablePacketImpl.cc:8-13 | what a traced read reports is original packet data, on exactly the requested bits that were neither explored nor overwritten |
| `Tracing.LoadFromParts` | maple/TraceablePacketImpl.cc:6-23 | the answer to a load is the cached bits completed by the unexplored bits of the original packet |
| `Tracing.TestFromParts` | maple/TraceablePacketImpl.cc:25-51 | a test holds if and only if its cached half and its unexplored half both hold |
| `Tracing.UnseenTestIsOriginal` | maple/TraceablePacketImpl.cc:32-44 | the test reported to the tracer asks about the original packet only, and a positive answer fixes its bits |
| `Tracing.StepIsTransparent` | maple/TraceablePacketImpl.cc:6-59 | one operation: the bare packet's answer and next packet, a cache in sync with it, and at most one report, non-empty, about unseen original bits |
| `Tracing.TracingIsTransparent` | maple/TraceablePacketImpl.cc:6-59 | at every point of any sequence of load, test and modify: the answer is the bare packet's, the cache agrees with the current packet, which is the bare one, and what is reported is a non-empty piece of the original packet that no earlier operation explored or overwrote |
| `Tracing.TracedPacket.Load` | maple/TraceablePacketImpl.cc:6-23 | in place: the bare answer, the cache and the tracer advanced together, or an inconsistency exactly when the trace does not fit the tree |
| `Tracing.TracedPacket.Test` | maple/TraceablePacketImpl.cc:25-51 | the same for a test |
| `Tracing.TracedPacket.Modify` | maple/TraceablePacketImpl.cc:53-59 | in place: packet and cache are overwritten alike, the tracer hears nothing, and the cache stays in sync |
| `Compiler.WalkRestoresMatch` | maple/TraceTree.cc:76-94 | visiting any path-disjoint subtree, in any order of its hash tables, leaves the compiler's `match` exactly as it was |
| `Compiler.PrioritiesIncreaseIffNoWrap` | maple/TraceTree.cc:63-99 | the 16-bit priorities increase with the installs if and only if there are at most 65535 of them |
| `Compiler.WinnerIsLast` | maple/TraceTree.cc:58-102 | with at most 65535 installs, the highest-priority matching rule is the last matching install, in both directions |
| `Compiler.WalkServes` | maple/TraceTree.cc:76-100 | the stretch of rules compiled from any subtree serves exactly the packets of its path, as the tree would, whatever leaf rules are missing |
| `Compiler.TableAgreesWithTree` | maple/TraceTree.cc:58-141 | for every path-disjoint tree, packet, visiting order and set of lost leaf rules: the winner is a barrier or the flow `Lookup` returns, and it is that flow unless its rule is lost |
| `Compiler.WalkLength` | maple/TraceTree.cc:71-100 | whatever the visiting order, the walk installs exactly one rule for each test and each live leaf of the tree, so the bound can be checked before `commit` |
| `Overflow.PriorityWrapMisroutes` | maple/TraceTree.cc:63-80 | the bound is needed and tight: a policy and two packets grow a tree of exactly 65536 rules, and the compiled table sends a third packet, on which the policy throws and for which the tree has no flow, to another packet's flow |
| `Overflow.GrownTree` | maple/TraceTree.cc:155-203 | the two augment calls are handed fitting flows and grow that tree, for any number of repeated tests |
| `Compiler.TreeCompiler.VisitNode` | maple/TraceTree.cc:71-100 | in place: `match`, priority and table after the visit are those of some order of the walk |
| `Compiler.TreeCompiler.VisitCases` | maple/TraceTree.cc:85-94 | the loop over the cases visits each exactly once, in an order of its own |
| `Compiler.TreeCompiler.Emit` | maple/TraceTree.cc:80-99 | one install with the current match; the priority counts up and wraps at 16 bits |
| `Machines.TraceDeterminesOutcome` | maple/TraceTree.cc:104-141 | two packets that share a trace have the same run, for every deterministic program that asks about bits |
| `Machines.LeafIsDecision` | maple/TraceTree.cc:104-141 | if a tree grown by a program has a flow for a packet, the program run on that packet makes the decision recorded with the flow |
| `Machines.RunKeepsConsistent` | maple/TraceTree.cc:155-203 | every run, finished, thrown or cut short, extends a consistent tree without inconsistency and keeps it consistent |
| `Machines.ConsistentIsPathDisjoint` | maple/TraceTree.cc:155-190 | trees grown by a program that never asks for a known bit have non-empty, pairwise disjoint masks on each root path |
| `Policies.EndedRunIsFinal` | maple/Runtime.hh:36-55 | once a policy's run has ended, allowing more actions changes neither its trace nor its outcome |
| `Policies.TracedRunIsBareRun` | maple/TraceablePacketImpl.cc:6-59 | every policy ends on the traced packet as it does on the bare packet |
| `Policies.TracedRunIsMachineRun` | maple/TraceablePacketImpl.cc:6-59 | a traced run, events and outcome, is the run of one fixed program that asks the original packet only for bits the cache lacks |
| `Policies.PolicyAsksUnseen` | maple/TraceablePacketImpl.cc:13-48 | the tracing cache makes every policy a program that never asks for a known bit and never asks for nothing |
| `Runtimes.LookupIsPolicy` | maple/Runtime.hh:57-61 | if lookup returns a flow, running the policy on that packet from scratch gives the decision recorded with the flow |
| `Runtimes.AugmentKeepsSound` | maple/Runtime.hh:36-55 | an augment run never throws `inconsistent_trace` and keeps the tree sound, also when it throws, is cut short or ends with a disposable flow |
| `Runtimes.ReachableIsSound` | maple/Runtime.hh:36-72 | the same over every sequence of augment and invalidate calls from the empty tree |
| `Runtimes.PolicyTreeAndTableAgree` | maple/Runtime.hh:36-66 | for every policy, call sequence, packet, visiting order and set of lost leaf rules: the winning rule is a barrier or belongs to a flow recorded with the policy's own decision for that packet, and a live flow's packet is won by it |
| `Runtimes.AugmentIsConservative` | maple/Runtime.hh:36-55 | after a run that decides with a positive idle timeout exactly the packets of its trace look up to the new flow; after one with a disposable decision, a throw or a cut every packet keeps its leaf; the decision is recorded either way |
| `Runtimes.ReusedFlowMisleads` | Controller.cc:788-806 | handing in a flow the tree holds for another packet makes the tree wrong about that packet exactly when the two decisions differ |
| `Runtimes.Runtime.Augment` | maple/Runtime.hh:36-55 | in place: the policy's bare outcome, no exception, soundness kept; the packet leads to the flow if the decision lasts, every packet keeps its leaf if it does not, and the decision is recorded |
| `Runtimes.Runtime.Find` | maple/Runtime.hh:57-61 | the flow of the packet's leaf if it is still alive, the miss flow if it is not or there is none; a flow other than the miss flow is recorded with the policy's own decision for the packet |
| `Runtimes.Runtime.Invalidate` | maple/Runtime.hh:68-71 | the tree is empty again and the runtime is sound |
| `Runtimes.Runtime.Commit` | maple/TraceTree.cc:216-223 | after the reinstall, whatever leaf rules are lost later, no packet is won by a flow the policy would not choose for it, and a packet with a live flow is won by that flow unless a rule of it is lost |
| `JsonRoundTrip.ReadEscaped` | json11.cpp:400-485 | the escaped form of any byte string is parsed back to that string, through the delayed flush of `\u` escapes and the U+2028/2029 case |
| `JsonRoundTrip.ReadInt` | json11.cpp:491-540 | the decimal text of every 32-bit integer is parsed back to it, on both the `atoi` and the `atof` path |
| `JsonRoundTrip.ReadValue` | json11.cpp:563-647 | the text of any printable value, anywhere in a larger text and at any depth, is read as that value, or refused as too deep when it is |
| `JsonRoundTrip.RoundTrip` | json11.cpp:53-660 | parsing the dump of a value built from null, bools, 32-bit ints, byte strings, arrays and maps gives the value if and only if it nests at most 200 deep; a deeper one is refused |
| `JsonRoundTrip.StreamRoundTrip` | json11.cpp:663-673 | `parse_multi` reads back any sequence of printed values and reports no error |
| `JsonParsing.SkipSpace` | json11.cpp:357-360 | skipping whitespace never passes the end of the text |
| `JsonParsing.ParseValue` | json11.cpp:563-647 | a successful value consumes at least one byte and the cursor stays within the text, despite the `i--` rewinds; the recursion terminates on every byte string |
| `JsonParsing.ParseMembers` | json11.cpp:595-619 | the same for the members of an object |
| `JsonParsing.ParseItems` | json11.cpp:628-643 | the same for the items of a list |
| `JsonPrograms.DumpString` | json11.cpp:63-98 | the loop appends exactly the quoted and escaped string |
| `JsonPrograms.DumpValue` | json11.cpp:126-128 | the appending printers produce the text that the round trip is about |
| `JsonPrograms.JsonParser.Report` | json11.cpp:341-351 | only the first error is kept |
| `JsonPrograms.JsonParser.GetNextToken` | json11.cpp:367-373 | in place: the next non-space byte, or an error and 0 at the end; a failed parse stays failed with its first error |
| `JsonPrograms.JsonParser.ParseText` | json11.cpp:404-485 | in place: string, cursor and error are those of the specification |
| `JsonPrograms.JsonParser.ParseNumeral` | json11.cpp:491-540 | in place: the number, cursor and error are those of the specification |
| `JsonPrograms.JsonParser.ParseJson` | json11.cpp:563-647 | in place: value, cursor and error are those of the specification, for every text, cursor and depth |
| `JsonPrograms.ParseDocument` | json11.cpp:650-660 | the whole program computes the specified parse, trailing garbage included |
| `JsonPrograms.ParseStream` | json11.cpp:663-673 | the loop terminates and returns the values up to the first error, with one placeholder for the value that failed |
| `JsonStrings.Utf8Decodes` | json11.cpp:379-398 | for every code point up to U+10FFFF an independent UTF-8 decoder gives it back from its encoding, whatever follows; the length is that of RFC 3629, and all bytes but the first are continuation bytes |
| `JsonStrings.ReadsExactlyStrings` | json11.cpp:404-485 | on every text: a string is read from a position on, with a value, if and only if bytes, letter escapes (the solidus included) and code point escapes stand there up to the closing quote and mean that value, surrogate pairs as the code points of RFC 8259 section 7 |
| `JsonStrings.DelayedIsMeaning` | json11.cpp:404-485 | the delayed flush of a code point gives the same bytes as pairing surrogates in advance, for every sequence of units |
| `JsonStrings.RefusedAtOnce` | json11.cpp:404-485 | an unescaped control byte, a bad digit, an unknown letter and an early end are each refused by name |
| `JsonNumbers.SkipsExactlyWhite` | json11.cpp:357-360 | whitespace is the four characters of RFC 8259 section 2 and is skipped as far as it goes |
| `JsonNumbers.ReadsExactlyTokens` | json11.cpp:367-373 | a token is the next character that is not whitespace |
| `JsonNumbers.ReadsExactlyIntegers` | json11.cpp:497-508 | an integer part is a run of digits without a leading zero; a leading zero is refused by name |
| `JsonNumbers.ReadsExactlyNumbers` | json11.cpp:491-540 | a number is read if and only if it is one of RFC 8259 section 6 as far as it goes; a whole number is its decimal value as long as that is exact |
| `JsonGrammar.ReadsExactlyValues` | json11.cpp:563-647 | for any exact reader of tokens, strings and scalars: at every position and depth a value is read if and only if the grammar has it there |
| `JsonGrammar.BadListIsNamed` | json11.cpp:628-643 | what stands behind an item in place of a comma or the bracket is named |
| `JsonGrammar.NoKeyIsNamed` | json11.cpp:595-597 | what stands in place of a key is named |
| `JsonGrammar.NoColonIsNamed` | json11.cpp:603-605 | what stands in place of a colon is named |
| `JsonGrammar.BadObjectIsNamed` | json11.cpp:611-617 | what stands behind a member in place of a comma, or behind the comma in place of a key, is named |
| `JsonDocuments.StoresExactlyLast` | json11.cpp:607 | an object stores, in the order of its keys, exactly the members that no later member of the same key replaces |
| `JsonDocuments.LessIffSmaller` | json11.hpp:72 | keys are in dictionary order of their bytes |
| `JsonDocuments.ReadsExactlyScalars` | json11.cpp:572-588 | numbers, the three words and strings are read if and only if they stand there |
| `JsonDocuments.NoValueIsNamed` | json11.cpp:568-570 | an early end and a character that starts no value are named |
| `JsonDocuments.BadWordIsNamed` | json11.cpp:547-558 | a misspelt word is named |
| `JsonDocuments.ReadsExactlyDocuments` | json11.cpp:650-660 | the parser accepts exactly the texts of RFC 8259 that nest at most 200 deep and gives each the value it stands for |
| `JsonDocuments.TrailingIsRefused` | json11.cpp:654-657 | anything but whitespace behind the value is named and refused |
| `JsonDocuments.ReadsExactlyStreams` | json11.cpp:663-673 | `parse_multi` succeeds with a list of values if and only if the text is those values with whitespace between them |
| `JsonDocuments.PrintsDocuments` | json11.cpp:53-128 | the printed form of a value is a text of RFC 8259 that stands for it and for no other value |
| `JsonDocuments.EscapesWithLetters` | json11.cpp:67-80 | every byte that has a letter is printed with it, except the solidus |
| `JsonDocuments.EscapesWithDigits` | json11.cpp:81-84 | other control bytes are printed as four lower-case digits of their value, all other bytes as themselves |
| `JsonDocuments.PrintsNothingAwkward` | json11.cpp:81-95 | no control byte and neither line separator ever stands in a printed string |
| `JsonDocuments.PrintsInOrder` | json11.cpp:100-124 | items and members are printed in order, with a comma and a space between them |
| `Events.LatestAdd` | Event.cc:178-186 | the last Add of an object, with none behind it, or nothing when there is no Add |
| `Events.AppendedAddsOne` | Event.cc:163-193 | a handler without a hash has no events; otherwise one event comes to the end with its fields as given, and only a Delete touches an older event: it and the last Add of its object become brothers |
| `Events.EventManager.FindBrother` | Event.cc:178-186 | the backward search finds the last Add |
| `Events.EventManager.AddToEventList` | Event.cc:163-193 | in place: a handler without a hash changes nothing; a Delete links itself and the last Add of its object; one identifier is spent, modulo 2^32 |
| `Events.EventManager.CheckOverlap` | Event.cc:121-138 | an Add overlaps when it was taken back, a Delete when it takes back an Add newer than the cursor, a Change never |
| `Events.EventManager.Timeout` | Event.cc:140-161 | the answer holds, per application and in order, exactly the shown events; the new cursor is the newest of their identifiers, or the old cursor |
| `EventPolling.ReplayOfGroups` | Event.cc:143-160 | replaying the answer application by application, in any order, has the effect of replaying the events in their order |
| `EventPolling.AppendedIsPaired` | Event.cc:163-193 | every event that adds no live object and deletes no unknown one keeps the brother links paired |
| `EventPolling.PollTellsObject` | Event.cc:121-161 | one poll brings a client's belief about any one object up to date, whatever happened to the object since the last poll |
| `EventPolling.TellsExactlyNews` | Event.cc:121-138 | a poll tells a new event of a selected handler if and only if it is an Add not deleted since, a Delete of an Add up to the cursor, or a Change |
| `EventPolling.PollIsExact` | Event.cc:140-161 | after a poll the client holds exactly the live objects of its mask and has heard every Change once and in order, and the cursor never goes back |
| `EventPolling.PollingIsLossless` | Event.cc:121-193 | the same after every poll of every interleaving of events, polls and identifiers spent by other managers |
| `EventPolling.SecondAddMisleads` | Event.cc:178-193 | the condition is needed: adding and then deleting an object leaves a fresh client believing in it if and only if it was live when it was added |
| `Streams.WordIsGood` | raft/simple_serialize.cpp:11-17 | `<<` and `>>` of strings are inverse on exactly the non-empty strings without whitespace |
| `Streams.UnsignedIsGood` | raft/simple_serialize.cpp:3-9 | the same for all 64-bit unsigned numbers, with overflow refused and a minus sign taken modulo 2^64 |
| `Streams.PairIsGood` | raft/simple_serialize.cpp:11-17 | chaining two formats with a space between them keeps printer and reader inverse on exactly the values that fit |
| `Streams.VectorIsGood` | raft/simple_serialize.hpp:58-76 | the length-prefixed printer and reader of vectors are inverse whenever those of the elements are |
| `Streams.WriteVector` | raft/simple_serialize.hpp:58-63 | the printing loop writes the specified text |
| `Streams.TakeVector` | raft/simple_serialize.hpp:65-76 | the reading loop returns the specified vector and rest, or fails |
| `Wire.HeaderIsGood` | raft/simple_serialize.cpp:11-17 | the message header: every field comes back where it was, for all headers whose strings are words |
| `Wire.PeerIsGood` | raft/simple_serialize.cpp:103-112 | the same for a peer configuration with its two signed ports and its flag |
| `Wire.Find` | raft/simple_message_processor.cpp:18-20 | the first newline from a position on, or the end |
| `Wire.MessageProcessor.NewlineTokenizer` | raft/simple_message_processor.cpp:14-33 | in place: every completed line, one trailing carriage return stripped, goes to the callback in order; the rest is kept |
| `Wire.MessageProcessor.ProcessRead` | raft/simple_message_processor.cpp:42-50 | the same with the dispatch of server messages as the callback |
| `Wire.ChunksDoNotMatter` | raft/simple_message_processor.cpp:14-33 | for any bytes, the lines and the remainder depend only on the concatenation of the chunks |
| `Wire.DeliverLine` | raft/simple_message_processor.cpp:61-92 | a printed message is one line that is dispatched as that message, for all six kinds |
| `Wire.DeliveredFits` | raft/simple_message_processor.cpp:61-92 | whatever bytes arrive, a delivered message has words for strings and numbers in range |
| `Wire.WireRoundTrip` | raft/simple_message_processor.cpp:14-92 | for every sequence of messages and every way of cutting their text into chunks: exactly those messages are delivered, with nothing left over, if and only if all their strings are words and their numbers in range |
| `Wire.Receive` | raft/simple_message_processor.cpp:42-50 | a processor fed chunk by chunk delivers what the tokenizer's specification says of all chunks |
| `WireText.HeaderIsPrinted` | raft/simple_serialize.cpp:11-13 | the printed header: names, number, term, commit mark and log end, in this order |
| `WireText.InfoIsPrinted` | raft/simple_serialize.cpp:3-5 | the index, a space and the term |
| `WireText.EntryIsPrinted` | raft/simple_serialize.cpp:19-21 | index, term and data |
| `WireText.PeerIsPrinted` | raft/simple_serialize.cpp:103-107 | name, address, the two ports and the flag |
| `WireText.LinesArePrinted` | raft/simple_serialize.cpp:32-101 | the line of each of the six kinds of message, field by field |
| `WireText.LineEndings` | raft/simple_message_processor.cpp:18-29 | exactly one carriage return goes with the newline, so lines that end in CR LF and in LF are the same |
| `WireText.UnknownIsDropped` | raft/simple_message_processor.cpp:57-92 | a line without a name, or with none of the six names, drops the peer |
| `WireText.ExtraIsIgnored` | raft/simple_message_processor.cpp:57-92 | whatever stands behind the fields of a message is ignored |
| `WireText.UnsignedInRange` | raft/simple_serialize.cpp:7-9 | numerals with sign and leading zeros: a negative number is taken modulo 2^64, one whose digits are out of range is refused |
| `WireText.SignedInRange` | raft/simple_serialize.cpp:109-112 | a port is refused if and only if it does not fit 32 bits with a sign, and a flag is zero or one |
| `Storage.MemStorage.Append` | raft/mem_storage.cpp:12-34 | in place: the batch replaces everything from its first index on; the exit is never taken on a valid log |
| `Storage.MemStorage.CommitUntil` | raft/mem_storage.cpp:59-70 | in place: the commit mark moves to the requested index or the end of the log, whichever is lower |
| `Storage.MemStorage.EntriesSince` | raft/mem_storage.cpp:78-86 | the entries behind an index; the exit is never taken on a valid log |
| `Storage.MemStorage.GetEntryInfo` | raft/mem_storage.cpp:88-95 | index and term of an entry, or zeros outside the log |
| `Storage.InfoIsZeroOutside` | raft/mem_storage.cpp:88-95 | zeros are answered exactly outside the log, and each entry is found under its own index |
| `Storage.AppendKeepsCommitted` | raft/raft_storage.hpp:5-20 | a batch that obeys the storage contract keeps the log numbered without gaps and its committed entries in place |
| `Storage.AppendKeepsIffCompatible` | raft/mem_storage.cpp:12-34 | the batches that do so are exactly those without gaps that repeat the committed entries they cover |
| `Storage.CommittedIsForever` | raft/raft_storage.hpp:5-20 | over every run that obeys the contract: entry i has index i+1, the commit mark never goes back or past the end, and a committed entry never changes |
| `Storage.SinceMakesEqual` | raft/mem_storage.cpp:12-86 | appending `entries_since(k)` of one log to another that agrees on the first k entries makes them equal if and only if there is something to send or the other log ends at k |
| `Storage.SinceKeepsCommitted` | raft/mem_storage.cpp:12-86 | it obeys the receiver's contract and keeps its committed entries if the receiver has committed no more than k |
| `Storage.ReplicationOverTheWire` | raft/simple_serialize.cpp:32-42 | the same when the entries travel as a printed request cut into arbitrary chunks |
| `Elections.RaftServer.HandleTimeoutRequest` | raft/raft_server.ipp:17-47 | in place: a candidate of the next term with its own vote only, and a numbered vote request to every other peer |
| `Elections.RaftServer.HandleVoteRequest` | raft/raft_server.ipp:74-122 | in place: the reaction characterised by `ElectionHandlers.VoteGrantedIff` and `ElectionHandlers.VoteRequestMoves` |
| `ElectionHandlers.VoteGrantedIff` | raft/raft_server.ipp:74-122 | a vote is granted and recorded if and only if the sender is a known peer, the request is addressed to a ready server, its term is new and its log at least as long; every heard request is answered, no other |
| `ElectionHandlers.VoteRequestMoves` | raft/raft_server.ipp:74-122 | a heard request of a new term makes the server a follower of that term; otherwise term, role and leader stay |
| `ElectionHandlers.StepDownResets` | raft/raft_server.ipp:481-498 | stepping down forgets the vote, and a server that was no follower starts afresh with every peer |
| `ElectionHandlers.TimeoutAsksAll` | raft/raft_server.ipp:17-47 | a candidate of the next term with its own vote only, and one request to each other peer with that peer's next number |
| `ElectionHandlers.LeaderBeats` | raft/raft_server.ipp:50-71 | a leader that times out sends each other peer one heartbeat of its term and stays leader |
| `ElectionHandlers.ElectedIffMajority` | raft/raft_server.ipp:235-302 | a server becomes leader if and only if it counts the response as a candidate and more than half of all peers have voted for it; a newer term makes it step down; any other response changes nothing |
| `ElectionHandlers.NewLeaderHails` | raft/raft_server.ipp:257-301 | a new leader names itself and sends each other peer one append request with that peer's next number |
| `ElectionHandlers.AppendFollowsLeader` | raft/raft_server.ipp:125-232 | append requests of earlier terms are refused, those of a second leader in one term ignored, and all others make their sender the leader |
| `ElectionHandlers.AppendResponseTaken` | raft/raft_server.ipp:305-384 | only the awaited answer to the latest message of a term not yet past is taken |
| `ElectionHandlers.ReadyAgain` | raft/raft_server.ipp:463-465 | after its minimum timeout a server grants a peer's request if and only if the term is new and the log long enough, and nothing else changes |
| `ElectionHandlers.EveryVoteWasCast` | raft/raft_server.ipp:74-122 | over every run of a cluster: each granted vote ever sent answers a request whose term was new to the voter and whose log was at least as long as the voter's at that time |
| `Elections.RaftServer.HandleVoteResponse` | raft/raft_server.ipp:235-302 | in place: a granted vote from a peer that is waited for is counted, whatever its term up to the current one; a majority makes the server leader |
| `Elections.RaftServer.FallBack` | raft/raft_server.ipp:481-498 | in place: the new term without a vote, and a follower with all its peers reset |
| `Elections.RaftServer.TakeOver` | raft/raft_server.ipp:257-301 | in place: leader, with a numbered append request to every other peer |
| `Elections.Find` | raft/raft_state.hpp:45-52 | the first peer of a name, or the end when there is none |
| `ElectionSafety.VoteRequestIsFine` | raft/raft_server.ipp:74-122 | the term never goes back, the vote of a term never changes, and every vote sent is the one held |
| `ElectionSafety.CountIsFine` | raft/raft_server.ipp:252-262 | a vote counted in its own term leaves every flag justified by a vote cast for the server in its current term |
| `ElectionSafety.BallotsSplit` | raft/raft_server.ipp:260-262 | two candidates together never have more votes of one term than there are servers |
| `ElectionSafety.TimelyRunsAreSafe` | raft/raft_server.ipp:17-302 | election safety: over every interleaving of timeouts, late, repeated or lost deliveries and log work in which votes are counted in the term they were cast in, no term ever has two leaders |
| `ElectionFailure.TwoLeaders` | raft/raft_server.ipp:235-262 | the handler does not compare the term of a vote: in every cluster of at least two servers a run with late votes elects two leaders in term 3 |
| `ElectionFailure.SafeIffAlone` | raft/raft_server.ipp:17-302 | as it stands, all runs of a cluster have at most one leader per term if and only if the cluster has no two servers |
| `Links.LinkDiscovery.ReceiveBeacon` | LinkDiscovery.cc:135-141 | the ends of a received beacon are put in order before the table is updated |
| `Links.LinkDiscovery.HandleBeacon` | LinkDiscovery.cc:216-240 | in place: the older link of the source port is replaced, both ends are indexed, and only a new link is announced |
| `Links.LinkDiscovery.ClearLinkAt` | LinkDiscovery.cc:242-267 | in place: the link at a port goes with both of its index entries, and its break is announced with its ends in order |
| `Links.LinkDiscovery.TimerEvent` | LinkDiscovery.cc:270-281 | in place: the expiry loop removes the earliest link until none is overdue |
| `Links.BeaconAgreesIff` | LinkDiscovery.cc:216-240 | a beacon keeps table and index in agreement if and only if its ports are both free or the two ends of one link, and no other link expires at the same time |
| `Links.ExpireRemovesOverdue` | LinkDiscovery.cc:270-281 | expiry removes exactly the overdue links |
| `Links.ExpirySignalsInOrder` | LinkDiscovery.cc:270-281 | each overdue link is announced broken once, in the order in which they were due |
| `Links.BeaconStoresOne` | LinkDiscovery.cc:216-240 | a beacon stores its link with the new expiry time, keeps all others and announces the link if and only if it was not stored |
| `Links.ClearTakesOne` | LinkDiscovery.cc:242-267 | clearing a port takes out and announces the one link that ends there and no other, and does nothing if and only if none does |
| `Links.ExpiryAgreesIff` | LinkDiscovery.cc:275-281 | expiry keeps the index in agreement if and only if the build evaluates assertions or nothing is overdue |
| `Links.IndexAgreesIff` | LinkDiscovery.cc:216-281 | over every run: each link is indexed from both ends and nothing else is, at every moment, if and only if the build evaluates assertions or no link ever expires |
| `Links.LinkTableIsConsistent` | LinkDiscovery.cc:216-281 | at the end of every such run, replaying the signals gives exactly the stored links, and no discovery or break is announced twice |
| `Links.TimerKeepsFreshLinks` | LinkDiscovery.cc:216-281 | a link heard of is still stored when the timer fires if and only if that is within twice the poll interval |
| `FlowRules.EqualFlows` | FlowManager.cc:36-49 | flows are equal if and only if they agree on everything but counters and durations |
| `FlowRules.SiftIsIntersection` | FlowManager.cc:272-288 | as multisets of flows: the rules that stay are the intersection of known and reported, those that go and the flows left over are the two differences |
| `FlowRules.SiftKeepsOrder` | FlowManager.cc:272-288 | the rules that stay keep their order, and a rule goes only if no later rule with an equal flow stays |
| `FlowRules.UpdateReconciles` | FlowManager.cc:272-294 | after an update the rules equal the reported flows as multisets, the events number the two differences, and an unchanged report changes nothing |
| `FlowRules.NewRulesCarry` | FlowManager.cc:288-294 | new rules carry the identifier of the reporting switch, consecutive numbers, and the flows exactly as reported, in order |
| `FlowRules.UnclaimedIsPart` | FlowManager.cc:277-282 | the flows that get new rules are a subsequence of the reported ones, whole records with their counters |
| `FlowRules.UnclaimedIsBehind` | FlowManager.cc:277-282 | of every key, as many reported flows are claimed, from the front, as there are rules with it |
| `FlowRules.ReportsInOrder` | FlowManager.cc:284-293 | every rule that goes or comes is reported once, in order |
| `FlowRules.FlowManager.UpdateSwitchRules` | FlowManager.cc:272-294 | in place: surviving rules with their identifiers and order, then one new rule of this switch for each flow that is left; Deletes, then Adds |
| `FlowRules.FlowManager.CleanSwitchRules` | FlowManager.cc:262-270 | in place: every rule of the switch is reported deleted |
| `RuleEvents.UpdateAlternates` | FlowManager.cc:272-294 | every update adds only rules that are not there and deletes only rules that are, so the reports lead from the old set of rules to the new one |
| `RuleEvents.ReportsAreRaisable` | FlowManager.cc:262-294 | reports that alternate keep the contract of the event log, and its live objects follow them |
| `RuleEvents.ClientsHoldTheRules` | Event.cc:121-193 | after every poll of every run of flow reports, switch failures, other applications' events and polls, a client of the flow manager holds exactly the rules of all switches, and each rule names the switch in whose table it is |
| `Loading.Loader.InitializeService` | Loader.cc:183-241 | in place: states, order and threads are those of the specification, recursion included |
| `Loading.Loader.InitializeDependencies` | Loader.cc:198-210 | the loop over the dependencies stops at the first that is missing or half initialized |
| `Loading.Loader.StartAll` | Loader.cc:154-158 | the configured services one after the other |
| `Loading.Initialize` | Loader.cc:183-241 | the recursion terminates because the set of registered applications shrinks, and only an existing application is ever found |
| `Loading.LoaderOrder` | Loader.cc:183-241 | whatever the services and dependencies: every application is initialized at most once and behind all its dependencies, and no member of any cycle ever is |
| `Loading.LoadsIffGrounded` | Loader.cc:154-241 | all services are initialized if and only if they and all their direct and indirect dependencies are registered and free of cycles, and then nothing else is |
| `Loading.OthersDoNotMatter` | Loader.cc:154-158 | a service that could be loaded alone is loaded whatever stands before or behind it, unless the process is ended |
| `Loading.NamedOrder` | Loader.cc:154-210 | applications that do not depend on each other are initialized in the order in which they are named |
| `LoadingAlarms.FatalIffAlarm` | Loader.cc:154-210 | for every configuration: the process ends with the cycle alarm if and only if the trail of some service (from blocker to blocker) runs into itself or into the trail of an earlier service that it is not on |
| `LoadingAlarms.FatalIffCyclic` | Loader.cc:154-210 | if nothing is missing, the alarm is raised if and only if some service reaches a chain of dependencies that returns to itself; equivalently, if the services are not grounded |
| `LoadingAlarms.SingleServiceIsNeverFalse` | Loader.cc:198-210 | with one configured service the alarm is raised only for a real cycle |
| `LoadingAlarms.MissingLooksCyclic` | Loader.cc:203-209 | the false alarm: "a" needs a missing application, "b" needs "a", and starting both ends the process although no chain returns to itself |
| `LoadingAlarms.BlockedStops` | Loader.cc:183-210 | an application that cannot be loaded leaves exactly the applications on its trail half initialized, or ends the process |
| `Loading.StartIsRoundRobin` | Loader.cc:212-229 | pinned applications run where they are pinned; the k-th of the others runs on thread k modulo the number of threads |

## Left out

- Maple: `watch` reads and policies with state of their own (learning switch, host table); they
  step outside what a trace records, so a policy here depends on its packet's answers alone.
- Maple: the flow pointer a policy is also given; a policy that reads it is outside the model.
- Maple: fields a packet does not have, OpenFlow match prerequisites and operands of different
  types (`bad_operands`); every field has a value, and the operators demand equal types.
- Maple: types are compared by all their attributes, where the original compares namespace and
  number; the two agree when no two types share a number.
- Maple: the tracer's vector of pointers into the tree is a sequence of branches; aliasing
  between two tracers at work on one tree at the same time is not captured.
- Maple: weak pointers are a set of flows that are alive; the moment of release is not modelled.
- Maple: the window while `commit` is reinstalling rules, and the real backend: `FlowImpl::install`
  returns early for a flow that is neither active nor holding a packet-in (Controller.cc:192),
  which includes the barrier flow as it is created; the table is the list of installs.
- JSON: doubles.  Numbers with a fraction, an exponent or more than 2^53 keep their text instead
  of going through `atof`, and printing them (`%.17g`) is not modelled.
- JSON: the wording of error messages, `has_shape`, comparison and the accessors.
- Event log: `time`, the JSON description of an object, and the two-argument `addEvent`, which
  leaves an event's hash uninitialised; identifiers are assumed not to wrap around.
- Raft: replication decisions and commit counting; for elections the log is a verdict on append
  requests and a step that leaves roles, terms and votes alone.  Restarts, which would lose
  votes, and changes of the cluster are not modelled.
- Elections.OnVoteResponse: ignores a response from an unknown peer, for which the original
  dereferences a null pointer; servers only hear from members of their cluster.
- Raft: the `identify` callback, client connections, and `ConfigChangeRequest.request_watermark`
  and the two identifiers of a `ClientRequest`, which are never sent.
- Raft: memory exhaustion for a huge element count in a received vector.
- Storage: the journal file, the vote and the current term.
- Links: sending and decoding LLDP packets, and the trace-tree invalidation when a link breaks.
- FlowRules: the content of match and instructions, which are compared as opaque values, and the
  `active` flag of a removed rule.
- Loading: running `init` and `startUp` on their threads, and a configuration with zero threads.
- Whole components: `Messaging.cc`, `STP.cc`, `Topology.cc`, `HostManager.cc`, the REST server,
  sessions and statistics; they are I/O and library calls, or would add only easy members.
