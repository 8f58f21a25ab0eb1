# Verification of NETRA's core

NETRA is a host agent: scanners observe the machine, rules turn observations into findings, a durable
queue carries telemetry, a supervisor restarts the worker, and a coordinator starts and stops it all.
This project models the parts of that core with real state, loops or arithmetic, and proves what they
guarantee over all inputs and all runs.

`dafny verify dfyconfig.toml` checks everything.

| module | what it models |
|---|---|
| `ScanCycle`, `CycleContents`, `Findings`, `Rules`, `Guardrail` | one scan cycle: collection, topology, evaluation, enqueueing, upserts and reconciliation of the findings table |
| `Agreement`, `FinishingOrder`, `Lifetimes` | what guardrail, evaluated list and table owe each other; independence of the finishing order; findings over whole runs |
| `Net004` | the competing-gateways rule |
| `Topology`, `TopologyContents`, `Correlation`, `EdgeContents`, `IpAddress` | topology synthesis, its edges, CIDR arithmetic and address classes |
| `Tlv`, `Netlink` | the rtnetlink neighbor parser and the encoding it inverts (section 2.3.2 and section 3.1.2 of RFC 3549) |
| `IpcCodec` | the length-prefixed IPC framing |
| `Watchdog`, `Supervisor` | crash window, backoff, circuit breaker; the supervisor engine as steps under its locks |
| `Queue`, `Pruner` | the durable queue, its quota and its pruning, one event per SQL statement |
| `SessionMarker` | the clean-shutdown protocol as filesystem steps with crashes |
| `NonceCache`, `SignedRequests` | the replay cache and the verification of signed requests |
| `Canonical` | the line-delimited strings that are signed |
| `Coordinator` | component start-up and teardown |
| `Seqs`, `Text`, `Bytes`, `MachineInts`, `Observations` | shared vocabulary |

Objects whose methods update fields are classes; each method is proved against a function of the old
state, and the theorems are about those functions over whole runs. What the functions compute is stated
a second time without them: in the contracts of the methods that change state, and in lemmas about
fields, bytes and numbers. Digests, JSON, lower-casing and the text of addresses are function values;
where a theorem needs one to be injective or to round-trip, it says so. Times are integers, and outcomes
of scanners, components and stops are inputs.

Where a promised property is not true of the code as it stands, the exact condition is proved:

- `Watchdog.RestartBoundExact`: a crash window of 2^63 seconds or more turns negative in the cast to
  i64, and one restart too many is granted.
- `Watchdog.DelaysGrowExactly`: the 64-bit product of the backoff can wrap for base delays of 2^60 ms or
  more. A build with overflow checks would panic instead; the model wraps, as release builds do.
- `Watchdog.StreakDelaysGrow` and `Watchdog.WrapStartsOver`: after 2^32 - 1 crashes of one streak the counter
  wraps and delays start over.
- `SessionMarker.ExclusiveExactly`: two processes that acquire at the same time can both get the session;
  `SessionMarker.RaceExactly` names the interleavings.
- `NonceCache.AtMostOnceExactly`: the default TTL of 600 s is one second short of what the skew of 300 s
  needs, so a request can pass once more at the very end of the span.
- `SignedRequests.VerifiedOnceExactly`: the cache knows a nonce by its header as it came, the signature
  covers the trimmed one, so nonces that differ in surrounding white space share a signature. Parsers that
  strip it from field values, as section 5.5 of RFC 9110 asks, meet the condition.
- `Watchdog.TimedOutExactly`: a clock set back behind the last heartbeat makes the worker count as hung.
- `IpcCodec.ReadBackIffLengthFits`: a frame limit of 2^32 or more admits frames whose prefix is wrong.
- `Canonical.UnmistakableExactly`: newlines inside fields make signed strings ambiguous; construction
  trims fields but keeps newlines in their middle.
- `Agreement.JudgedExactly`, with `Agreement.StrictClosesUnjudged` as an instance: rules that are not
  dependable, those with a strict policy among them, can have their findings closed by observations they
  refused to judge; the registered rules are dependable. `Agreement.JudgedOnceExactly` is the condition for
  cycles in which no scanner reports twice.
- `Correlation.OrderBlindExactly`: two names for the interface index of a nameless gateway, and nothing
  else, make the edges depend on the order of the snapshot.
- `Guardrail.RequiredOrderExactly`, with `Guardrail.RequiredOrderCounts` as an instance: a degraded source
  listed first hides a missing one, unless the policy treats both alike.
- `Coordinator.ShutdownStopsAll`: shutdown before initialisation stops the components but reports an
  error and leaves the state at Created, from which it can still be initialised.

Where the code and its comments differ, the model follows the code:

- `storage/marker.rs:78` calls the registration of the active session atomic; the file is truncated and
  then written, so the model has a state in between in which it names no session.
- `storage/repositories/findings.rs:367` speaks of open findings; `resolve` changes a row of any status.
- `network/topology.rs:570-580` lists confidences for up to four usable observations; five or more, which
  repeated scanners could deliver, fall back to the lowest.

## Model

| member | source | states |
|---|---|---|
| `ScanCycle.RunScanCycle` | rust/crates/netra-core/src/observation/supervisor.rs:72-325 | The cycle, loop by loop: whatever scanners deliver, fail or panic, in whatever order, every observation is enqueued once, the topology last; the findings table ends as the reports upserted in order followed by the reconciliation of the evaluated rules; a topology that cannot be serialised is neither judged nor enqueued; the summary counts what was delivered, reported and is open. |
| `ScanCycle.RunSingleDomainScan` | rust/crates/netra-core/src/observation/supervisor.rs:331-405 | One scanner: a failing scan leaves table and queue alone; an observation is enqueued and judged, and if readable counts every rule of the domain as evaluated, if not none. |
| `ScanCycle.EnqueueAll` | rust/crates/netra-core/src/observation/supervisor.rs:235-299 | The enqueueing loop: one event per observation, under its domain and serialised payload, each deciding between touching and inserting on the table the earlier ones left. |
| `CycleContents.CollectedExactly` | rust/crates/netra-core/src/observation/supervisor.rs:110-124 | Collected is what scanner tasks delivered, in the order in which they ended, each once; errors, timeouts and panics leave no trace. |
| `CycleContents.SynthesizedExactly` | rust/crates/netra-core/src/observation/supervisor.rs:126-182 | The topology observation: scanner and domain of the topology, the host of the first observation that has one or the fallback, derived privilege, computed confidence in observation and snapshot, every list of the built snapshot, its edges, missing and degraded sources. |
| `CycleContents.ReportsExactly` | rust/crates/netra-core/src/observation/supervisor.rs:184-191 | The reports are the findings of the observations, one observation after the other, followed by those of the topology unless it could not be serialised. |
| `CycleContents.EvaluatedExactly` | rust/crates/netra-core/src/observation/supervisor.rs:194-233 | The evaluated rules, in order of registration, are exactly those with a readable observation of their domain; for the topology those whose sources are not missing: routes and interfaces for NET-003 and NET-008, routes for NET-004, all four for any other. |
| `CycleContents.EnqueuesExactly` | rust/crates/netra-core/src/observation/supervisor.rs:243-249 | An observation goes into the queue under its domain name and its JSON, or `{}` where serialisation fails: a queued row of that digest is touched, and if there is none a new row without source and retries is inserted. |
| `CycleContents.InDomainExactly` | rust/crates/netra-core/src/observation/supervisor.rs:353-363 | A single scan evaluates exactly the rules of its domain, in order of registration. |
| `Agreement.CycleExactly` | rust/crates/netra-core/src/observation/supervisor.rs:185-263 | After any cycle a row of an evaluated rule is OPEN exactly if its fingerprint was reported and it was not SUPPRESSED; no OPEN row of another rule is closed; every reported fingerprint has a row; SUPPRESSED is kept. |
| `Agreement.EvaluatedMeansJudged` | rust/crates/netra-core/src/observation/supervisor.rs:197-233 | Every network rule that is dependable in a cycle and counts as evaluated was let through by its guardrail on some observation of its domain. |
| `Agreement.JudgedExactly` | rust/crates/netra-core/src/observation/supervisor.rs:197-233 | For every network rule, guardrail and evaluated list agree in all cycles if and only if the rule is dependable: for scanned domains, it tolerates low confidence and partial privilege; for the topology, which must be serialisable, it tolerates low confidence, tolerates degraded sources or neither requires a network scanner nor asks for full privilege, and tolerates missing sources or each required one disqualifies it from the list. |
| `Agreement.JudgedOnceExactly` | rust/crates/netra-core/src/observation/supervisor.rs:197-233 | The same for the cycles in which no scanner reports twice; there a topology rule may also suppress on low confidence if the sources it requires, being usable, assure the confidence it asks for. |
| `Agreement.RegisteredDependable` | rust/crates/netra-core/src/rules/network/registry.rs:73-98 | All registered network rules are dependable, so the agreement holds of the shipped engine. |
| `Agreement.SuppressedClosesNothing` | rust/crates/netra-core/src/observation/supervisor.rs:197-263 | If all rules of an id are network rules dependable in the cycle, and their guardrails refused every observation of it, no OPEN finding of that id is closed. |
| `Agreement.StrictClosesUnjudged` | rust/crates/netra-core/src/rules/network/common.rs:53-62 | With the strict policy the agreement fails: a partial observation the rule refused to judge closes its open finding. |
| `FinishingOrder.FinishingOrderIrrelevant` | rust/crates/netra-core/src/observation/supervisor.rs:110-263 | For well-formed setups, with one observation per scanner and domain and one host name: status, severity, title, counts and evidence of every row are the same for every order in which the observations arrive. |
| `FinishingOrder.EndingOrderIrrelevant` | rust/crates/netra-core/src/observation/supervisor.rs:92-124 | The same for every order in which scanner tasks deliver, fail, time out or panic. |
| `FinishingOrder.RegisteredWellFormed` | rust/crates/netra-core/src/rules/engine.rs:22-40 | The registered rules meet the conditions of that theorem for any injective digest, if serialisation does not fail depending on the order of degraded sources. |
| `Lifetimes.Lifecycle` | rust/crates/netra-core/src/observation/supervisor.rs:72-325 | Over any run of scan cycles, single scans, resolutions, suppressions and prunings a finding appears with its first report and stays until a pruning takes it, which takes only rows that are not OPEN and were last seen before its cutoff. Since it appeared it counts its reports, carries the evidence of the last one, and rule, severity, title and first time of the first one; it is suppressed as it was marked last, otherwise OPEN exactly as the last action that judged it said; and it was last seen when it was last reported, closed or marked. |
| `FinishingOrder.SynthesizedAgrees` | rust/crates/netra-core/src/observation/supervisor.rs:126-182 | The synthesized topology observation of two finishing orders differs at most in the order of its degraded sources. |
| `ScanCycle.WriteFindings` | rust/crates/netra-core/src/observation/supervisor.rs:249-262 | The write loop: every report upserted in order, then the evaluated rules reconciled against the reported fingerprints. |
| `ScanCycle.SelectEvaluated` | rust/crates/netra-core/src/observation/supervisor.rs:194-233 | The loop that lists evaluated rules, with the per-rule conditions on missing sources. |
| `Findings.FindingsTable.UpsertEntry` | rust/crates/netra-core/src/storage/repositories/findings.rs:211-251 | A new fingerprint becomes an OPEN row seen once, with everything the report says; a known one is counted, takes the evidence and time of the report, keeps rule, severity, title and first time, and reopens only if it was RESOLVED. |
| `Findings.FindingsTable.Resolve` | rust/crates/netra-core/src/storage/repositories/findings.rs:368-377 | Sets RESOLVED on the row of the fingerprint, whatever its status; nothing else changes. |
| `Findings.FindingsTable.Suppress` | rust/crates/netra-core/src/storage/repositories/findings.rs:380-389 | Sets SUPPRESSED on the row of the fingerprint; nothing else changes. |
| `Findings.FindingsTable.ReconcileEvaluatedRules` | rust/crates/netra-core/src/storage/repositories/findings.rs:411-464 | The two loops: exactly the OPEN rows of the listed rules that were not reported become RESOLVED, and the count is one per listed rule and row. |
| `Findings.StaleCountsRows` | rust/crates/netra-core/src/storage/repositories/findings.rs:411-464 | With distinct rule ids the returned count is the number of rows that were closed. |
| `Findings.FindingsTable.CountSummary` | rust/crates/netra-core/src/storage/repositories/findings.rs:467-521 | Adding up the groups gives the number of matching rows in total, per status and per severity. |
| `Findings.MatchingExactly` | rust/crates/netra-core/src/storage/repositories/findings.rs:467-521 | A filter leaves the rows that have every status, severity and rule it names. |
| `Findings.SummaryAddsUp` | rust/crates/netra-core/src/storage/repositories/findings.rs:467-521 | The counts by status add up to the total. |
| `Findings.UpsertsOnly` | rust/crates/netra-core/src/storage/repositories/findings.rs:223-229 | Reports change only the rows they name; such a row is there afterwards, open unless suppressed, and keeps its rule. |
| `Findings.UpsertsCount` | rust/crates/netra-core/src/storage/repositories/findings.rs:223-229 | A row counts the reports for its fingerprint. |
| `Findings.UpsertsCarry` | rust/crates/netra-core/src/storage/repositories/findings.rs:211-251 | After any reports a row carries the evidence and the time of the last report for its fingerprint; rule, severity, title and first time are those of the row as it was, or of the first report if there was none. |
| `Findings.WritesCarry` | rust/crates/netra-core/src/storage/repositories/findings.rs:211-251 | The same after the writes of a cycle; closing a row only moves the time at which it was last seen. |
| `Findings.WritesExactly` | rust/crates/netra-core/src/storage/repositories/findings.rs:411-464 | For any reports and any list of rules: OPEN exactly if reported and not suppressed for listed rules, never closed for others. |
| `Findings.RowsAreTold` | rust/crates/netra-core/src/storage/repositories/findings.rs:211-251 | What becomes of a row depends on the reports for its fingerprint alone, in their order, times aside. |
| `Findings.WritesAgree` | rust/crates/netra-core/src/storage/repositories/findings.rs:211-251 | Two cycles with the same reports for every fingerprint leave tables that agree but for times. |
| `Guardrail.SourceExactly` | rust/crates/netra-core/src/rules/network/common.rs:98-118 | The first required source that is missing or degraded, and nothing behind it, decides. |
| `Guardrail.TolerantExactly` | rust/crates/netra-core/src/rules/network/common.rs:92-151 | A policy lets through every readable scanner observation if and only if it does not suppress on low confidence or partial privilege. |
| `Guardrail.CompleteExactly` | rust/crates/netra-core/src/rules/network/common.rs:92-151 | For a readable topology without missing required sources: proceeds always if and only if the policy is tolerant and does not suppress degraded required sources. |
| `Guardrail.StrictExactly` | rust/crates/netra-core/src/rules/network/common.rs:53-62 | The strict policy proceeds exactly on fully privileged observations of the highest confidence with every required source intact. |
| `Guardrail.LenientExactly` | rust/crates/netra-core/src/rules/network/common.rs:65-89 | A standard or permissive rule is suppressed exactly if the first required source that is not intact is missing, or all are intact and the observation is unreadable. |
| `Guardrail.EvaluateExactly` | rust/crates/netra-core/src/rules/network/common.rs:92-151 | The whole decision for every policy: the first required source that is not intact decides before anything else, by the action for missing or for degraded sources; then an unreadable privilege, an unsupported one, a partial one where full privilege is asked for; then a confidence below the required one; and each action proceeds, suppresses or downgrades as it says. |
| `Guardrail.SeverityExactly` | rust/crates/netra-core/src/rules/network/common.rs:65-89 | Once let through, a permissive rule reports with its own severity; a standard one with the downgraded severity as soon as a required source is degraded, the privilege partial or the confidence heuristic, else with its own. |
| `Guardrail.RequiredOrderExactly` | rust/crates/netra-core/src/rules/network/common.rs:101-116 | The decision is the same for every order of the required sources if and only if they do not mix missing with merely degraded ones, or the policy does the same about both. |
| `Guardrail.SourceOrderIrrelevant` | rust/crates/netra-core/src/rules/network/common.rs:101-116 | The order and repetition of the reported missing and degraded sources do not matter. |
| `Rules.RuleEngine.EvaluateObservation` | rust/crates/netra-core/src/rules/engine.rs:118-159 | The two loops return one entry per raw finding of every rule of the observation's domain, in order of registration. |
| `Rules.RuleEngine.RegisterRule` | rust/crates/netra-core/src/rules/engine.rs:43-45 | Registration appends. |
| `Rules.FindingOrigin` | rust/crates/netra-core/src/rules/engine.rs:118-159 | Every entry comes from a rule of the observation's domain, repeats severity, title and evidence of one of its raw findings, and carries the fingerprint of that rule, target and discriminator. |
| `Rules.FindingsGrow` | rust/crates/netra-core/src/rules/engine.rs:118-159 | One more rule adds nothing if it is for another domain, otherwise one entry per raw finding of its judgement, in order, behind the entries of the rules before it; a rule sees everything but the source lists of a topology, and a network rule judges with the severity its guardrail leaves it. |
| `Rules.FingerprintTellsRule` | rust/crates/netra-core/src/storage/repositories/findings.rs:145-153 | With colon-free rule ids and an injective digest, equal fingerprints belong to one rule. |
| `Rules.RegisteredIds` | rust/crates/netra-core/src/rules/engine.rs:53-66 | The twelve registered ids are distinct and free of colons. |
| `Rules.RegisteredJudges` | rust/crates/netra-core/src/rules/network/registry.rs:73-98 | The domain of each registered rule and the judgement it makes. |
| `Rules.RegisteredDecisions` | rust/crates/netra-core/src/rules/network/registry.rs:73-98 | The decision of every registered network rule on every observation of its domain: NET-003 asks for routes, then interfaces, NET-008 the other way round, NET-004 for routes; the others look at privilege and confidence alone; NET-003 and NET-006 start from medium severity, the others from low. |
| `Rules.ResolveRuleId` | rust/crates/netra-core/src/rules/engine.rs:75-110 | Resolves a full id to itself, a short form of no full id to the first id it abbreviates, and nothing else. |
| `Rules.ShortFormUnique` | rust/crates/netra-core/src/rules/engine.rs:92-107 | No short form abbreviates two registered ids, so resolution is never ambiguous. |
| `Rules.ShortExactly` | rust/crates/netra-core/src/rules/engine.rs:92-99 | A short form is two to four letters, a dash and three digits. |
| `Rules.Net004Reports` | rust/crates/netra-core/src/rules/network/net_004.rs:57-157 | When its guardrail proceeds, NET-004 reports every competition once and in order, for the host of the observation, with low severity, its fixed title and the canonical discriminator. |
| `Net004.FindCompetitions` | rust/crates/netra-core/src/rules/network/net_004.rs:72-157 | Partition, grouping and iteration in metric order, loop by loop. |
| `Net004.CompetitionsExactly` | rust/crates/netra-core/src/rules/network/net_004.rs:72-157 | One report per family and metric with at least two distinct addresses and no other, naming exactly those addresses ascending and carrying exactly the gateways of that family and metric in their order; reports ordered by family, then metric. |
| `Net004.EarlyExitHarmless` | rust/crates/netra-core/src/rules/network/net_004.rs:86-90 | Skipping families of at most one gateway never loses a report. |
| `Net004.DiscriminatorsCanonical` | rust/crates/netra-core/src/rules/network/net_004.rs:97-115 | Permuting or duplicating gateways leaves the list of discriminators unchanged. |
| `Net004.DiscriminatorDetermines` | rust/crates/netra-core/src/rules/network/net_004.rs:112-115 | A discriminator determines family and metric, so two reports never share one. |
| `Net004.DiscriminatorText` | rust/crates/netra-core/src/rules/network/net_004.rs:112-115 | A discriminator is EQUAL_METRIC_GW, the family, the metric in decimal and the addresses, with colons between these and underscores between addresses. |
| `Netlink.ParseNetlinkNeighbors` | rust/crates/netra-platform/src/scanners/linux/neighbors.rs:112-243 | The parser's message loop on any buffer, in either byte order: every read inside the buffer, termination, and the table that the splitting of the buffer defines; what that table holds for encoded dumps is `Netlink.ReadExactly` and `Netlink.TableOfDump`. |
| `Netlink.ParseMessage` | rust/crates/netra-platform/src/scanners/linux/neighbors.rs:132-228 | The record read in place from a message is the one read from that message's own bytes. |
| `Netlink.ParseAttributes` | rust/crates/netra-platform/src/scanners/linux/neighbors.rs:160-204 | The attribute loop: of the attributes up to the end or the first malformed one, the last that says something decides. |
| `Tlv.SplitInSlice` | rust/crates/netra-platform/src/scanners/linux/neighbors.rs:157-204 | Attributes are read from inside their own message, whatever surrounds it. |
| `Tlv.SplitEncoded` | rust/crates/netra-platform/src/scanners/linux/neighbors.rs:163-204 | Splitting inverts the padded encoding of any list of attributes. |
| `Tlv.SplitAligned` | rust/crates/netra-platform/src/scanners/linux/neighbors.rs:116-232 | Splitting inverts the aligned encoding of any messages followed by DONE and arbitrary bytes. |
| `Tlv.SpansProgress` | rust/crates/netra-platform/src/scanners/linux/neighbors.rs:116-232 | In every buffer the messages read are disjoint, in order, inside the buffer and at least 16 bytes long. |
| `Tlv.SplitReadsSpans` | rust/crates/netra-platform/src/scanners/linux/neighbors.rs:116-232 | The messages read are exactly the slices of those spans. |
| `Netlink.ReadEncoded` | rust/crates/netra-platform/src/scanners/linux/neighbors.rs:132-228 | One encoded neighbor message is read as what it means: a record exactly if it carries a usable address. |
| `Netlink.ReadExactly` | rust/crates/netra-platform/src/scanners/linux/neighbors.rs:132-228 | Of an encoded neighbor message a record is read if and only if some attribute of kind 1 carries, for family 2, at least four bytes that are not 0.0.0.0 and do not start with 127, or, for family 10, at least sixteen that are neither :: nor ::1. Its address is those leading bytes of the last such attribute; its hardware address that of the last attribute of kind 2 with a byte that is not zero and a digest that is not empty; index, state and router flag are the numbers of the message. |
| `Netlink.EncodedInBytes` | rust/crates/netra-platform/src/scanners/linux/neighbors.rs:113-160 | The encoded message place by place: total length, type 28, family, index, state and flags at their offsets in either byte order, the attributes from byte 28 on. |
| `Netlink.AttributeInBytes` | rust/crates/netra-platform/src/scanners/linux/neighbors.rs:162-205 | The encoded attribute: length with header, kind, data, and zeros up to a multiple of four. |
| `Netlink.TableOfDump` | rust/crates/netra-platform/src/scanners/linux/neighbors.rs:112-243 | The table of any encoded dump, whatever follows its DONE message: exactly the records that are the first of their address and interface index, sorted strictly by family, address text and index. |
| `Netlink.MessageOrderIrrelevant` | rust/crates/netra-platform/src/scanners/linux/neighbors.rs:221-242 | Without two records of one key the table depends neither on the order of messages nor on trailing bytes. |
| `IpcCodec.Codec.Decode` | rust/crates/netra-core/src/ipc/codec.rs:31-72 | One decoder call: waits, refuses an oversized prefix without consuming it, or consumes exactly one frame. |
| `IpcCodec.Codec.Encode` | rust/crates/netra-core/src/ipc/codec.rs:77-96 | Appends one frame, or refuses and appends nothing. |
| `IpcCodec.StepMeaning` | rust/crates/netra-core/src/ipc/codec.rs:31-72 | A call answers for exactly the frame the buffer starts with, also when its payload is malformed. |
| `IpcCodec.StepOnBytes` | rust/crates/netra-core/src/ipc/codec.rs:31-71 | A step on plain bytes: four bytes announce the length, the most significant first; when it waits, refuses, consumes and parses. |
| `IpcCodec.FrameOnBytes` | rust/crates/netra-core/src/ipc/codec.rs:77-95 | A frame on plain bytes: the length modulo 2^32, the most significant byte first, then the payload. |
| `IpcCodec.DrainExtends` | rust/crates/netra-core/src/ipc/codec.rs:31-72 | Draining a longer buffer continues the draining of the shorter one. |
| `IpcCodec.ChunkingInvisible` | rust/crates/netra-core/src/ipc/codec.rs:31-72 | For every way of cutting the stream the same envelopes and the same first error come out. |
| `IpcCodec.RoundTrip` | rust/crates/netra-core/src/ipc/codec.rs:31-95 | For a limit below 2^32, concatenated frames decode to the envelopes, followed by whatever the rest decodes to. |
| `IpcCodec.DeliveredExactly` | rust/crates/netra-core/src/ipc/codec.rs:31-95 | A receiver gets exactly the encoded envelopes and an empty buffer, however the transport cuts the bytes. |
| `IpcCodec.ReadBackIffLengthFits` | rust/crates/netra-core/src/ipc/codec.rs:84-92 | A single accepted frame is read back whole if and only if its length fits 32 bits. |
| `Topology.BuildSnapshot` | rust/crates/netra-core/src/network/topology.rs:93-219 | The builder, loop by loop, for every combination of payloads; what its lists hold is in `TopologyContents`. |
| `Topology.BuiltIsSorted` | rust/crates/netra-core/src/network/topology.rs:150-199 | Every list of the snapshot is a sorted arrangement of what its payload holds. |
| `TopologyContents.GatewaysExactly` | rust/crates/netra-core/src/network/topology.rs:151-168 | A gateway is in the snapshot if and only if some route of the payload is a default gateway with that address, interface index, name, metric and family; one per such route, by metric, then address. |
| `TopologyContents.SubnetsExactly` | rust/crates/netra-core/src/network/topology.rs:118-148 | A subnet is there if and only if some interface that is up and no loopback has that address and prefix length, of a loopback, private, link-local, carrier-grade or public class; one per such address, in order of the text. |
| `TopologyContents.InterfacesExactly` | rust/crates/netra-core/src/network/topology.rs:107-147 | The interfaces are those of the payload, field by field and with all their addresses in order, sorted by index. |
| `TopologyContents.ResolversExactly` | rust/crates/netra-core/src/network/topology.rs:171-182 | The resolvers are the servers of the payload, field by field, sorted by address. |
| `TopologyContents.NeighborsExactly` | rust/crates/netra-core/src/network/topology.rs:185-199 | The neighbors are those of the payload, field by field, sorted by address; a router is one that says so. |
| `TopologyContents.TiesKeepOrder` | rust/crates/netra-core/src/network/topology.rs:147-168 | Interfaces of one index, and gateways of one metric and address, keep the order of the payload. |
| `TopologyContents.ProvenanceExactly` | rust/crates/netra-core/src/network/topology.rs:107-210 | Provenance names exactly the payloads there are; confidence is the highest with all four, the lowest with none, and SYSTEM_TABLE otherwise. |
| `Topology.MultiHomedExactly` | rust/crates/netra-core/src/network/topology.rs:101-148 | Multi-homed exactly if interfaces of two different indexes are up, not loopback, and have a usable address. |
| `Topology.ExtractFromObservations` | rust/crates/netra-core/src/network/topology.rs:503-565 | The extraction loop: last payload per scanner, missing sources in fixed order, degraded sources in order of arrival. |
| `Topology.ExtractionOrderIrrelevant` | rust/crates/netra-core/src/network/topology.rs:503-620 | With one observation per scanner, payloads, missing sources, confidence and privilege do not depend on the order; degraded sources only permute. |
| `TopologyContents.SourcesExactly` | rust/crates/netra-core/src/network/topology.rs:503-568 | Each payload is the last one of its kind that its own scanner delivered. |
| `TopologyContents.MissingExactly` | rust/crates/netra-core/src/network/topology.rs:503-568 | Missing are the network scanners without an observation: interfaces, routes, DNS, neighbors, in this order. |
| `TopologyContents.DegradedExactly` | rust/crates/netra-core/src/network/topology.rs:503-568 | Every observation of a network scanner without full privilege adds that scanner to the degraded sources, in order. |
| `TopologyContents.ConfidenceByCount` | rust/crates/netra-core/src/network/topology.rs:570-596 | Confidence goes by the number of observations of network scanners with full privilege: four, three, two; any other number gives the lowest. |
| `TopologyContents.PrivilegeExactly` | rust/crates/netra-core/src/network/topology.rs:598-620 | Available exactly if some network scanner had full privilege, Unsupported exactly if none delivered. |
| `TopologyContents.InCidrTextExactly` | rust/crates/netra-core/src/network/topology.rs:274-325 | An address text lies in a block text exactly if address, network and the prefix behind the last slash parse and the numbers say so. |
| `Topology.ConfidenceExactly` | rust/crates/netra-core/src/network/topology.rs:581-597 | With distinct scanners, the highest confidence means exactly that all four network scanners delivered usable data. |
| `Correlation.Correlate` | rust/crates/netra-core/src/network/topology.rs:345-445 | The correlator's loops produce the found edges, sorted. |
| `Correlation.EdgesExactly` | rust/crates/netra-core/src/network/topology.rs:345-445 | An edge is returned if and only if one of the six relations derives it; the result is sorted by kind, source and destination and has the multiplicities of the rules. |
| `EdgeContents.EdgesInWords` | rust/crates/netra-core/src/network/topology.rs:345-487 | The edges in terms of the nodes and the texts of their ends: one for every relation that the snapshot supports and no other, as many as there are relations, ordered by kind, start and end. |
| `Correlation.SnapshotOrderIrrelevant` | rust/crates/netra-core/src/network/topology.rs:345-445 | If interfaces that share the index of a nameless gateway share a name, permuting the lists of the snapshot leaves the edges unchanged. |
| `Correlation.OrderBlindExactly` | rust/crates/netra-core/src/network/topology.rs:345-445 | The edges are the same for every order of the lists of a snapshot if and only if interfaces that share the index of a nameless gateway share a name, letter case aside. |
| `IpAddress.MaskTestComparesPrefixes` | rust/crates/netra-core/src/network/topology.rs:296-324 | The mask test holds exactly when both addresses have equal quotients by 2^(width - prefix) (section 3.1 of RFC 4632), for both families. |
| `IpAddress.CidrEquivalence` | rust/crates/netra-core/src/network/topology.rs:296-324 | For a fixed prefix the test is an equivalence on the addresses of a family. |
| `IpAddress.CidrAntitone` | rust/crates/netra-core/src/network/topology.rs:296-324 | A longer prefix selects a smaller block. |
| `IpAddress.CidrInterval` | rust/crates/netra-core/src/network/topology.rs:296-324 | A block is an interval of 2^(width - prefix) addresses. |
| `IpAddress.TestIsBlock` | rust/crates/netra-core/src/network/ip.rs:43-92 | Each bit test of the classifiers selects exactly the registered CIDR blocks of its class, for example Private in section 3 of RFC 1918. |
| `IpAddress.TestsExclusive` | rust/crates/netra-core/src/network/ip.rs:43-92 | No address passes the tests of two classes. |
| `IpAddress.ClassifyNamesBlock` | rust/crates/netra-core/src/network/ip.rs:43-92 | The classifier names the class of the block an address lies in, and PublicGlobal exactly outside all blocks. |
| `IpAddress.TestOrderIrrelevant` | rust/crates/netra-core/src/network/ip.rs:43-92 | Testing the classes in any other order classifies every address alike. |
| `Supervisor.VerifyIpcToken` | rust/crates/netra-core/src/ipc/auth.rs:13-27 | The XOR/OR fold without early exit is equality of byte strings. |
| `Supervisor.SupervisorEngine.HandleIpcMessage` | rust/crates/netra-core/src/supervisor/runner.rs:62-156 | Replies and the new engine state of every kind of message, with the token check and ignored illegal transitions. |
| `Supervisor.SupervisorEngine.HandleWorkerExit` | rust/crates/netra-core/src/supervisor/runner.rs:159-194 | Clears the worker and records the crash. After a restart decision the state is Degraded if it was Starting, Running or Degraded, and unchanged if Failed or Stopped; after a trip it is Failed unless it was Stopped. |
| `Supervisor.SupervisorEngine.RegisterWorkerSpawn` | rust/crates/netra-core/src/supervisor/runner.rs:54-59 | Records the worker and its start. |
| `Supervisor.SupervisorEngine.PrepareNextWorkerToken` | rust/crates/netra-core/src/supervisor/runner.rs:42-46 | Replaces the expected token. |
| `Supervisor.SupervisorEngine.ShutdownEngine` | rust/crates/netra-core/src/supervisor/runner.rs:197-204 | Passes through Stopping under one lock. |
| `Supervisor.SupervisorEngine.TransitionTo` | rust/crates/netra-core/src/supervisor/state.rs:46-53 | Moves on a legal transition, refuses otherwise. |
| `Supervisor.RunningNeedsToken` | rust/crates/netra-core/src/supervisor/runner.rs:73-82 | In every interleaving of handler steps, Running is entered only by a handshake with the token prepared last, from Starting or Degraded. |
| `Supervisor.HandshakeDecides` | rust/crates/netra-core/src/supervisor/runner.rs:66-113 | That handshake makes the supervisor run; any other handshake changes nothing. |
| `Supervisor.DecisionsMove` | rust/crates/netra-core/src/supervisor/runner.rs:168-192 | In every run: applying a restart makes a Starting, Running or Degraded supervisor Degraded and changes no other; applying a trip makes every supervisor Failed that is not Stopped. |
| `Supervisor.FailedIsFinal` | rust/crates/netra-core/src/supervisor/state.rs:36-42 | Once Failed, whatever follows, the supervisor is Failed, or Stopped if a shutdown came. |
| `Supervisor.ShutdownStops` | rust/crates/netra-core/src/supervisor/runner.rs:197-204 | Shutdown ends in Stopped from every reachable state, and no later step leaves it. |
| `Supervisor.ExitsPerWindow` | rust/crates/netra-core/src/supervisor/runner.rs:159-194 | For a window below 2^63 s and clock readings in order: a supervisor that is neither Failed nor Stopped has seen at most the allowed number of worker exits in any window, and one more per trip its handlers have yet to apply, however they interleave; with no decision pending, at most the allowed number. |
| `Watchdog.CrashTracker.RecordCrash` | rust/crates/netra-core/src/supervisor/watchdog.rs:92-117 | Prunes, records, and answers a crash, with the saturating, casting and wrapping arithmetic of the source. |
| `Watchdog.CrashTracker.RecordHeartbeat` | rust/crates/netra-core/src/supervisor/watchdog.rs:70-78 | Records the heartbeat and resets the streak after the stable period. |
| `Watchdog.CrashTracker.RecordWorkerStart` | rust/crates/netra-core/src/supervisor/watchdog.rs:64-67 | Records the start as the first sign of life. |
| `Watchdog.CrashTracker.IsHeartbeatTimedOut` | rust/crates/netra-core/src/supervisor/watchdog.rs:81-89 | The timeout test in 64-bit milliseconds. |
| `Watchdog.ResetsExactly` | rust/crates/netra-core/src/supervisor/watchdog.rs:70-78 | In every run the streak is set back to zero by a heartbeat exactly if the worker has been up for the stable period, in the arithmetic of the source, since its last start without a crash. |
| `Watchdog.Delays` | rust/crates/netra-core/src/supervisor/watchdog.rs:110-113 | The delay of every streak: the base delay, doubled with each further crash up to four times, modulo 2^64, and at most 32000 ms. |
| `Watchdog.HistoryIsWindow` | rust/crates/netra-core/src/supervisor/watchdog.rs:92-98 | With a non-decreasing clock the history after a crash is that crash and every earlier crash of the run that its window reaches. |
| `Watchdog.AnsweredExactly` | rust/crates/netra-core/src/supervisor/watchdog.rs:103-116 | With a non-decreasing clock a crash is answered with Restart if and only if the crashes since the last reset, counted modulo 2^32, are fewer than the limit, and so are those in the window. |
| `Watchdog.RestartsPerWindow` | rust/crates/netra-core/src/supervisor/watchdog.rs:92-117 | With a non-decreasing clock and a window below 2^63 s: in any interval as long as the window at most limit - 1 crashes are answered with Restart, whatever the heartbeats do. |
| `Watchdog.RestartBoundExact` | rust/crates/netra-core/src/supervisor/watchdog.rs:94-95 | That bound holds of all runs with a non-decreasing clock if and only if the window fits an i64 or the limit is at most one. |
| `Watchdog.DelaysGrowExactly` | rust/crates/netra-core/src/supervisor/watchdog.rs:110-115 | Delays grow along a streak if and only if no doubling of the base delay drops below the cap by losing high bits. |
| `Watchdog.StreakDelaysGrow` | rust/crates/netra-core/src/supervisor/watchdog.rs:110-115 | In every run, for a base delay whose doublings are safe: restart delays within a streak are non-decreasing, unless a crash between them was answered by a trip with the count 2^32 - 1. |
| `Watchdog.DelaysCapped` | rust/crates/netra-core/src/supervisor/watchdog.rs:110-115 | No restart of any run is delayed by more than 32000 ms. |
| `Watchdog.WrapStartsOver` | rust/crates/netra-core/src/supervisor/watchdog.rs:101-115 | Such a count is reached: in a streak of 2^32 crashes, one a second, the fifth is answered with 16 s and the last one with 1 s. |
| `Watchdog.TimedOutExactly` | rust/crates/netra-core/src/supervisor/watchdog.rs:81-89 | For all clock readings: a worker counts as hung exactly when the age of its last sign of life, in milliseconds modulo 2^64, reaches the timeout; that is its true age up to 2^64 ms, while a clock set back makes it hung for every timeout within reach. |
| `Queue.ObservationQueue.Enqueue` | rust/crates/netra-core/src/storage/repositories/queue.rs:81-168 | Touches a queued row of the same hash, moving its update time alone, or inserts a new row in QUEUED with no retries; no other row changes. |
| `Queue.ObservationQueue.FetchQueuedBatch` | rust/crates/netra-core/src/storage/repositories/queue.rs:171-208 | The oldest queued rows, at most the limit, oldest first. |
| `Queue.ObservationQueue.MarkInFlight` | rust/crates/netra-core/src/storage/repositories/queue.rs:211-231 | The named rows that were queued go IN_FLIGHT with one more retry and the new time, no other row changes; one delivery event per id. |
| `Queue.ObservationQueue.MarkAcknowledged` | rust/crates/netra-core/src/storage/repositories/queue.rs:234-254 | The named rows become ACKNOWLEDGED with the new time, whatever their status; one event per id, and the number of ids that found a row. |
| `Queue.ObservationQueue.MarkDeadLetter` | rust/crates/netra-core/src/storage/repositories/queue.rs:257-277 | The named rows become DEAD_LETTER with the new time, whatever their status; one event per id, and the number of ids that found a row. |
| `Queue.MarksDeliver` | rust/crates/netra-core/src/storage/repositories/queue.rs:211-231 | For any list of ids, with repetitions: the rows after the deliveries, and the count, which is one per row that was queued. |
| `Queue.MarksSettle` | rust/crates/netra-core/src/storage/repositories/queue.rs:234-277 | For any list of ids, with repetitions: the rows after acknowledging or giving up, and the count, which is one per mention of an id that has a row. |
| `Queue.ObservationQueue.RequeueStaleInFlight` | rust/crates/netra-core/src/storage/repositories/queue.rs:280-309 | Rows in flight since before the cutoff become DEAD_LETTER if their retries have reached the limit and QUEUED otherwise, with the new time; no other row changes; returns the number put back. |
| `Queue.SelectOldest` | rust/crates/netra-core/src/storage/repositories/queue.rs:171-208 | Selection by creation time with a limit. |
| `Queue.RequeueSettlesStale` | rust/crates/netra-core/src/storage/repositories/queue.rs:280-309 | Afterwards no stale row is in flight: each became a dead letter or queued, by its retries, and no other row moved. |
| `Queue.AtMostMaxDeliveries` | rust/crates/netra-core/src/storage/repositories/queue.rs:211-309 | In every run no observation goes in flight more often than the largest retry limit used (once, for a limit below one). |
| `Queue.BoundReached` | rust/crates/netra-core/src/storage/repositories/queue.rs:211-309 | The bound is exact: for every limit some legal run delivers an observation that often. |
| `Queue.FinishedNeverDelivered` | rust/crates/netra-core/src/storage/repositories/queue.rs:211-309 | An acknowledged, dead or pruned observation is never delivered again. |
| `Queue.InsertedIsLiveOrPruned` | rust/crates/netra-core/src/storage/pruner.rs:115-164 | Inserted ids are exactly the live and the pruned ones, which are disjoint; the numbers add up. |
| `Queue.OnlySettledLeave` | rust/crates/netra-core/src/storage/pruner.rs:115-164 | A row leaves the table only as ACKNOWLEDGED or DEAD_LETTER. |
| `Queue.DuplicatesAreRequeued` | rust/crates/netra-core/src/storage/repositories/queue.rs:87-168 | The queued rows of a hash are at most one more than the requeueings of that hash. |
| `Queue.EnqueueIsLegal` | rust/crates/netra-core/src/storage/repositories/queue.rs:81-168 | Enqueueing under a fresh identifier extends any legal run, so the run theorems cover any number of scan cycles. |
| `Pruner.ExecutePrune` | rust/crates/netra-core/src/storage/pruner.rs:99-178 | The four statements, their ages and their counts; the emergency step runs exactly if the store is still critical after the others, and takes the oldest acknowledged rows, at most 500. |
| `Pruner.PruneExactly` | rust/crates/netra-core/src/storage/pruner.rs:115-164 | The queue keeps exactly the rows that are not acknowledged for seven days, not dead for thirty, and not victims of the emergency step, unchanged. |
| `Pruner.FindingAges` | rust/crates/netra-core/src/storage/pruner.rs:133-140 | Findings stay exactly if they are open or were seen in the last ninety days, unchanged. |
| `Pruner.QuotaExactly` | rust/crates/netra-core/src/storage/pruner.rs:51-84 | The four answers by whole percent of the limit: full, from 95 on and not critical, from 85 on, below. |
| `Pruner.RefusedExactly` | rust/crates/netra-core/src/storage/pruner.rs:51-84 | Ordinary writes are refused exactly at the sizes at which pruning takes its emergency step, critical ones only when the store is full. |
| `Pruner.PruneIsLegal` | rust/crates/netra-core/src/storage/pruner.rs:115-164 | The queue statements of a pruning are legal in every run, so the run theorems cover them. |
| `Pruner.PruneKeepsLive` | rust/crates/netra-core/src/storage/pruner.rs:92-98 | Queued and in-flight observations and open findings survive a pruning untouched. |
| `SessionMarker.StorageDirectory.AcquireSession` | rust/crates/netra-core/src/storage/marker.rs:79-158 | An undisturbed acquisition: a live holder other than this process refuses it and nothing is written; otherwise it takes the session file and the marker away, and reports an unclean restart exactly if a session was left behind or the marker was not there, with the session that was left. |
| `SessionMarker.StorageDirectory.ReleaseSession` | rust/crates/netra-core/src/storage/marker.rs:166-212 | An undisturbed release leaves the marker and no session file. |
| `SessionMarker.UncleanExactly` | rust/crates/netra-core/src/storage/marker.rs:79-158 | In every run with crashes between any two filesystem steps, an acquisition reports a clean restart if and only if the session opened last ran its release through the final rename and no later acquisition died after taking the marker. |
| `SessionMarker.ReleaseThenAcquire` | rust/crates/netra-core/src/storage/marker.rs:166-212 | A completed release followed by an acquisition reports a clean restart. |
| `SessionMarker.ContenderRefused` | rust/crates/netra-core/src/storage/marker.rs:91-99 | While a session is open every other process is refused and writes nothing. |
| `SessionMarker.ContenderExactly` | rust/crates/netra-core/src/storage/marker.rs:91-99 | A contender is shut out exactly while the session is open and until its release has removed the file; while the owner is still acquiring it gets in, unless a left-behind session has the owner's process id. |
| `SessionMarker.RaceExactly` | rust/crates/netra-core/src/storage/marker.rs:79-158 | Two processes that both acquire, step by step in every interleaving and whatever was left behind: each gets in exactly if it looks before the other has written the file; one that the file left behind shuts out, only in the moment in which the other has emptied it. |
| `SessionMarker.OneGetsIn` | rust/crates/netra-core/src/storage/marker.rs:79-158 | One of the two gets in, unless the file left behind shuts out both. |
| `SessionMarker.ExclusiveExactly` | rust/crates/netra-core/src/storage/marker.rs:72-99 | No interleaving lets both in if and only if a third running process holds the session already. |
| `SessionMarker.CrashWhileOpen` | rust/crates/netra-core/src/storage/marker.rs:100-108 | A crash with a session open is reported, with that session, by the next acquisition. |
| `NonceCache.Cache.CheckAndRecord` | rust/crates/netra-api/src/middleware/auth.rs:31-44 | Prunes entries of a TTL or more, then accepts and records a nonce exactly if no younger entry of it is there; other young entries stay as they are. |
| `NonceCache.AgreesWithHistory` | rust/crates/netra-api/src/middleware/auth.rs:31-44 | Despite the pruning, a call is accepted if and only if no earlier accepted call for its nonce is less than a TTL old. |
| `NonceCache.TimelyExactly` | rust/crates/netra-api/src/middleware/auth.rs:103-109 | For all clock readings, timestamps and skews: the wrapping test accepts the timestamps within the skew, those 2^64 seconds beyond them, and the one exactly 2^63 seconds away. |
| `NonceCache.AtMostOnceExactly` | rust/crates/netra-api/src/middleware/auth.rs:103-128 | For a skew below 2^60 s: one (nonce, timestamp) passes both checks at most once in every run if and only if the TTL outlasts twice the skew, one second and the lag: the time between the two checks and whatever the wall clock is set back by. |
| `NonceCache.DefaultsAreShort` | rust/crates/netra-api/src/middleware/auth.rs:47-51 | Without lag this means a TTL above twice the skew; the defaults, 600 s and 300 s, are one second short. |
| `SignedRequests.VerifyRequest` | rust/crates/netra-api/src/middleware/auth.rs:54-150 | Headers, timestamp, skew, replay and signature in order, with the verdict of the first check that fails; a timely nonce is used up before the signature is looked at. |
| `SignedRequests.TextCovers` | rust/crates/netra-core/src/identity/signer.rs:60-65 | What one signature covers: of two requests with one text to sign, one of them with no newline in method, path and body hash, body hashes and timestamps are equal, nonces and request ids up to white space at their ends, paths up to that and a slash in front, methods up to that and ASCII case. |
| `SignedRequests.CheckedText` | rust/crates/netra-api/src/middleware/auth.rs:127-141 | The text the server checks: method in upper case, path with its slash, timestamp, nonce, request id and body hash, one per line and trimmed. |
| `SignedRequests.ParseExactly` | rust/crates/netra-api/src/middleware/auth.rs:95-100 | A timestamp header of digits, with an optional sign, reads as its value if that fits an i64. |
| `SignedRequests.ParseRefuses` | rust/crates/netra-api/src/middleware/auth.rs:95-100 | Nothing else reads as a timestamp. |
| `SignedRequests.ServerReadsClient` | rust/crates/netra-core/src/identity/signer.rs:21-41 | From a request that carries the fields of a canonical request, the server builds that canonical request: what was signed is what is checked. |
| `SignedRequests.ParseInvertsDecimal` | rust/crates/netra-api/src/middleware/auth.rs:95-100 | The timestamp read is the timestamp written, for every i64. |
| `SignedRequests.VerifiedOnceExactly` | rust/crates/netra-api/src/middleware/auth.rs:94-150 | For requests whose lines hold no newline and a skew below 2^60 s: one signed text is verified at most once in every run if and only if the TTL outlasts the skew and the lag, and no two admitted nonces differ in surrounding white space alone. |
| `SignedRequests.WhiteSpaceDecides` | rust/crates/netra-core/src/identity/signer.rs:34-37 | So one signature can be verified twice when nonces may carry white space, and where parsers strip it the TTL alone decides. |
| `Canonical.SplitInvertsJoin` | rust/crates/netra-core/src/identity/signer.rs:60-65 | Splitting at newlines gives the fields back if and only if none contains a newline. |
| `Canonical.UnmistakableExactly` | rust/crates/netra-core/src/identity/signer.rs:60-65 | A string to sign belongs to one request alone, among all requests, if and only if no field of that request contains a newline. |
| `Canonical.TextDetermines` | rust/crates/netra-core/src/identity/protocol.rs:44-56 | Over newline-free fields, requests, proofs of possession, key rotations and session handshakes share no string: the text determines kind and fields, the public key of a rotation up to white space around it. |
| `Canonical.NewlineHidesKind` | rust/crates/netra-api/src/wss/client.rs:112-118 | With a newline in the challenge a handshake string is also a request string. |
| `Canonical.NewIsIdempotent` | rust/crates/netra-core/src/identity/signer.rs:21-41 | Building a request from the fields of a built one changes nothing, and its path starts with a slash. |
| `Canonical.RequestText` | rust/crates/netra-core/src/identity/signer.rs:21-65 | The six lines that are signed for any fields: trimmed upper-case method, trimmed path with a slash in front, timestamp, trimmed nonce, trimmed request id, body hash. |
| `Canonical.PlainRequestText` | rust/crates/netra-core/src/identity/signer.rs:60-65 | With nothing to trim and an upper-case method these are the fields themselves, joined by newlines. |
| `Canonical.TrimExactly` | rust/crates/netra-core/src/identity/signer.rs:30-37 | Trimming yields the slice between the white space at both ends and nothing else, with the white space of Unicode. |
| `Canonical.OtherTexts` | rust/crates/netra-core/src/identity/protocol.rs:44-141 | The other texts a device signs, field by field, with their domain lines. |
| `Coordinator.RuntimeCoordinator.InitializeAll` | rust/crates/netra-core/src/runtime/coordinator.rs:102-136 | The initialisation loop: in order, up to the first critical failure. |
| `Coordinator.RuntimeCoordinator.StartAll` | rust/crates/netra-core/src/runtime/coordinator.rs:139-190 | The start loop: in order, up to the first critical failure, after which the shutdown signal is broadcast; Degraded if another one failed. |
| `Coordinator.RuntimeCoordinator.Health` | rust/crates/netra-core/src/runtime/coordinator.rs:193-215 | Broken exactly if a critical component is, else unwell exactly if some component is not healthy: independent of order and early return. |
| `Coordinator.RuntimeCoordinator.TriggerShutdown` | rust/crates/netra-core/src/runtime/coordinator.rs:218-229 | Moves Ready, Running and Degraded to Stopping and publishes that, and broadcasts the signal in every state but Stopping and Stopped. |
| `Coordinator.RuntimeCoordinator.Shutdown` | rust/crates/netra-core/src/runtime/coordinator.rs:232-271 | The teardown loop, and when it reports an error. |
| `Coordinator.RuntimeCoordinator.RegisterComponent` | rust/crates/netra-core/src/runtime/coordinator.rs:74-88 | Components are added only before initialisation. |
| `Coordinator.PublishedIsPath` | rust/crates/netra-core/src/runtime/state.rs:38-79 | In every run the published states start with Created, end in the current state, and each follows one that may precede it: Initializing follows Created, Ready Initializing, Running Ready, Degraded Running, Failed Initializing or Running, Stopping Ready, Running or Degraded, Stopped Stopping or itself. |
| `Coordinator.RuntimeCoordinator.TransitionTo` | rust/crates/netra-core/src/runtime/coordinator.rs:91-99 | Publishes a legal next state and refuses every other, by the table of legal transitions. |
| `Coordinator.StartUpExactly` | rust/crates/netra-core/src/runtime/coordinator.rs:102-190 | Initialising and starting, whatever fails: the components called in order up to the first critical failure or the last, the states published, the final state, and the shutdown signal behind a broken-off start; nothing at all in any other state. |
| `Coordinator.OnceInOrder` | rust/crates/netra-core/src/runtime/coordinator.rs:102-190 | In every run, for any outcomes, components are initialised and started at most once each, in order of registration. |
| `Coordinator.InitialisedBeforeStart` | rust/crates/netra-core/src/runtime/coordinator.rs:102-190 | Every start call comes after every component was initialised, the critical ones successfully. |
| `Coordinator.AlwaysJustified` | rust/crates/netra-core/src/runtime/coordinator.rs:102-271 | The state tells exactly which components were initialised and started and how that went; Degraded means a start failed, Failed that the first critical failure broke off. |
| `Coordinator.ShutdownStopsAll` | rust/crates/netra-core/src/runtime/coordinator.rs:232-271 | Every shutdown stops every component once in exact reverse order whatever the stops answer; it ends in Stopped, except that Failed stays Failed and Created stays Created with an error. |
| `Coordinator.SignalBeforeStops` | rust/crates/netra-core/src/runtime/coordinator.rs:139-271 | In every run the signal has been broadcast exactly if a shutdown was asked for or a critical component failed to start; it follows such a failure at once, and no component is stopped before it. |
| `Coordinator.TerminalStays` | rust/crates/netra-core/src/runtime/state.rs:38-69 | A failed or stopped coordinator stays what it is. |

## Left out

- ScanCycle.RunScanCycle: the scanners themselves, and the logging of refused enqueueings; identifiers are fresh and statements succeed.
- FinishingOrder.FinishingOrderIrrelevant: speaks of the findings table; the order of degraded sources inside the stored topology payload does depend on the finishing order, as `FinishingOrder.SynthesizedAgrees` says.
- Queue.ObservationQueue.Enqueue: select and update are one atomic step on one connection, and new identifiers are taken to be fresh.
- Pruner.ExecutePrune: file sizes are inputs, and the shares of the quota are exact where the source rounds to a double.
- Supervisor.ExitsPerWindow: clock readings that reach the tracker out of order.
- SessionMarker.UncleanExactly: a crash is the end of the process, not a loss of power; one process at a time, two racing ones are in `SessionMarker.RaceExactly`, without crashes and releases.
- NonceCache.AtMostOnceExactly: a wall clock below zero or above 2^62 seconds, or set back by more than the lag; the same for SignedRequests.
- Canonical.TextDetermines: the body and context digests stand for what they digest; Ed25519 signatures are not part of the model.
- Coordinator.RuntimeCoordinator.Shutdown: timeouts as durations, a timeout is one of the outcomes of a stop; who listens to the broadcast, `wait_for_shutdown` among them.
- Topology.BuildSnapshot: device id, generation time and schema version of the snapshot.
- Netlink.ParseNetlinkNeighbors: the `/proc/net/arp` text parser and the socket loop around it.
- Concurrent calls of the coordinator; its operations are modelled one after the other.
- The baseline rules, NET-003 and NET-005 to NET-008: what they look for is a function of target and data; only their domains, guardrails and severities are modelled.
- Truncation of evidence above 64 KB, `upsert` without a precomputed entry, and the listing queries.
- SQLite errors and rollback: each statement is one atomic, succeeding update.
- UUIDs, JSON, SHA-256, RFC 3339 text, IP address text, HTTP routes, keystores, scanners of other platforms, configuration, CLI and logging.
