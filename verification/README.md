# pfBlockerNG: a Dafny model of its protocols and release algorithms

This project models the parts of pfBlockerNG whose correctness rests on an argument longer than one function body,
and proves what the code and its documentation promise of them:

- **The decision socket** of the DNS gateway (Go): one reader, many queries and a retirement share a table of 32-bit
  ids. The wire codec is modelled on bytes, the shared objects as classes, and their interleaving as a step system,
  once against arbitrary frames and once against a decider that keeps `docs/misc/dns-gateway-protocol.md`.
- **The access-control list** of the gateway (Go): the recursive include walker, the rule index, and the cache that
  skips a reload when nothing recorded has changed.
- **Catalogue retention, line pins and the z-base-32 packing** of the repository builder (Python).
- **The Makefile reference expander** of the package builder (Python).
- **The diff and C-quoted-path parsers** of the version-literal check (Python).
- **The package-version key and the release-tag order** with the choice of the previous release (Python).
- **The reconcile planner** for the smoke images (Python).

`dafny verify dfyconfig.toml` checks the whole project. Nothing here was executed.

## Layout

| files | what they hold |
|---|---|
| `FrameCodec`, `IdAllocation`, `DecisionSession`, `DecisionObjects` | frames on bytes; the id search; the critical sections as functions and as class methods |
| `GatewayProtocol`, `GatewayInvariant`, `GatewayRetirement`, `GatewayExchange` | the step system for arbitrary frames, its invariant and what follows for every run |
| `DeciderConformance`, `ForwardDiscipline` | the same gateway with a conforming decider and both directions of the wire |
| `AclLookup`, `AclText`, `AclWalk`, `AclMeaning`, `AclRefresh` | rules and index; one config line; the walker; what a load means; the cache and the rules in force |
| `AclLines`, `AclTree` | what each form of a line says, on its literal text; where an included file stands, and how deep |
| `MakefileExpand`, `MakefileMeaning`, `MakefileTexts` | the scanner on text; trees, evaluation, the depth limit; references on their literal text |
| `GitPaths`, `DiffLines` | C-quoting and its inverse; the diff parser and the printer it inverts |
| `PkgVersion`, `PkgTexts`, `ReleaseTags`, `ReleaseTexts` | the sort key, and of every form of version text; tags, their order, the chain of previous releases; tags as written, and the choice by their numbers |
| `Ranking`, `Retention`, `LinePins`, `ChannelRetention`, `RetentionTies`, `RetentionTexts` | the stable order, with ties and without; the newest `keep`; line pins; all channels; where versions tie; packages with release tags |
| `ZBase32` | the packing |
| `ReconcilePlan`, `PlanProperties`, `PlanTexts`, `PlanRules` | the planner; what its plan contains; families and keys of literal version texts; its rules over the raw inputs |
| `Common`, `Text`, `Numerals`, `Powers` | small shared vocabulary and arithmetic |

A class method or a loop is proved against a function of the same step; the lemmas are about those functions. What the
functions at the leaves read out of a text, and which bounds apply, is stated over literal texts and numbers.

## What is assumed

- An arbitrary decider may send any frames at any time. The conforming decider of `DeciderConformance` sends READY
  once and one final frame per QUERY it received; with `waits` it also waits for each REPLY before its next frame on
  that id.
- Every write to a path gives it an identity (inode, mtime, size, mode) the path never had before, and equal
  identities mean equal content and readability (`AclRefresh.Fresh`). `ReusedIdentityIsMissed` is a run that breaks
  the cache without it.
- Retention: packages of different (name, version) never tie in version key, mtime and name (`Retention.NoTies`).
  Versions with distinct sort keys never do. `RetentionTies.TiedPairDiverges` shows that every tied pair breaks
  `IncrementalIsFull`, and `TiesExist` that there are such pairs.
- Line pins: no two such packages of one line tie (`LinePins.NoLineTies`); ties between lines are harmless there.
  `TiedLineIsPinnedTwice` shows that every tied pair of one line breaks `PrunedIsWindowAndPins` and `PruningAgain`.
- The branch rows the planner reads have a name, as the row parser guarantees (scripts/reconcile-plan.py:97-100).

## Where the code and its documentation differ

- The comment on `busy` (go/pfb_dns_gateway/decider.go:114) says a FORWARD was accepted and its REPLY not yet sent.
  `Decide` clears `busy` before it writes the REPLY (lines 404 and 405), so a second FORWARD can be accepted while a
  REPLY is still unwritten: `GatewayExchange.SecondForwardIsAccepted` is such a run. `AcceptedAndUnreplied` says that
  there are never more than two and when there are two, and `SecondForward` which step makes the second. With a
  decider that waits there is one (`ForwardDiscipline.EveryForwardOneReply`).
- `maxACLLine` is 4096, but the buffer of 4098 bytes accepts 4097 bytes and the newline
  (go/pfb_dns_gateway/aclconf.go:19, 99). The model takes the buffer as the bound.
- The comment on `drained` (decider.go:279) says only a retired decider waits on it. When it is asked for before
  `markRetired`, the closed channel can say nothing: `DrainedBeforeRetiredSaysNothing`, from every live state with an
  empty table.
- The comment on `aclDeps` (go/pfb_dns_gateway/aclconf.go:39) calls it everything a load read. A file that opens but
  whose `Stat` fails ends the load and is recorded nowhere (lines 93-96). `RefreshIsSound` is therefore an
  if-and-only-if: a skipped refresh loses nothing exactly when the last load lost no file in this way. When the lost
  file is the config itself the rules stay as they are for ever (`LostConfigIsNeverReadAgain`).

## Model

| member | source | states |
|---|---|---|
| FrameCodec.FrameRoundTrip | go/pfb_dns_gateway/decider.go:46-79 | a valid frame reads back unchanged whatever follows it |
| FrameCodec.FrameLayout | docs/misc/dns-gateway-protocol.md:27-38 | a frame on the wire is a big-endian length of 5 and the payload, the type, the big-endian id and the payload, with types 1 to 6 and a length of at most 65797 |
| FrameCodec.AcceptedIsEncoded | go/pfb_dns_gateway/decider.go:58-79 | the reader accepts nothing but encodings of valid frames |
| FrameCodec.ReaderRefuses | go/pfb_dns_gateway/decider.go:58-79 | which bytes are a bad length, an unknown type and a cut frame: the length is judged before anything else is read, then the type, then the end |
| FrameCodec.CutFrame | go/pfb_dns_gateway/decider.go:56-86 | a proper non-empty part of a frame is an unexpected EOF |
| FrameCodec.CutStream | go/pfb_dns_gateway/decider.go:56-86 | a stream cut anywhere yields its whole frames, then EOF exactly at a frame boundary and unexpected EOF inside a frame |
| FrameCodec.StreamRoundTrip | docs/misc/dns-gateway-protocol.md:27-38 | frames written back to back read back unchanged, then EOF |
| FrameCodec.QueryRoundTrip | go/pfb_dns_gateway/decider.go:392-397 | a QUERY splits back uniquely exactly when its IP text has at most 255 bytes, and then any wire up to 65535 fits the limit |
| FrameCodec.WriteFrame | go/pfb_dns_gateway/decider.go:46-54 | one Write sends exactly the encoding, or on a connection that breaks a part of it and an error |
| FrameCodec.ReadFrame | go/pfb_dns_gateway/decider.go:58-79 | the buffer-filling reader returns what decoding the bytes gives, with the same error and the same rest |
| IdAllocation.Pigeonhole | go/pfb_dns_gateway/decider.go:366-371 | among more than table size plus one increments in a row one id is neither 0 nor taken |
| IdAllocation.FirstIsNext | go/pfb_dns_gateway/decider.go:366-371 | the first free id is unique and at most table size plus two increments away, across wraparound |
| DecisionObjects.Decider.FindId | go/pfb_dns_gateway/decider.go:366-371 | the loop ends within that bound at the first free id after the last one |
| DecisionObjects.Decider.Register | go/pfb_dns_gateway/decider.go:347-374 | refuses when retired, ended or full, in that order; else a nonzero id not in the table enters it, and 4096 is never exceeded |
| DecisionSession.Register | go/pfb_dns_gateway/decider.go:347-374 | a given id is nonzero and new, a refusal leaves the table alone, the bound is kept |
| DecisionSession.RegistersExactly | go/pfb_dns_gateway/decider.go:347-374 | an id is given exactly while the session is live, unretired and below 4096 outstanding queries; each refusal has exactly its own cause, the ended session its own error; and what the table, the last id and the full mark are afterwards |
| DecisionSession.FirstQuery | go/pfb_dns_gateway/decider.go:366-371 | the first id is 1 |
| DecisionObjects.Decider.Finish | go/pfb_dns_gateway/decider.go:253-270 | the answer goes into the call, the id leaves the table, an empty table closes idle once |
| DecisionObjects.Decider.Fail | go/pfb_dns_gateway/decider.go:207-222 | the first error is kept and done is closed with it |
| DecisionObjects.Decider.MarkClosing | go/pfb_dns_gateway/decider.go:199-205 | only the closing mark is set, so that the error that follows is the close |
| DecisionObjects.Decider.Drained | go/pfb_dns_gateway/decider.go:279-290 | idle is made once and closed at once when nothing is outstanding |
| DecisionObjects.Call.Deliver | go/pfb_dns_gateway/decider.go:118-131 | an abandoned call asks the reader to answer, a busy one ignores, else the slot is filled |
| DecisionObjects.Call.Abandon | go/pfb_dns_gateway/decider.go:135-146 | marks the call and says whether a delivered FORWARD was never picked up |
| DecisionObjects.Call.Delivered | go/pfb_dns_gateway/decider.go:419-428 | the answer already given, else nothing |
| GatewayInvariant.StepKeepsInv | go/pfb_dns_gateway/decider.go:120-428 | the invariant is inductive over every step, for arbitrary frames and any interleaving |
| GatewayInvariant.RunKeepsInv | go/pfb_dns_gateway/decider.go:120-428 | so it holds after every run |
| GatewayInvariant.NeverBlocksNeverPanics | go/pfb_dns_gateway/decider.go:109-146 | no send finds its one-slot channel full, nothing is closed twice, done is closed exactly when err is set |
| GatewayInvariant.FirstErrorStands | go/pfb_dns_gateway/decider.go:207-222 | err never changes once set |
| GatewayInvariant.SessionEndsExactly | go/pfb_dns_gateway/decider.go:304-345 | for every step and frame: a session ends exactly with one of the listed violations, a failed read or a failed write, keeps that cause, or the close where the gateway was closing, and only the first two stop the reader |
| GatewayInvariant.IdsAreExclusive | docs/misc/dns-gateway-protocol.md:109-118 | at most 4096 ids, never 0, and no two unfinished queries share one, abandoned ones included |
| GatewayInvariant.ForwardsAreConserved | go/pfb_dns_gateway/decider.go:118-154 | until the session ends, FORWARDs received for a query are the ignored ones, the REPLYs sent and the pending ones |
| GatewayInvariant.NextQuery | go/pfb_dns_gateway/decider.go:347-374 | in every reachable state the next query enters the table exactly when the decider is unretired, the session live and fewer than 4096 are outstanding; else it returns the refusal of its cause |
| GatewayInvariant.FullTableIsReachable | go/pfb_dns_gateway/decider.go:359-362 | a run from the start fills the table with 4096 queries, and the next one is refused as busy |
| GatewayRetirement.DrainedMeansFinished | go/pfb_dns_gateway/decider.go:272-302 | retired, then drained: the table is empty and stays empty, and every query has its final frame |
| GatewayRetirement.DrainedBeforeRetiredSaysNothing | go/pfb_dns_gateway/decider.go:279-290 | in the other order the closed channel can say nothing: from every reachable live, unretired state with an empty table |
| GatewayRetirement.FinalFrameIsReturned | go/pfb_dns_gateway/decider.go:400-428 | a query with its final frame returns that answer, never a session error, unless its own context ends |
| GatewayRetirement.SureExactlyOnceWritten | go/pfb_dns_gateway/decider.go:383-417 | a live query with its final frame returns it in every run in which its context lives, exactly when its QUERY was written |
| GatewayRetirement.DrainedLeavesOnlyUnwritten | go/pfb_dns_gateway/decider.go:272-302 | for an arbitrary decider: after the drain every live query has its final frame, and is sure of it exactly when its QUERY was written |
| GatewayRetirement.OwnStepsCount | go/pfb_dns_gateway/decider.go:400-417 | every own step brings a query nearer its return, and only a delivery sets it back |
| GatewayRetirement.EndedSessionReleases | go/pfb_dns_gateway/decider.go:413-414 | after the session ended every query that has not returned has a step to take |
| GatewayExchange.RepliesMatchForwards | go/pfb_dns_gateway/decider.go:402-407 | the k-th REPLY is what the forwarder made of the k-th accepted FORWARD; replies beyond those are empty and only after abandonment |
| GatewayExchange.RepliesAreLogged | go/pfb_dns_gateway/decider.go:325-326 | every REPLY frame on the wire is the next entry of its query's log, under that query's id |
| GatewayExchange.AcceptedAndUnreplied | go/pfb_dns_gateway/decider.go:109-114 | a query never holds more than two accepted FORWARDs without REPLY, and two exactly when a REPLY is unwritten and the slot full; the count is what it accepted less what it replied to |
| GatewayExchange.SecondForward | go/pfb_dns_gateway/decider.go:404-405 | exactly one step makes two of them: a delivery to a query whose REPLY is unwritten, not busy and not abandoned |
| GatewayExchange.SecondForwardIsAccepted | go/pfb_dns_gateway/decider.go:109-114 | an eight-step run that accepts a second FORWARD before the first REPLY |
| DeciderConformance.PlayKeepsInv | docs/misc/dns-gateway-protocol.md:53-56 | gateway, conforming decider and both wires together keep one id for one query |
| DeciderConformance.NoCrossDelivery | go/pfb_dns_gateway/decider.go:383-417 | the answer `Decide` returns is the one given to that query's own QUERY, across wraparound, reuse and abandonment |
| DeciderConformance.NoIdInFlightTwice | docs/misc/dns-gateway-protocol.md:109-113 | the decider never reads a QUERY whose id it still works on |
| DeciderConformance.ConformingIsNeverAccused | docs/misc/dns-gateway-protocol.md:133-140 | with a conforming decider the session never ends with a protocol error |
| DeciderConformance.RetirementLosesNothing | go/pfb_dns_gateway/decider.go:253-302 | after the drain the session may end anyhow: every query returns the answer given to it unless its context ended |
| DeciderConformance.ForgedAnswerIsLost | go/pfb_dns_gateway/decider.go:397-399 | an answer sent before its QUERY was written can be lost: a run from the start that does it |
| ForwardDiscipline.EveryForwardOneReply | docs/misc/dns-gateway-protocol.md:55-56 | with a decider that waits nothing is ignored, at most one FORWARD is pending, and every FORWARD gets exactly one REPLY |
| ForwardDiscipline.NoFinalWhilePending | docs/misc/dns-gateway-protocol.md:55-56 | no final frame is on its way while a FORWARD is pending |
| AclLookup.PrefixOfCovers | go/pfb_dns_gateway/acl.go:99-104 | masking the client to a length finds exactly the prefix of that length that covers it |
| AclLookup.BestIsUnique | go/pfb_dns_gateway/acl.go:84-85 | the most specific row of a client is unique |
| AclLookup.NewRules | go/pfb_dns_gateway/acl.go:127-153 | the rules are the rows plus the unlisted localhost defaults, and the length lists are exactly the lengths present, longest first |
| AclLookup.Lookup | go/pfb_dns_gateway/acl.go:94-106 | the indexed lookup is the plain scan: the most specific row's action, Refuse when none matches |
| AclLookup.LocalhostIsServed | go/pfb_dns_gateway/acl.go:38-40 | no wider deny or refuse reaches 127.0.0.0/8 or ::1 |
| AclLookup.MappedClientIsItsV4Address | go/pfb_dns_gateway/acl.go:91-91 | an IPv4-mapped client gets the action of its IPv4 address under all rules, and no other address changes |
| AclText.RowsAreMasked | go/pfb_dns_gateway/acl.go:200-242 | every row a line yields is masked, whatever its netblock says |
| AclText.ParseNetblock | go/pfb_dns_gateway/acl.go:231-242 | what a netblock text gives is a masked prefix |
| AclText.NetblockCovers | go/pfb_dns_gateway/acl.go:231-242 | a netblock with a length covers exactly the addresses that agree with the written one in that length, a bare address itself alone; a zone and what the address reader refuses give nothing |
| AclLines.RowSays | go/pfb_dns_gateway/acl.go:201-216 | every row, however spaced, quoted, glued and commented, lists its prefix with what its word says: deny drops, refuse refuses, and the six named words forward; with another word or an unreadable netblock it is nothing |
| AclLines.RowHasOneAction | go/pfb_dns_gateway/acl.go:206-209 | a second word behind the action makes it no row |
| AclLines.ImplicitRowSays | go/pfb_dns_gateway/acl.go:219-229 | the four implicit keywords imply an allow for their netblock, whatever follows it |
| AclLines.QuotesAreDropped | go/pfb_dns_gateway/acl.go:165-171 | one pair of matching quotes of either kind goes, and nothing else |
| AclLines.IncludeSays | go/pfb_dns_gateway/aclconf.go:135-156 | both include keywords with a quoted or bare target name that target, blanks before it and anything behind it |
| AclLines.BadInclude | go/pfb_dns_gateway/aclconf.go:147-161 | a directive without a target or with an open quote fails the load |
| AclLines.TargetSays | go/pfb_dns_gateway/aclconf.go:158-166 | braces and tildes are refused, wildcards make a glob, anything else is a path |
| AclLines.NegationIs | go/pfb_dns_gateway/aclconf.go:166-166 | a glob's exclamation mark behind a bracket becomes a circumflex, and nothing else changes |
| AclWalk.ConfWalker.File | go/pfb_dns_gateway/aclconf.go:71-122 | the method's whole new state and result are the recursive walk's |
| AclWalk.ConfWalker.Stream | go/pfb_dns_gateway/aclconf.go:99-121 | the read loop acts on exactly the lines that fit the buffer, skipping long ones alone and dropping the tail |
| AclWalk.ConfWalker.SkipLine | go/pfb_dns_gateway/aclconf.go:102-109 | the skip ends just behind the long line's newline |
| AclWalk.ConfWalker.Include | go/pfb_dns_gateway/aclconf.go:143-178 | one directive: a path, a glob's matches in order, or a failure, recorded as the walk records it |
| AclWalk.ConfWalker.AllowImplicit | go/pfb_dns_gateway/aclconf.go:180-187 | implicit allows only for prefixes no row lists |
| AclMeaning.LinesOfText | go/pfb_dns_gateway/aclconf.go:99-121 | a text of newline-terminated lines and a tail reads as its lines of at most 4097 bytes |
| AclMeaning.CutTextReadsEarlierLines | go/pfb_dns_gateway/aclconf.go:99-121 | a file cut off anywhere reads as the first of its lines, so no half-written row is read |
| AclMeaning.FileMeans | go/pfb_dns_gateway/aclconf.go:60-178 | the walk succeeds exactly when the include tree flattens within the file limit, and has then folded it in |
| AclMeaning.LoadMeaning | go/pfb_dns_gateway/aclconf.go:60-187 | a load's rows are the last listed action of every listed prefix in reading order, and allow for the implied unlisted ones; it succeeds exactly within depth 100 and 4096 files |
| AclMeaning.WithImpliedIs | go/pfb_dns_gateway/aclconf.go:180-187 | which prefixes the implicit allows add, and with what action |
| AclMeaning.ActingRowsAreWritten | go/pfb_dns_gateway/acl.go:31-36 | after a load a prefix is denied or refused only where some line of a readable file lists it with the word deny or refuse |
| AclMeaning.SelfIncludeNeverLoads | go/pfb_dns_gateway/aclconf.go:20-21 | a config that includes itself, directly, through other files or a glob, never loads |
| AclMeaning.FileLimit | go/pfb_dns_gateway/aclconf.go:21-21 | however it goes and whatever is written meanwhile, a load opens at most 4096 files |
| AclTree.ReadsInPlace | go/pfb_dns_gateway/aclconf.go:99-121 | an included file stands where its directive stands: behind the rows before it, before the rows behind it; without it nothing loads |
| AclTree.GlobInPlace | go/pfb_dns_gateway/aclconf.go:166-176 | a glob's files stand there one after the other in the order of the matches |
| AclTree.PlainFile | go/pfb_dns_gateway/aclconf.go:99-121 | a file without directives contributes its own lines in order and counts as one |
| AclTree.ChainLoads | go/pfb_dns_gateway/aclconf.go:75-79 | a chain of includes loads exactly when it has at most 101 files |
| AclRefresh.FileReplays | go/pfb_dns_gateway/aclconf.go:75-178 | a walk depends on nothing but the answers it recorded, until a file it could not identify stops it |
| AclRefresh.SameIdentitySameFile | go/pfb_dns_gateway/aclconf.go:71-74 | an identity seen again is the same file, unchanged in between |
| AclRefresh.UnchangedReloads | go/pfb_dns_gateway/aclconf.go:45-58 | when nothing recorded changed, a full reload gives exactly the load in force, torn reads and permission errors included, if and only if that load lost no file; else the reload records more files |
| AclRefresh.RefreshIsSound | go/pfb_dns_gateway/acl.go:72-82 | over every run of refreshes and writes, writes during a load included, a skipped refresh loses nothing if and only if the last load met no failed `Stat` |
| AclRefresh.SkippedIsExact | go/pfb_dns_gateway/aclconf.go:45-58 | the same when the stats and globs of the refresh saw different moments |
| AclRefresh.LostConfigHappens | go/pfb_dns_gateway/aclconf.go:93-96 | the failed `Stat` of the config is possible in every state with a readable config |
| AclRefresh.LostConfigIsNeverReadAgain | go/pfb_dns_gateway/aclconf.go:93-96 | after it every refresh is skipped for ever, though a reload succeeds wherever the tree can be read |
| AclRefresh.NoDependencyIsForEver | go/pfb_dns_gateway/aclconf.go:45-58 | a load that recorded nothing is in force for ever |
| AclRefresh.ReusedIdentityIsMissed | go/pfb_dns_gateway/aclconf.go:71-74 | without fresh identities a refresh can miss a change: the run |
| AclRefresh.DepsChanged | go/pfb_dns_gateway/aclconf.go:45-58 | the loops find a change exactly when some recorded file or glob looks different |
| AclRefresh.Acl.LoadNow | go/pfb_dns_gateway/acl.go:108-125 | the methods compute the load of `LoadRules`: a good load replaces the rules, a failed one keeps the last good ones, only an early failure is broken |
| AclRefresh.LoadRules | go/pfb_dns_gateway/acl.go:108-125 | over one state of the file system the rules in force hold a prefix exactly when the include tree lists or implies it or it is 127.0.0.0/8 or ::1, with the last listed action, else forward; a load outside depth 100 and 4096 files keeps the last good rules |
| AclRefresh.LoadedLookup | go/pfb_dns_gateway/acl.go:84-106 | so a client gets what the most specific such prefix says, and refuse where none covers it |
| AclRefresh.Acl.Refresh | go/pfb_dns_gateway/acl.go:72-82 | reloads exactly when one of its stats and globs, taken one after the other, differs from what was recorded, and says so |
| AclRefresh.Acl.Find | go/pfb_dns_gateway/acl.go:84-92 | forward without an address or a good load, else the most specific row for the unmapped client |
| AclRefresh.LoadedRowsAreMasked | go/pfb_dns_gateway/acl.go:231-242 | every row a load collects is masked, so the index is exact |
| MakefileExpand.FindClose | scripts/build-pkg-portable.py:206-216 | the scan stops at the matching bracket of the same kind, or at the end |
| MakefileExpand.ExpandText | scripts/build-pkg-portable.py:199-223 | the loop computes the recursive expansion, with no `$` or below depth 40 the text itself |
| MakefileExpand.ExpandRefText | scripts/build-pkg-portable.py:225-236 | the name is expanded first, then its value, an unknown name is empty |
| MakefileExpand.Makefile.Assign | scripts/build-pkg-portable.py:184-192 | what each assignment does to what a lookup sees |
| MakefileExpand.Makefile.LookUp | scripts/build-pkg-portable.py:194-197 | assignments before seeds |
| MakefileExpand.Makefile.Get | scripts/build-pkg-portable.py:319-321 | the expanded value, or the default for an unknown name |
| MakefileMeaning.ExpandIsEval | scripts/build-pkg-portable.py:199-236 | expanding a tree's printed text is evaluating the tree to that depth, in every environment |
| MakefileMeaning.ParsePrints | scripts/build-pkg-portable.py:206-222 | every text, unterminated references included, is the printed text of a well-formed tree |
| MakefileMeaning.EveryTextHasMeaning | scripts/build-pkg-portable.py:199-236 | so every text expands to its tree's value |
| MakefileMeaning.SettledIsUnlimited | scripts/build-pkg-portable.py:200-201 | once evaluation is settled a larger depth limit changes nothing |
| MakefileMeaning.AcyclicSettles | scripts/build-pkg-portable.py:199-236 | acyclic environments settle within nesting plus rank times the deepest nesting |
| MakefileMeaning.AcyclicMeaning | scripts/build-pkg-portable.py:199-236 | within the depth bound an acyclic variable gets its unlimited meaning |
| MakefileMeaning.SelfReferenceStays | scripts/build-pkg-portable.py:200-201 | a variable that refers to itself comes out as its own reference at every depth, for every plain name and either bracket |
| MakefileTexts.ReferenceEnds | scripts/build-pkg-portable.py:206-216 | a reference ends at the first bracket of its kind that closes more than the text opened, else at the end |
| MakefileTexts.ReferenceExpands | scripts/build-pkg-portable.py:203-223 | text before a reference stays, the reference is replaced, the rest is expanded on its own |
| MakefileTexts.PlainReference | scripts/build-pkg-portable.py:225-236 | a plain name comes to its value one level deeper, an unknown one to nothing |
| MakefileTexts.ModifiedReference | scripts/build-pkg-portable.py:225-236 | everything behind the first colon is the modifier chain, applied to that value |
| MakefileTexts.DepthForty | scripts/build-pkg-portable.py:200-201 | forty levels down text is still expanded, below that it stays |
| GitPaths.UnquoteGitPath | scripts/_git_paths.py:47-82 | the byte loop computes the decoder, on forged input too |
| GitPaths.DecodeInvertsQuote | scripts/_git_paths.py:33-82 | the decoder inverts git's quoting for all bytes |
| GitPaths.HeaderNameInvertsPrint | scripts/_git_paths.py:85-96 | the header name is the path git printed, quoted, with a tab marker or plain |
| GitPaths.DecodesAnything | scripts/_git_paths.py:47-82 | escapes git never writes are read too: any other character for itself, one to three octal digits for their value modulo 256 |
| DiffLines.AddedLinesByPath | scripts/check_version_literals.py:461-498 | the loop computes the line-by-line parser |
| DiffLines.ParserInvertsPrinter | scripts/check_version_literals.py:461-498 | a path maps to line n exactly when some section of that path adds line n; no path gets an empty entry |
| DiffLines.Starts | scripts/check_version_literals.py:476-485 | a line that starts with `diff --git` forgets the path and leaves the hunk, one that starts with `@@` enters a hunk, whatever follows and wherever the parser is |
| DiffLines.HunkStartExactly | scripts/check_version_literals.py:481-484 | lines count from the number behind the plus sign of the header, and from 0 when the line is no such header |
| PkgVersion.PkgVersionSortKey | scripts/pfb_pkg.py:682-706 | the loop computes the recursive key of the split version |
| PkgVersion.KeyLessTotal | scripts/pfb_pkg.py:671-680 | exactly one of less, equal and greater holds of two keys |
| PkgVersion.KeyLessTransitive | scripts/pfb_pkg.py:671-680 | the key order is transitive |
| PkgTexts.ReleaseText | scripts/pfb_pkg.py:682-706 | numbers with any separators are the base of a release |
| PkgTexts.CompactText | scripts/pfb_pkg.py:643-646 | a stage letter of either case with its number ranks a below b below r below the release |
| PkgTexts.SpelledText | scripts/pfb_pkg.py:689-697 | the words alpha, beta and rc in any case, with or without a number, rank as their letters |
| PkgTexts.OtherText | scripts/pfb_pkg.py:704-704 | any other component counts as 0 |
| PkgTexts.ListLessIs | scripts/pfb_pkg.py:671-680 | bases compare by their first difference, and a proper prefix is smaller |
| PkgTexts.DocumentedOrder | scripts/pfb_pkg.py:659-680 | the documented order for every base: previews by stage and number, below the release, below its extension |
| ReleaseTags.ShapeIsCanonical | scripts/release_version.py:20-42 | a tag is the only text with its parts: v and its package version |
| ReleaseTags.PrintedTagReads | scripts/release_version.py:20-42 | and every tag reads back from its text |
| ReleaseTexts.AcceptedAreTheTags | scripts/release_version.py:20-42 | so the accepted texts are exactly vA.B.C and vA.B.C with .aN, .bN or .rN in canonical numerals, of at most 128 characters |
| ReleaseTexts.ParsesOnItsChannel | scripts/release_version.py:237-290 | a tag parses on exactly one channel, stable for a final, edge for a preview of patch 0, testing for any other preview, and gives its parts |
| ReleaseTags.ParsedOrder | scripts/release_version.py:179-182 | the order read back from a parsed tag's strings is the order of its numbers |
| ReleaseTags.KeyOfTag | scripts/pfb_pkg.py:649-706 | the sort key of a tag's package version is its three numbers, stage and sequence |
| ReleaseTags.OrdersAgree | scripts/release_version.py:179-182 | comparing package keys is comparing releases for all tags, and equal keys mean the same tag |
| ReleaseTags.SelectionIsNewest | scripts/release_version.py:190-234 | the base is the newest allowed earlier release of the line, else for stable and edge the newest earlier stable, and none exactly when neither exists |
| ReleaseTexts.SelectionByNumbers | scripts/release_version.py:190-234 | the same over the numbers written: same major and minor and a channel it may build on, none newer; else a final of an earlier line, none newer |
| ReleaseTags.BaseIsOlder | scripts/release_version.py:190-234 | every base is an ancestor on the source line and strictly older |
| ReleaseTags.FirstGreatest | scripts/release_version.py:217-217 | max returns the first of the greatest |
| ReleaseTags.ChainDescends | scripts/release_version.py:190-234 | every chain of bases strictly descends, so it is finite |
| ReleaseTags.DescendingIsDistinct | scripts/release_version.py:190-234 | and repeats no tag |
| Retention.RetainNewest | scripts/build-repo-portable.py:857-876 | the dictionary loop and the sort keep what the specification retains |
| Retention.RetainedIsNewest | scripts/build-repo-portable.py:857-862 | the kept are the newest file of each kept pair, newest first; a pair is dropped only below `keep` others that all rank above its every file |
| RetentionTexts.TagsRank | scripts/build-repo-portable.py:871-875 | packages of release tags rank by release, then by file age, then by name in dictionary order |
| RetentionTexts.NewestReleasesStay | scripts/build-repo-portable.py:857-876 | of such packages the newest releases stay, newest first, whatever the listing; a package goes only when `keep` stay and none of them is of an earlier release |
| Retention.OrderedAfter | scripts/build-repo-portable.py:863-876 | sorting everything again after one more build is placing that build |
| Retention.FoldIsFull | scripts/build-repo-portable.py:1487-1523 | folding a build into the pruned directory keeps what the whole history would keep |
| Retention.IncrementalIsFull | scripts/build-repo-portable.py:1487-1523 | after every run the directory holds exactly what pruning the full history keeps, duplicates and mtime ties between them included |
| Retention.DistinctKeysNeverTie | scripts/build-repo-portable.py:871-875 | versions with distinct sort keys never tie |
| RetentionTies.TiedPairDiverges | scripts/build-repo-portable.py:871-876 | every tied pair and every later build have a run after which the directory differs from the full history's |
| RetentionTies.TiedLineIsPinnedTwice | scripts/build-repo-portable.py:1047-1056 | every tied pair of one line has a bucket where the line is both in the window and pinned, and pruning again drops the pin |
| RetentionTies.TiesExist | scripts/pfb_pkg.py:682-706 | tied pairs of one line exist, with a later build of the same package |
| LinePins.LineIsMajorMinor | scripts/build-repo-portable.py:887-902 | a version has a line exactly when it starts with two numbers, and two versions share it exactly when both are the same texts, behind any separators |
| LinePins.LinePinsOf | scripts/build-repo-portable.py:906-922 | the loop computes the pins newest first, and fails exactly when some version has no line |
| LinePins.Prune | scripts/build-repo-portable.py:1047-1056 | all, or the window and the pins outside it, or the failure |
| LinePins.PrunesExactly | scripts/build-repo-portable.py:1047-1056 | pruning fails exactly when there is something to prune and some version does not start with two numbers; without a limit, or with one the bucket does not reach, everything stays |
| LinePins.PinsLead | scripts/build-repo-portable.py:906-922 | the pins are the leaders of their lines, exactly one for every line |
| LinePins.PrunedIsWindowAndPins | scripts/build-repo-portable.py:1008-1013 | with no ties within a line, a pruned bucket is the window, then exactly the leaders of the lines without a package in it, each once, newest first |
| LinePins.EveryLineKept | scripts/build-repo-portable.py:1008-1013 | no line of a bucket is lost, whatever the limit and whatever ties |
| LinePins.EveryMajorMinorKept | scripts/build-repo-portable.py:1008-1013 | every major and minor pair of a bucket is in the pruned bucket |
| ChannelRetention.PruningAgain | scripts/build-repo-portable.py:1047-1056 | with no ties within a line, pruning what pruning kept changes nothing, order included |
| ChannelRetention.ChannelByName | scripts/build-repo-portable.py:925-950 | without a build record the end of the name decides: nightly, testing, edge, else stable; a -devel name is refused |
| ChannelRetention.RetainByChannel | scripts/build-repo-portable.py:986-1060 | the loops compute the retained list, or fail on a negative limit, a refused package or a version without line |
| ChannelRetention.RetainsExactly | scripts/build-repo-portable.py:1022-1060 | retention fails exactly for a negative limit, a package without channel or a bucket that cannot be pruned; else testing, stable, edge and nightly follow in this order |
| ChannelRetention.ChannelsAreSeparate | scripts/build-repo-portable.py:994-1015 | the result's buckets are the pruned testing and stable buckets and the untouched edge and nightly ones, whatever ties |
| ChannelRetention.RetainingAgain | scripts/build-repo-portable.py:986-1060 | with no ties within a line, retaining what was retained changes nothing |
| ZBase32.ZBase32Lsb | scripts/build-repo-portable.py:167-178 | the bit loop outputs the base-32 digits, least significant first, of the little-endian number, ceil(8n/5) of them |
| ZBase32.OneByte | scripts/build-repo-portable.py:164-178 | one byte is the letters of its low five and its high three bits, in the alphabet as written |
| ZBase32.PackDigit | scripts/build-repo-portable.py:171-176 | five bits from a position are that digit of the number |
| ZBase32.BitOfNumber | scripts/build-repo-portable.py:175-175 | a bit of a byte is that bit of the whole number |
| ZBase32.UnpackPacked | scripts/build-repo-portable.py:167-178 | the bytes come back from the packing and their number |
| ZBase32.PackingsAre | scripts/build-repo-portable.py:167-178 | which texts are packings of n bytes: length, alphabet and clear padding bits |
| ReconcilePlan.VersionKey | scripts/reconcile-plan.py:71-77 | the loop computes the numeric key of the dotted components |
| ReconcilePlan.Planner.Add | scripts/reconcile-plan.py:130-139 | the dictionary after one action: a later one with a branch replaces one without |
| ReconcilePlan.Planner.ReadBoot | scripts/reconcile-plan.py:142-184 | the actions and branches of one boot, or only the error for a mislabeled one |
| ReconcilePlan.Planner.ReadBranch | scripts/reconcile-plan.py:187-205 | the actions of one reported branch |
| ReconcilePlan.Planner.ReadEntries | scripts/reconcile-plan.py:214-230 | a warning or a first build for every unpublished entry |
| ReconcilePlan.Plan | scripts/reconcile-plan.py:113-231 | the whole plan is the merge of the emitted actions in order |
| PlanProperties.PlanHolds | scripts/reconcile-plan.py:130-139 | every emitted (type, family) is held once, by the first action with a branch, or the first if none has one |
| PlanProperties.QuarantineIsComplete | scripts/reconcile-plan.py:146-164 | the plan without its error actions is, in order, the plan with the mislabeled boots removed |
| PlanProperties.PlanIsExact | scripts/reconcile-plan.py:113-231 | for every type and family: in the plan once, exactly when its rule fires |
| PlanProperties.NewestIsGreatest | scripts/reconcile-plan.py:207-213 | no published non-beta family is later than the chosen one |
| PlanProperties.FirstBuildOrWarning | scripts/reconcile-plan.py:206-230 | an unpublished family gets exactly one of warn and publish_new, a published one neither |
| PlanProperties.FirstBuildSays | scripts/reconcile-plan.py:206-230 | publish_new names a reported branch, a stable one if there is one, and the greatest published non-beta family |
| PlanTexts.QuarantinedExactly | scripts/reconcile-plan.py:65-68 | a boot of version a.b and anything behind a dot or a dash is quarantined exactly when its family is not a.b; one component must be the family itself; no version is never quarantined |
| Text.SpacesAre | scripts/reconcile-plan.py:67-67 | the blanks stripped around a version are the ASCII characters Python counts as space |
| PlanTexts.MislabeledExactly | scripts/reconcile-plan.py:146-161 | the rule over the raw version text and family |
| PlanTexts.ErrorsExactly | scripts/reconcile-plan.py:146-161 | a plan holds a family's error exactly when some boot that claims it booted another |
| PlanTexts.KeyOfText | scripts/reconcile-plan.py:71-77 | a component of the key is the number its text starts with, else 0; nothing behind the dash counts |
| PlanTexts.LeadingNumberIs | scripts/reconcile-plan.py:75-76 | and that number is the run of digits the component starts with |
| PlanTexts.PrereleaseExactly | scripts/reconcile-plan.py:58-59 | a version is a pre-release exactly when one of the four words is in it, in any case |
| PlanRules.PlanFollowsRules | scripts/reconcile-plan.py:113-231 | for every type and family: in the plan exactly when its rule fires on the raw matrix, tags and boots |
| PlanRules.NewestImage | scripts/reconcile-plan.py:206-213 | first builds start from a greatest family with an image and without beta status, and from none exactly when there is none |
| PlanRules.PlanIsBornOut | scripts/reconcile-plan.py:113-231 | the branch, status, version and reason an action names are what the inputs say |

## Left out

- Sockets, deadlines, TLS, QUIC, HTTP, PROXY headers, the forwarder to Unbound and its UDP or TCP choice: library
  plumbing around the modelled protocol.
- The loops of `Decide` and `read` are program counters of the step system, not sequential methods: what matters of
  them is how their steps interleave.
- A failed write of the step system puts no whole frame on the wire. The codec's own write can send a part
  (`FrameCodec.WriteFrame`); the session has ended by then, and the reader finds an unexpected end of file.
- Log lines, the burst-once logging of the full table, and the `finished` test hook.
- `ctl.go`, `dnsname.go`, `ddr.go` and the peer-credential files: validation with one branch per fact.
- IP text and UTF-8 validity: addresses are numbers, and reading an address, a length or a zone from text and testing
  UTF-8 are parameters.
- `globFiles` internals and the order of its matches: a glob is a function of the file system, and may answer with a
  mix of several moments while files are written.
- The recipe interpreter, `:modifier` chains and comment or continuation parsing of the Makefile reader: the chain is
  a parameter of the expander.
- `DiffLines.ParserInvertsPrinter`: a diff is a list of lines; how Python splits text at form feeds and other
  separators, and digits outside ASCII, are not modelled.
- Package reading, signing, archives, `_check_collisions`, catalogue emission and dependency packages folded in after
  retention; provenance records are a parameter that says channel, refused or none.
- Modification times are integers: float rounding in `st_mtime` and `os.utime` is not modelled.
- The error value with which a query that its session ended returns: the step system has that the session failed, and
  the session itself which error ended it.
- `PkgVersion.PkgVersionSortKey`: takes ASCII text; a nightly source hash such as `a123456` is read as a stage, as in
  the code.
- The JSON shape of the planner's inputs and the text of `pfSense-repoc` and `pfSense-upgrade` rows.
- `release_mutation.py`, `tagged_release_handoff.py`, `nightly_provenance.py`, `live_gate_matrix.py` and the remaining
  scripts: long lists of field checks that would only add easy members.
