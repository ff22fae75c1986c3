# broodforge: a verified model of its core algorithms

broodforge collects facts about a Proxmox host, compares snapshots of them, plans how to restore the host's
parts and produces walkthrough documents. This project models the algorithms behind that work, in the form they
have in the code (loops over mutable lists, maps, trees and counters stay loops), and proves what each of them
promises. `dafny verify dfyconfig.toml` checks everything.

Some predicates named `Show...` (and `Unfold`) take a boolean and are always true. They are switches: a definition of the form
`forall u {:trigger ShowX(u)} :: ShowX(u) ==> body` stays folded for the solver until a proof mentions `ShowX(true)`, which
unfolds it there and nowhere else.

## What is modelled

**Restore waves** (`Schedules`, `Kahn`, `DependencyGraphs`, `ManifestGraphs`, `GraphLayers`, `GraphNodes`, `GraphEdges`).
`build_graph` adds typed nodes and edges under two "already added" sets and then sorts them into waves with a
level-synchronous Kahn loop. `IsSchedule` says what waves are (disjoint, complete, dependencies earlier, no wave
later than it must be, leftovers stuck on each other). The loop is proved to produce such a schedule, parallel edges included, and
the schedule predicate alone implies longest-path levels, minimality against any other level assignment, uniqueness and the exact
meaning of the warning wave. For graphs that come from a manifest the nodes and edges are said one by one in terms of its own fields, and the layering
gives the contents of the first waves and shows that only VMs can ever sit in the warning wave.

**Diff and history** (`JsonValues`, `Diffs`, `Changes`, `DiffMembers`, `Replays`, `History`). The recursive diff occurs twice in the source; both
are methods here, proved against one specification, and what they report is said of the two documents alone. Applying a diff rebuilds the new document (up to values under
skipped keys), in any order of the changes; diffing backwards swaps the sides; the two implementations agree exactly when
no compared pair differs under `collector_version`. Replaying the recorded rows through their dotted paths rebuilds the newer
document exactly when no location at which the two differ has a dotted key. `HistoryDB` keeps its two tables; its invariant is that the log equals
what the whole run of interleaved stores implies, and replaying a host's log over its first snapshot rebuilds the
later ones.

**Page-script codecs** (`CrcRegisters`, `Crc`, `Zip`, `ZipFields`, `Outlines`, `NotesMd`, `NotesForms`, `NotesParser`). Table-driven CRC-32 against the
bit-serial register of section 8 of RFC 1952; the ZIP writer against the ZIP reader (fields as in sections 4.3.7, 4.3.12 and
4.3.16 of PKWARE APPNOTE.TXT); the notes printer against the stack-based Markdown parser, which builds its tree in place.

**Schema validation** (`SchemaSpec`, `SchemaChecks`, `ErrorPaths`, `ErrorLists`, `StrictOneOf`, `Validators`). The error-collecting validator with
its `$ref` cache, proved to terminate on (instance, schema rank, schema), and to return no error exactly for the values that conform.
The errors are exact: each names a schema that is applied at that place and that the value fails in the reported way, and every
check that fails is reported. A rank exists
exactly when the `$ref`/`oneOf` steps that stay on the same value are acyclic.

**KeePass sync** (`EntryLists`, `EntrySync`, `GroupTrees`, `KeePassSync`, `SyncedEntries`, `DryRuns`). One-way sync of a master group into a child database: the plan
of copies and prunings, the tree it leaves with every field of every copy, what it counts, and that a second run changes nothing.

**Readiness** (`Scores`, `Readiness`, `ReadinessTables`). Component scores as joins of gap severities, and the BLOCKED propagation
with its dictionary scan order, in which a RED component may itself become BLOCKED in mid-sweep. A chronicle of
the run (who was blocked by whom, when) carries the proofs, and the first sweep alone decides which components end RED.

**Drift** (`DriftPaths`, `Drift`, `DriftRecords`), **deep merge** (`MergeSpec`, `DeepMerge`), **VM ids** (`VmIds`) and the **fallback registry
parser** (`RegistryBlocks`, `RegistryText`, `RegistryLines`, `RegistryFile`, `RegistryForms`). Path printing is injective on clean keys, so drift records are exactly
the differing leaves; the merge is modelled on dictionaries that are changed in place and the algebra is proved on their values; the
indentation parser, from the text of the file on, reads back every registry printed with two-space indentation, and every form of
scalar and line is given its meaning directly.

`Options`, `Sorting` and `Text` hold shared definitions: optional values, string order and sorted keys, decimal printing, joining and splitting.

## Where the code departs from what it says

- `oneOf` accepts a value as soon as one alternative accepts it (data-model/validate.py:66-74), where JSON Schema asks for exactly one.
  `StrictOneOf.StrictIff` says for every value and schema what the strict reading rejects of what the code accepts;
  `StrictOneOf.OneOfAcceptsSeveral` says it for a single `oneOf`, and `StrictOneOf.IntegerMatchesTwice` gives values.
- With `collector_version` differing on both sides the two diffs disagree (engine/db.py:353, engine/diff.py:22).
  `Changes.ImplementationsAgree` gives the exact condition, `Changes.CollectorVersionDisagrees` two documents.
- A change at a key that contains a dot is logged under a path that reads as several keys, and a replay then misses it.
  `Replays.RowsRebuildIff` gives the exact condition on the two documents, `Replays.DottedKeyIsNotReplayed` a family of them.
- `changes_for` shows an absent value and a stored null alike (engine/db.py:247-248). `History.DecodingLosesNulls`.
- A RED component with an edge to itself blocks itself, and the overall score may lose the RED. `Readiness.SelfEdgeErasesRed`;
  `Readiness.OverallIsJoinIff` gives the exact condition on the input. Graphs from `build_graph` have no such edge.
- A dry-run sync counts deletions although nothing is deleted (lib/forge-sync-lib.py:191-198). `DryRuns.DryRunBalance` gives
  the exact condition on the child, `DryRuns.DryRunMiscounts` an example.
- `_deep_merge` is not associative when a path is an object, then something else, then an object without all the old keys.
  `MergeSpec.MergeNotAssociative`, with the exact condition in `MergeSpec.MergeAssociativeIff`.
- An empty list or object has no leaf, so adding or removing one is no drift. `Drift.EmptyContainersAreInvisible`.
- " #" starts a comment even inside a quoted string (proxmox-bootstrap/_vault_hierarchy.py:109), and a carriage return inside one
  ends the line (lines 105-106 read the file as text). `RegistryFile.StringFieldSurvivesIff`, `RegistryFile.CarriageReturnSplits`.
- Trees of notes higher than four levels flatten on import, since headings stop at six marks. `Outlines.FourLevelsSurvive` is an
  if-and-only-if; `NotesMd.ExportIsStable` holds for every height.

## Model

| member | source | states |
|---|---|---|
| `Schedules.WaveIsLongestPath` | doc-gen/dependencies.py:425-461 | A node in wave k has a dependency path of k + 1 nodes and none longer: the wave number is its longest path |
| `Schedules.NoEarlierWave` | doc-gen/dependencies.py:425-461 | No numbering that puts every dependency strictly lower can give a node a number below its wave |
| `Schedules.NoPathInsideWave` | doc-gen/dependencies.py:405-407 | Two nodes of one wave are joined by a dependency path only if they are the same node, so a wave can be restored in parallel |
| `Schedules.WarningWaveIsCycleReachers` | doc-gen/dependencies.py:463-470 | A node is in the warning wave if and only if it can reach a dependency cycle |
| `Schedules.WarningWaveIffCycle` | doc-gen/dependencies.py:463-470 | There is a warning wave if and only if some node lies on a cycle |
| `Schedules.ScheduleUnique` | doc-gen/dependencies.py:401-472 | Any two schedules of one graph put every node into the same wave |
| `Kahn.PlacingSettles` | doc-gen/dependencies.py:457-461 | Placing a prerequisite lowers the number of unmet edges of a node by as many parallel edges as lead to it |
| `Kahn.PrefixGrows` | doc-gen/dependencies.py:431-461 | Appending the frontier keeps the waves built so far disjoint, ordered and tight |
| `Kahn.PrefixCompletes` | doc-gen/dependencies.py:431-472 | With an empty frontier, the waves and the unplaced nodes form a schedule |
| `DependencyGraphs.SortWave` | doc-gen/dependencies.py:435-441 | The nodes of a wave are rearranged, none lost or repeated, into order of type and then id |
| `DependencyGraphs.WaveOrderIs` | doc-gen/dependencies.py:435-441 | One component may stand before another if and only if its type does not come later (host, storage, network, guests, services, repositories) and, among types of one rank, its id is not greater |
| `DependencyGraphs.MinutesAre` | doc-gen/dependencies.py:494-504 | The estimate of a wave is 90 minutes for each host, 15 for storage, 5 for a network, 20 for a VM, 10 for a container, 5 for a service and 10 for a repository |
| `DependencyGraphs.DependencyGraph.CountPrerequisites` | doc-gen/dependencies.py:416-423 | in_degree counts every edge out of a node, parallel ones included, and dependents lists the consumers of every node |
| `DependencyGraphs.DependencyGraph.TopologicalWaves` | doc-gen/dependencies.py:401-472 | The result is a schedule of the graph; waves are numbered from 1, each sorted and timed, with at most one warning wave, the last |
| `DependencyGraphs.DependencyGraph.ReleaseAll` | doc-gen/dependencies.py:457-461 | After a wave the counters are those of the larger placed set and the queue is exactly the next frontier |
| `DependencyGraphs.Decrement` | doc-gen/dependencies.py:457-461 | Lowering the waiting nodes one by one reaches the target counters and queues each node once, when its counter reaches 0 |
| `DependencyGraphs.DependencyGraph.FlagCycle` | doc-gen/dependencies.py:463-472 | processed < the number of nodes holds exactly when nodes with a positive counter remain, and those form the warning wave |
| `ManifestGraphs.FirstByIdFacts` | doc-gen/dependencies.py:95-98 | Adding nodes with the id check keeps ids distinct and loses no id |
| `ManifestGraphs.FirstOfEachFacts` | doc-gen/dependencies.py:100-104 | Adding edges with the key check keeps them distinct and loses none |
| `ManifestGraphs.PrimaryPoolIsLargest` | doc-gen/dependencies.py:179-187 | The chosen pool has the most free space and is the first such pool; none is chosen only if no pool has more than -1 |
| `ManifestGraphs.ChoosePool` | doc-gen/dependencies.py:179-187 | The running maximum returns the primary pool |
| `ManifestGraphs.MatchPool` | doc-gen/dependencies.py:154-162 | A store gets no node of its own if and only if a pool carries its name, with or without the prefix local- |
| `ManifestGraphs.GraphBuilder.AddNode` | doc-gen/dependencies.py:95-98 | The node list stays the first occurrences of all requested nodes |
| `ManifestGraphs.GraphBuilder.AddEdge` | doc-gen/dependencies.py:100-104 | The edge list stays the first occurrences of all requested edges |
| `ManifestGraphs.GraphBuilder.AddComponents` | doc-gen/dependencies.py:106-265 | Host, pools, stores, bridges, VMs and containers request exactly the nodes and placement edges of the specification, in order; `GraphNodes.NodesAre` and `GraphEdges.PlacementEdgesAre` say which these are |
| `ManifestGraphs.GraphBuilder.AddServiceEdges` | doc-gen/dependencies.py:267-273 | Contracts if there are any, otherwise name patterns, complete the edge list |
| `ManifestGraphs.GraphBuilder.AddContractEdges` | doc-gen/dependencies.py:281-339 | The nested loops request the contract edges of all contracts in order |
| `ManifestGraphs.GraphBuilder.AddHeuristics` | doc-gen/dependencies.py:342-394 | The pattern loop requests the pattern edges of the VM nodes in order |
| `GraphNodes.NodesAre` | doc-gen/dependencies.py:106-265 | A node is in the graph if and only if it is the host (host: and its name, or pve-host), a pool (zfs:), a store no pool backs (storage:), a bridge (net:), a VM (vm: and its name, or vm- and its number) or a container (ct: likewise) |
| `GraphNodes.VmIdIs` | doc-gen/dependencies.py:215-218 | A VM node id is vm: and the name of the VM, or vm- and its decimal vmid if it has none |
| `GraphNodes.StorageForIs` | doc-gen/dependencies.py:148-163 | A store stands for the pool of its name, else for the pool whose name follows local-, else for a node of its own |
| `GraphNodes.VmIdsInGraph` | doc-gen/dependencies.py:295-308 | An id that begins with vm: is among the node ids if and only if it is the id of a VM of the manifest |
| `GraphEdges.LastContractDecides` | doc-gen/dependencies.py:296-300 | A service runs on the VM of the last contract that names both |
| `GraphEdges.ContractEdgesAre` | doc-gen/dependencies.py:302-339 | For any node ids and any map of providers: an edge is added if and only if some contract declares it |
| `GraphEdges.FindVmIsFirst` | doc-gen/dependencies.py:369-373 | The lookup returns a VM if and only if it is the first whose lower-cased name contains the fragment |
| `GraphEdges.HeuristicEdgesAre` | doc-gen/dependencies.py:375-394 | An edge is inferred if and only if a pattern asks for it: from the consumer, or from every other VM, to the provider |
| `GraphEdges.PrimaryStorageIs` | doc-gen/dependencies.py:179-192 | Guests are placed on the first pool with the most free space, or on the node of the first store if no pool has more than -1 |
| `GraphEdges.PlacementEdgesAre` | doc-gen/dependencies.py:106-265 | Every component but the host depends on the host, every guest on the primary storage, every VM on net: and the first bridge; nothing else |
| `GraphEdges.DeclaresIs` | doc-gen/dependencies.py:295-339 | A contract declares an edge from vm: and its own VM to vm: and the VM of a service, SERVICE for a required interface and DEPENDS_ON for a startup order, if both VMs are in the manifest and different |
| `GraphEdges.LookupIs` | doc-gen/dependencies.py:369-373 | Looking a fragment up among the nodes finds the first VM of the manifest whose name contains it, letter case aside |
| `GraphEdges.PatternsAre` | doc-gen/dependencies.py:355-367 | The patterns: forgejo serves assessment, inventory, ansible and tofu; inventory serves assessment; dns, nfs, postgres, database and db serve every VM |
| `GraphEdges.RequiredInterface` | doc-gen/dependencies.py:310-324 | If a contract requires the service of another VM, the edge between the two VMs is in the graph |
| `GraphEdges.BuiltEdgesAre` | doc-gen/dependencies.py:78-394 | An edge is in the built graph if and only if it places a component, or a contract declares it, or, without any contract, two names are related by a pattern; all said of the fields of the manifest |
| `GraphLayers.BuiltGraphsAreLayered` | doc-gen/dependencies.py:78-394 | Every graph from a manifest has distinct nodes, distinct edges, known endpoints, no self-edge, an edge from each node to the host, and edges only down the layers |
| `GraphLayers.LayeredWaves` | doc-gen/dependencies.py:401-472 | Wave 1 is the host alone, all storage and network nodes are in wave 2, containers in wave 2 or 3, and only VMs can be in the warning wave |
| `GraphEdges.BuildGraph` | doc-gen/dependencies.py:78-278 | The whole build: exactly the nodes and the dependencies of the manifest, layered below the host, with a schedule of them as restore waves |
| `Diffs.PatchRebuilds` | engine/db.py:359-388 | Applying the diff of a and b to anything equal to a (up to values under skipped keys) gives b, up to the same |
| `Diffs.NoChangeIffEqual` | engine/diff.py:74-113 | The diff is empty if and only if the documents are equal up to values under keys skipped on both sides |
| `Diffs.DiffNoOverlaps` | engine/diff.py:74-113 | No emitted location is a prefix of another |
| `Diffs.ApplyAnyOrder` | engine/diff.py:74-113 | Changes at non-overlapping locations can be applied in any order with the same result |
| `Diffs.DiffSwaps` | engine/diff.py:74-113 | Diffing in the other direction gives the same list with old and new swapped |
| `Diffs.MoreSkipped` | engine/diff.py:22 | Skipping one more key leaves the diff as it is if and only if no compared pair differs under that key; otherwise it gets shorter |
| `Changes.RowList.DiffRecursive` | engine/db.py:359-388 | The recursion appends exactly the rows of the diff, or nothing at a skipped path |
| `Changes.ComputeChanges` | engine/db.py:341-356 | Returns the rows of the diff of the two documents |
| `Changes.ChangeList.Recurse` | engine/diff.py:74-113 | The recursion appends exactly the records of the diff, or nothing at a skipped path |
| `Changes.DiffAssessments` | engine/diff.py:40-50 | Returns the records of the diff of the two documents |
| `Changes.RowsOfRecords` | engine/db.py:359-388 | The rows of one implementation are the records of the other with the kind dropped, one for one |
| `Changes.ImplementationsAgree` | engine/db.py:353-388 | The two implementations give the same changes if and only if no compared pair differs under collector_version |
| `Changes.CollectorVersionDisagrees` | engine/diff.py:22 | Two documents on which they give different changes |
| `Changes.LackingKeyIsUnaffected` | engine/diff.py:22 | A document without the key anywhere meets that condition |
| `DiffMembers.DiffIs` | engine/diff.py:74-113 | A change is in the diff if and only if both documents have objects all the way to its location, no key on the way is skipped, and the values there are not both objects and not equal, or one is missing; it carries exactly these two values |
| `DiffMembers.RowsAre` | engine/db.py:341-388 | The rows are these changes, keys joined by dots, with timestamp, stored_at and schema_version skipped |
| `DiffMembers.RecordsAre` | engine/diff.py:22-113 | The records are these changes with collector_version skipped too; added, removed or changed by the side that is missing, a missing side shown as null |
| `Replays.RowsRebuild` | engine/db.py:341-388 | Replaying the rows through their dotted paths, over anything equal to the older document, rebuilds the newer one if the two differ at dot-free locations only |
| `Replays.RowsRebuildIff` | engine/db.py:341-388 | For any two documents the rows rebuild the newer one if and only if no location at which they differ has a dotted key |
| `Replays.DiffDotFreeIff` | engine/db.py:359-388 | The emitted locations are dot-free if and only if the documents differ at dot-free locations only |
| `Replays.ReplayLeaves` | engine/db.py:366-388 | Rows whose split paths do not overlap a location leave the value there as it was |
| `Replays.DottedKeyIsNotReplayed` | engine/db.py:366-377 | A changed value under any key with a dot is lost in the replay |
| `History.HistoryDB.Store` | engine/db.py:115-163 | Appends one row with hostname, timestamp and schema version from the fields of those names (defaults unknown, the clock, unknown), the document and the next id, and the log entries against the host's latest row; rejects, without effect, exactly null, lists, dicts and integers beyond 64 bits in one of the three |
| `History.BoundRowIs` | engine/db.py:121-134 | What a row is bound to, field by field, and when a field is refused |
| `History.EntryIs` | engine/db.py:137-163 | The first snapshot of a host logs nothing; a later one logs, change by change, its difference to the latest one of that host, with both row ids and the time |
| `History.StoreTwo` | engine/db.py:115-163 | Two documents stored one after the other: with different hostname strings nothing is logged, with equal ones exactly their differences |
| `History.HistoryDB.CompareWithPrevious` | engine/db.py:137-163 | The rows written for a new assessment are the stamped diff against the latest earlier row of its host, or none |
| `History.HistoryDB.Fetch` | engine/db.py:193-198 | Returns exactly the stored document of an existing row id |
| `History.HistoryDB.ChangesFor` | engine/db.py:231-251 | For a stored row, exactly the decoded diff against its host's previous row, sorted by path; for any other id, nothing |
| `History.InPathOrder` | engine/db.py:236-240 | Ordering by path keeps every row and sorts by path |
| `History.PreviousIsLatest` | engine/db.py:138-145 | The query finds the last earlier row of the host, and nothing only if there is none |
| `History.LogIsDiff` | engine/db.py:115-163 | After any run of stores, interleaved over hosts, the log entries of a row are exactly its diff against the previous row of its host |
| `History.LogOfRow` | engine/db.py:231-251 | The log holds for a row id exactly the diff of that row, and nothing for an id that is not stored |
| `History.LogRebuildsSnapshots` | engine/db.py:115-191 | Replaying a host's log over its first snapshot gives every later snapshot, up to values under skipped keys, if each differs from the one before at dot-free locations only |
| `History.ReplayInAnyOrder` | engine/db.py:231-251 | The changes of a row, in path order or any other, replay to the same document |
| `History.DecodingLosesNulls` | engine/db.py:244-251 | A decoded change tells which sides were present if and only if neither decodes to null |
| `CrcRegisters.IterateLinear` | README.html:1037 | Any number of single-bit steps is linear over exclusive or |
| `CrcRegisters.ByteIsTableStep` | README.html:1038 | Feeding eight bits one at a time equals one table step |
| `CrcRegisters.TakeBytes` | README.html:1038 | The table loop computes the register that takes one bit at a time |
| `Crc.Crc32IsLawful` | README.html:1037-1038 | The 32-bit register with polynomial 0xEDB88320 meets the laws those results need |
| `Crc.CrcTable` | README.html:1037 | The 256 entries are each the eight-step value of their index |
| `Crc.Crc32` | README.html:1038 | The table-driven checksum equals the bit-serial one for every byte sequence |
| `Zip.BuildZip` | README.html:1040-1058 | The blob is all local records, then all directory records with the offsets of their local records, then the end record |
| `Zip.PackEntries` | README.html:1046-1055 | The loop keeps parts, directory and running offset in step |
| `Zip.CentralFields` | README.html:1051 | Each field the reader looks at reads back from a directory header within the field limits |
| `Zip.LocalFields` | README.html:1049 | Each field the reader looks at reads back from a local header |
| `Zip.EndFields` | README.html:1056 | Directory size, offset and signature read back from the end record |
| `ZipFields.LocalHeaderIs` | README.html:1049 | Every field of a local header at its place: signature, version 2.0, no flags, stored, time, date, checksum, both sizes, name length, no extra field |
| `ZipFields.CentralHeaderIs` | README.html:1051 | Every field of a directory record at its place, with zeros for comment, disk and attributes, and the offset of the local header |
| `ZipFields.EndIs` | README.html:1056 | Every field of the end record: signature, disk numbers, both entry counts, size and offset of the directory, no comment |
| `ZipFields.HeadersOfArchive` | README.html:1048-1052 | Both headers of an entry carry the checksum of its own bytes |
| `ZipFields.FourBytes` | README.html:1044-1045 | Four-byte fields are written and read least significant byte first |
| `ZipFields.ChecksumOfOne` | README.html:1037-1038 | The checksum of the character 1 is 0x83DCEFB7 |
| `ZipFields.CheckValues` | README.html:1037-1038 | The checksum of nothing is 0 and that of a zero byte 0xD202EF8D |
| `Zip.ParseZip` | README.html:1430-1446 | The reader finds the last end signature and walks the directory, with the outcomes of a missing end record and of reads past the end |
| `Zip.ReadRecord` | README.html:1437-1443 | One directory record: stop at a foreign signature, take a stored entry, skip a compressed one |
| `ZipFields.NoDirectoryIff` | README.html:1430-1434 | The reader finds no directory if and only if the end signature stands nowhere an end record could begin |
| `ZipFields.LastSignatureIs` | README.html:1432-1434 | It takes the last place where that signature stands |
| `ZipFields.RecordsAre` | README.html:1437-1443 | What it makes of any directory record inside the file, field by field: another signature stops it, a method other than 0 is passed over, a stored entry gives its name and the bytes behind its local header |
| `Zip.LastEntryWins` | README.html:1442 | Among entries of one name the last one's bytes are kept, and exactly the names that occur are present |
| `Zip.ArchiveReadsBack` | README.html:1430-1446 | For any layout whose fields read back, reading an archive returns its contents |
| `Zip.RoundTrip` | README.html:1040-1446 | parseZip(buildZip(entries)) returns every name with its exact bytes within the 16- and 32-bit field limits |
| `Outlines.ForestOfSections` | README.html:1711-1847 | Nesting by heading depth gives the printed tree back while depth plus height stays within six |
| `Outlines.FourLevelsSurvive` | README.html:1711-1847 | From depth 2 the nesting survives if and only if the tree has at most four levels |
| `Outlines.SectionsGapless` | README.html:1711-1720 | Printed headings never skip a level downwards |
| `Outlines.GaplessIffStable` | README.html:1711-1847 | A list of headings is printed from its own parse if and only if it skips no level |
| `NotesMd.TreeToMd` | README.html:1711-1720 | The nested printing equals the flat list of heading and body lines of the tree in pre-order |
| `NotesMd.HeadingReadsBack` | README.html:1831-1833 | The heading pattern returns the depth and the title that were printed |
| `NotesForms.PrintedNote` | README.html:1711-1720 | A note is printed as its heading (depth + 1 number signs, at most six; Untitled if it has no title), its trimmed body between empty lines if there is one, and its children one deeper |
| `NotesForms.PrintedTogether` | README.html:1714-1719 | Notes are printed one after the other on new lines |
| `NotesForms.MarksAre` | README.html:1841 | A line ends a body if and only if it is one to six number signs, a blank and anything |
| `NotesForms.HeadingsAre` | README.html:1831-1833 | Such a line is a heading if and only if a text follows; the text ends at the first line terminator |
| `NotesForms.LinesBeforeHeading` | README.html:1830-1845 | Lines before the first heading, and marks without a text, give nothing |
| `NotesForms.BodyIs` | README.html:1842-1844 | A body is its lines without the blank ones at both ends |
| `NotesMd.BodyReadsBack` | README.html:1840-1844 | Dropping blank lines at both ends returns a trimmed body |
| `NotesMd.ScanOfLines` | README.html:1830-1846 | Scanning printed lines returns the printed sections |
| `NotesMd.ImportOfExport` | README.html:1711-1848 | parse(print(t)) is t if and only if t has at most four levels, for trimmed one-line titles and heading-free bodies |
| `NotesMd.ExportIsStable` | README.html:1711-1848 | print(parse(print(t))) is print(t) for every height |
| `NotesParser.SectionParser.PopDeeper` | README.html:1835 | After popping, the stack holds exactly the open headings above the new one |
| `NotesParser.SectionParser.Attach` | README.html:1835-1838 | A new node goes under the nearest shallower heading, or to the top, and nothing else changes |
| `NotesParser.SectionParser.AddSection` | README.html:1831-1844 | One heading with its body adds one node with that title and body |
| `NotesParser.TakeBody` | README.html:1840-1844 | The body runs up to the next heading mark, without blank lines at its ends |
| `NotesParser.RootsGrow` | README.html:1835-1837 | A section becomes a child or a root according to the headings still open before it |
| `NotesParser.ForestInIsForest` | README.html:1827-1848 | Building by open headings gives the same nesting as the recursive definition |
| `NotesParser.ParseMdSections` | README.html:1827-1848 | The nodes built in place represent exactly the nested sections of the text |
| `SchemaSpec.RankedIffAcyclic` | data-model/validate.py:61-74 | A rank for the same-instance steps exists if and only if no definition leads back to itself |
| `SchemaSpec.CountRanks` | data-model/validate.py:61-74 | Counting the definitions a definition leads to is such a rank |
| `SchemaSpec.TypesOf` | data-model/validate.py:118-136 | Which of the seven type names each kind of value has; a truth value is no integer and no number; an unknown name is had by all |
| `SchemaSpec.DateTimesAre` | data-model/validate.py:112-114 | A string passes date-time if and only if it starts with a date and a time of day, each part with its number of digits |
| `SchemaSpec.RefsAre` | data-model/validate.py:49-50 | A local reference names the definition after its prefix |
| `JsonValues.PyEqIs` | data-model/validate.py:89-90 | Which values are equal: truth values count as 0 and 1, integers equal floats of their value, other kinds never mix |
| `Validators.SchemaValidator.ResolveRef` | data-model/validate.py:46-56 | With or without a cached entry, a ref resolves to its definition, or raises when it is not local or unknown |
| `Validators.SchemaValidator.ValidateNode` | data-model/validate.py:58-116 | Terminates and returns the errors of the specification, whatever the cache holds; `ErrorLists.ErrorsAreExact` says which these are |
| `Validators.SchemaValidator.ValidateAlternatives` | data-model/validate.py:66-74 | Alternatives are tried in order up to the first without errors |
| `Validators.SchemaValidator.ValidateFields` | data-model/validate.py:97-100 | Every property present in the instance is validated under its path, in schema order |
| `Validators.SchemaValidator.ValidateItems` | data-model/validate.py:102-105 | Every item is validated under its index, in order |
| `Validators.SchemaValidator.Validate` | data-model/validate.py:39-44 | With acyclic refs the run ends; when it returns, its errors are exactly the failed checks, when it raises, the named ref is dangling or external; with resolvable refs it passes if and only if the document conforms |
| `SchemaChecks.CheckDecides` | data-model/validate.py:58-116 | Whenever validation returns, its error list is empty if and only if the value conforms |
| `SchemaChecks.CheckReturns` | data-model/validate.py:46-116 | When every ref of the schema and of all definitions resolves, validation returns |
| `SchemaChecks.PassesIffConforms` | data-model/validate.py:39-44 | With both, a document passes if and only if it conforms |
| `ErrorPaths.ErrorsAreReal` | data-model/validate.py:58-116 | Every error names an existing location, a schema applied there, and a check of that schema which the value fails; a missing key is one that schema requires; nothing is reported from inside a oneOf but that no alternative conforms |
| `ErrorLists.ErrorsAreExact` | data-model/validate.py:58-116 | When validation returns, an error is in the list if and only if a schema applied at an existing location is failed there in that way: one for each required key that is missing, the enum, the format, no alternative, or else the type |
| `ErrorLists.RaisedIsUnresolved` | data-model/validate.py:46-56 | A run is broken off only by a reference that is dangling or external, and names it |
| `StrictOneOf.OneOfAcceptsSeveral` | data-model/validate.py:66-74 | At a oneOf without double matches inside its alternatives, the code accepts what exactly-one rejects if and only if two different alternatives conform |
| `StrictOneOf.StrictIff` | data-model/validate.py:58-116 | For every value and schema, exactly-one conformance holds if and only if the value conforms and is not ambiguous on the way |
| `StrictOneOf.ReadingsAgree` | data-model/validate.py:58-116 | When no compared value conforms to two alternatives of a oneOf, conformance and exactly-one conformance are the same |
| `StrictOneOf.PassesIffStrict` | data-model/validate.py:39-44 | Then a document passes if and only if it conforms in the exactly-one reading |
| `StrictOneOf.IntegerMatchesTwice` | data-model/validate.py:66-74 | Every integer passes a oneOf of number and integer although it meets both |
| `KeePassSync.KeePass.FindGroupByPath` | lib/forge-sync-lib.py:80-92 | Descends by first matching names |
| `KeePassSync.FindEntryInGroup` | lib/forge-sync-lib.py:95-100 | Returns the first entry with that title |
| `KeePassSync.KeePass.EnsureGroupPath` | lib/forge-sync-lib.py:103-115 | Creates the missing groups on the path and no others |
| `GroupTrees.FindAfterEnsure` | lib/forge-sync-lib.py:103-115 | Afterwards exactly the old groups and the prefixes of the path exist, and no entry list changed |
| `GroupTrees.FindAfterSet` | lib/forge-sync-lib.py:122-156 | Changing the entries of one group changes no other group's entries and no group's existence |
| `KeePassSync.KeePass.CopyEntry` | lib/forge-sync-lib.py:122-156 | Adds or updates the first entry with the title, or in a dry run only creates groups, and reports what it did |
| `KeePassSync.KeePass.DeleteOrphans` | lib/forge-sync-lib.py:183-198 | Removes exactly the entries whose title the master group lacks, counting each, and in a dry run only counts |
| `KeePassSync.KeePass.SyncGroupRecursive` | lib/forge-sync-lib.py:163-204 | Carries out the plan of the source group: its own entries, its orphans, then its subgroups |
| `KeePassSync.KeePass.SyncGroup` | lib/forge-sync-lib.py:264-306 | Runs the plan on the child and saves it, leaves the master alone, and reports 1 without effect for an empty or unknown path |
| `EntryLists.BlocksAbsorb` | lib/forge-sync-lib.py:163-204 | Several master groups with the same path, each pruning the others' titles, settle after one run |
| `EntrySync.PutAllIs` | lib/forge-sync-lib.py:122-156 | Copying changes the login of the first entry of each copied title to the last copy's, and nothing else of existing entries |
| `EntrySync.CopiedFields` | lib/forge-sync-lib.py:163-198 | After a group is copied each of its titles has an entry with the fields of the last master entry of that title |
| `EntrySync.PrunedTitles` | lib/forge-sync-lib.py:183-198 | With pruning the title sets become equal |
| `SyncedEntries.KeptEntries` | lib/forge-sync-lib.py:183-198 | Pruning keeps every occurrence of an entry whose title is in the master group, an absent title counting as empty, and drops every other; `SyncedEntries.KeptInOrder`: in order |
| `EntrySync.SecondRun` | lib/forge-sync-lib.py:163-204 | Copying the same groups into the result changes nothing, with and without pruning |
| `KeePassSync.SyncResult` | lib/forge-sync-lib.py:163-204 | At every path, the child's entries are the old ones after copying the master groups of that path in order |
| `KeePassSync.OneGroupEach` | lib/forge-sync-lib.py:163-204 | With distinct sibling names at most one master group belongs to a path |
| `KeePassSync.SyncedFields` | lib/forge-sync-lib.py:163-204 | After a sync each synced title has the fields of the last master entry that decides it |
| `SyncedEntries.SyncedEntry` | lib/forge-sync-lib.py:140-154 | After a sync the first child entry of each deciding title has username, password, url and notes each from the same field of the last master entry of that title, empty where that has none |
| `SyncedEntries.AddedAreBare` | lib/forge-sync-lib.py:140-148 | An entry that a copy adds comes last and has nothing but its title and these fields |
| `SyncedEntries.CopiesAreCounted` | lib/forge-sync-lib.py:176-181 | Additions and updates together are as many as the master entries that are copied |
| `SyncedEntries.PathOfNames` | lib/forge-sync-lib.py:68-73 | Names without slashes, joined by slashes, are the path of those names |
| `KeePassSync.SyncedTitles` | lib/forge-sync-lib.py:183-198 | With pruning, a mirrored group has exactly the deciding titles |
| `KeePassSync.MirroredGroup` | lib/forge-sync-lib.py:264-306 | With distinct sibling names: every mirrored group carries its master group's entries, and with pruning the same titles |
| `SyncedEntries.MirroredEntry` | lib/forge-sync-lib.py:264-306 | With distinct sibling names: the last master entry of each title has its field-by-field copy in the mirrored group |
| `KeePassSync.SyncedOthers` | lib/forge-sync-lib.py:122-156 | Without pruning every old entry stays in place and changes only if it is the first of a synced title |
| `KeePassSync.SyncedElsewhere` | lib/forge-sync-lib.py:163-204 | Groups outside the synced path are unchanged |
| `KeePassSync.RunExtends` | lib/forge-sync-lib.py:103-115 | No group is ever removed, renamed or moved |
| `KeePassSync.SyncTwice` | lib/forge-sync-lib.py:264-306 | A second sync changes nothing at all |
| `KeePassSync.Conservation` | lib/forge-sync-lib.py:163-204 | Entries after = entries before + added - deleted |
| `DryRuns.DryRunBalance` | lib/forge-sync-lib.py:183-198 | The counts of a dry run add up if and only if orphans are not deleted or no child entry in a mirrored group lacks a master entry of its title there |
| `DryRuns.DryRunKeeps` | lib/forge-sync-lib.py:134-137 | A dry run changes no entry in any group and reports no addition |
| `DryRuns.DryRunDeletions` | lib/forge-sync-lib.py:183-198 | It reports no deletion if and only if no pruning finds an orphan in the child as it is |
| `DryRuns.DryRunMiscounts` | lib/forge-sync-lib.py:183-198 | With one orphan it reports a deletion and keeps the entry |
| `Scores.JoinIsLeastUpper` | doc-gen/readiness.py:36-40 | Folding worst gives the least upper bound of the scores, starting from GREEN |
| `Scores.JoinOfSameMembers` | doc-gen/readiness.py:36-40 | The fold depends only on which scores occur, not on order or repetition |
| `Scores.RanksAre` | doc-gen/readiness.py:36-40 | GREEN, YELLOW, ORANGE, UNKNOWN, BLOCKED, RED, from best to worst; strings without a rank count like GREEN |
| `Scores.ScoreComponent` | doc-gen/readiness.py:216-430 | A component's score is the join of the gaps it reports |
| `Scores.RedIff` | doc-gen/readiness.py:216-430 | Once an inventory exists, a component is RED if and only if it needs its own backup and has no job, or its last run failed; without one it never is |
| `Scores.GapsAre` | doc-gen/readiness.py:216-430 | A component has exactly the gaps there is a reason for: no or failed backup, no inventory, a backup older than 2 and 7 (host), 2 and 14 (storage) or 7 and 30 days, a warning, no restore test or one over 90 days ago, no offsite copy, no dependency information |
| `Scores.ScoreIs` | doc-gen/readiness.py:216-430 | When a component is RED, ORANGE, YELLOW and GREEN, each if and only if |
| `Readiness.ReadinessScorer.Sweep` | doc-gen/readiness.py:2126-2143 | One pass over the components in dictionary order, reporting a change if and only if the table changed |
| `Readiness.ReadinessScorer.Propagate` | doc-gen/readiness.py:2125-2143 | The while-changed loop terminates in the fixpoint of the sweep |
| `Readiness.SweepShrinks` | doc-gen/readiness.py:2126-2143 | A sweep only turns components BLOCKED, and changes nothing only if none was turned |
| `Readiness.FirstRedIs` | doc-gen/readiness.py:2131-2143 | blocked_by is the first RED prerequisite in the list |
| `Readiness.PrereqsInOrder` | doc-gen/readiness.py:2120-2123 | The prerequisites of a component are listed in the order of the edges |
| `Readiness.RunIsEvents` | doc-gen/readiness.py:2120-2143 | Every run is a sequence of events in which each component is blocked at most once, by the first of its prerequisites in edge order that was RED then |
| `Readiness.RunSettles` | doc-gen/readiness.py:2125-2143 | Afterwards no unblocked component has a RED prerequisite |
| `Readiness.BlameEnds` | doc-gen/readiness.py:2131-2143 | Following blocked_by from any BLOCKED component never repeats and ends at a RED component or one that blocks itself |
| `Readiness.BlameEndsRed` | doc-gen/readiness.py:2131-2143 | Without a self-edge on a RED component it ends at a RED component, on cyclic graphs too |
| `Readiness.NobodyBlocksItself` | doc-gen/readiness.py:2131-2143 | Without such a self-edge no component is blocked by itself |
| `Readiness.NoSelfEdges` | doc-gen/dependencies.py:281-394 | Graphs without self-edges meet that condition |
| `Readiness.RedRemains` | doc-gen/readiness.py:2120-2143 | Then a RED component, if there was one, is left |
| `Readiness.SelfEdgeErasesRed` | doc-gen/readiness.py:2120-2143 | With a self-edge the only RED component is lost |
| `Readiness.EndsRedIff` | doc-gen/readiness.py:2125-2143 | A component ends RED if and only if it starts RED and has no prerequisite that starts RED and is visited with or after it, nor one visited before it that ends RED |
| `Readiness.RedIsLeftIff` | doc-gen/readiness.py:2125-2143 | A RED component is left if and only if some RED one depends on no RED one visited with it or after it |
| `Readiness.OverallIsJoinIff` | doc-gen/readiness.py:2189-2194 | The overall score is the join of all gaps if and only if no component starts RED, or one does that depends on no RED one visited with it or after it, or the registry has a RED gap |
| `Readiness.OverallIsJoin` | doc-gen/readiness.py:2189-2194 | Without a self-edge on a RED component, propagation never changes the overall score |
| `Readiness.ReadinessScorer.ScoreNodes` | doc-gen/readiness.py:2105-2118 | The last node of an id decides its entry; the dictionary order is that of first occurrence |
| `ReadinessTables.EntryOfLast` | doc-gen/readiness.py:2105-2118 | The entry of an id has the gaps of its last node, their worst severity as score, and no blocker |
| `ReadinessTables.OrderIsByFirst` | doc-gen/readiness.py:2105-2118 | Ids are listed in the order of their first nodes |
| `ReadinessTables.OverallIs` | doc-gen/readiness.py:2189-2194 | The overall score is no better than any component or registry gap, and is GREEN or one of theirs |
| `Readiness.ScoreGraph` | doc-gen/readiness.py:2103-2194 | The whole scoring: settled components, and an overall score that is the join of all component and registry gaps exactly for the inputs that let no RED get lost |
| `DriftPaths.PathInjective` | doc-gen/drift.py:17-30 | Two addresses with clean keys that print alike are the same |
| `DriftRecords.PathGrows` | doc-gen/drift.py:17-30 | A path grows by a dot and a key, the first key without the dot, or by an index in brackets |
| `DriftPaths.MatchesIffBelow` | doc-gen/drift.py:149-153 | The prefix test on printed paths holds if and only if the changed address lies at or below the mapped one, with the exact exception for the root |
| `Drift.Flatten` | doc-gen/drift.py:17-30 | The flattened map has exactly one entry for each printed leaf path, with a leaf's value |
| `Drift.FlatIsLeaves` | doc-gen/drift.py:17-30 | On clean keys a path is in the map if and only if its address is a leaf, and maps to that leaf |
| `Drift.ComputeDrift` | doc-gen/drift.py:74-127 | Emits one record per drifting path, in path order, and the worst severity among them |
| `DriftRecords.RecordIs` | doc-gen/drift.py:33-112 | A record has the two values, null for a missing one; it is HIGH or MEDIUM if and only if both sides exist and the path, letter case aside, mentions one of five or of four words |
| `DriftRecords.RecordOfLeaves` | doc-gen/drift.py:82-112 | In clean documents the two values are the leaves at the address of the path |
| `DriftRecords.SkippedIs` | doc-gen/drift.py:79-80 | A path is skipped if and only if it lies under schema_version, collected_at or assessment_tier and that does not hold a list |
| `DriftRecords.WorstIs` | doc-gen/drift.py:114-118 | The overall severity is HIGH if some record is, else MEDIUM if some record is, else LOW |
| `Drift.DriftsIffLeafDiffers` | doc-gen/drift.py:77-112 | A path drifts if and only if its top part is not skipped and its leaf differs or is one-sided |
| `Drift.DriftingAddress` | doc-gen/drift.py:82-112 | Every drift record belongs to exactly one differing address |
| `Drift.NoDriftIff` | doc-gen/drift.py:50-127 | There is no record if and only if every differing leaf lies under a skipped top part |
| `Drift.EmptyContainersAreInvisible` | doc-gen/drift.py:20-30 | Two unequal documents that differ in an empty container have no drift |
| `Drift.DocFieldDrift` | doc-gen/drift.py:130-154 | Lists the doc fields whose mapped path some record matches, in map order |
| `Drift.StaleIffBelow` | doc-gen/drift.py:130-154 | A field is stale if and only if some differing, not skipped leaf lies at or below its path |
| `MergeSpec.MergeIdempotent` | engine/parser.py:49-55 | Merging a document into itself changes nothing |
| `MergeSpec.MergeAbsorbs` | engine/parser.py:49-55 | Merging the same fragment twice is merging it once |
| `MergeSpec.OverrideLeaves` | engine/parser.py:49-55 | At every leaf the override defines, its value is taken |
| `MergeSpec.BaseElsewhere` | engine/parser.py:49-55 | Where the override stays silent next to objects on both sides, the base's value is kept |
| `MergeSpec.MergeAssociativeIff` | engine/parser.py:49-55 | Merging three fragments is associative if and only if, wherever the first and third are objects and the second is not, every key of the first is in the third, all the way down |
| `MergeSpec.SameShapesAssociate` | engine/parser.py:49-55 | Fragments where no path is an object on one side and something else on the next associate |
| `MergeSpec.CoveredIff` | engine/parser.py:49-55 | Merging an object under another adds nothing if and only if all its keys are there, all the way down |
| `MergeSpec.MergeNotAssociative` | engine/parser.py:49-55 | A concrete triple on which it is not |
| `MergeSpec.MergeCommutesIff` | engine/parser.py:49-55 | Two fragments merge alike in both orders if and only if they agree wherever both say something |
| `MergeSpec.MergeSwaps` | engine/parser.py:37-44 | Agreeing fragments can change places over any base |
| `MergeSpec.OrderIrrelevant` | engine/parser.py:37-44 | Pairwise agreeing fragments give the same assessment in any order |
| `MergeSpec.LastFragmentWins` | engine/parser.py:37-44 | A value that the last fragment gives is in the assessment, whatever the others say |
| `DeepMerge.DeepMergeInto` | engine/parser.py:49-55 | The in-place recursion leaves in base the merge of both values, stays within the two structures, and terminates |
| `DeepMerge.MergeFragments` | engine/parser.py:37-44 | The fold over fragments leaves the merge of all of them, in order |
| `DeepMerge.ParseRawAudit` | engine/parser.py:31-46 | The assessment is schema_version 1.0, the time stamp and the host name under their own keys, merged with all fragments in order |
| `VmIds.NextAvailable` | doc-gen/analyzers.py:222-232 | The smallest id from 100 up that no VM and no container has, at most 100 + the number of used ids |
| `VmIds.VmIdSequence` | doc-gen/analyzers.py:244-257 | Exactly count ids, increasing, the smallest free ones, none above 99 + used + count |
| `VmIds.SmallestFreeUnique` | doc-gen/analyzers.py:244-257 | Two lists of smallest free ids are prefixes of each other |
| `VmIds.StartsWithNext` | doc-gen/analyzers.py:222-257 | The sequence starts with the next available id |
| `RegistryBlocks.ParseBlock` | proxmox-bootstrap/_vault_hierarchy.py:157-218 | The index-moving parser advances, terminates, and reads what the specification reads |
| `RegistryBlocks.ParseItem` | proxmox-bootstrap/_vault_hierarchy.py:174-189 | A mapping item takes its first field and the fields indented below it, and the index moves past them |
| `RegistryBlocks.ParseFolded` | proxmox-bootstrap/_vault_hierarchy.py:199-207 | A folded text takes all deeper lines, joined by single spaces |
| `RegistryBlocks.ReadsMapping` | proxmox-bootstrap/_vault_hierarchy.py:191-215 | Printed fields read back in order, a later one replacing an earlier one of the same key |
| `RegistryBlocks.ReadsRecords` | proxmox-bootstrap/_vault_hierarchy.py:170-190 | Printed list items read back as the mappings they were printed from |
| `RegistryBlocks.RegistryReadsBack` | proxmox-bootstrap/_vault_hierarchy.py:157-218 | For any faithful line syntax, parsing a printed registry returns its data and uses up all lines |
| `RegistryText.SplitTopLevel` | proxmox-bootstrap/_vault_hierarchy.py:141-155 | Splits at commas outside brackets and trims the parts |
| `RegistryText.ScalarReadsBack` | proxmox-bootstrap/_vault_hierarchy.py:117-139 | A printed null, boolean, integer or string reads back as the same value; a string is printed without quotes if it is a word by its characters alone |
| `RegistryForms.ScalarForms` | proxmox-bootstrap/_vault_hierarchy.py:117-139 | Every form of scalar and what it is read as: {}, nothing, null and ~, [], quoted text, true and yes, false and no, dot-free numerals; any other text is itself |
| `RegistryForms.NumeralsAre` | proxmox-bootstrap/_vault_hierarchy.py:134-138 | A text is read as a number if and only if it is a sign or none and groups of digits with single underscores between them; leading zeros do not count |
| `RegistryForms.ListForm` | proxmox-bootstrap/_vault_hierarchy.py:123-128 | An inline list holds what the texts between its own commas stand for, nested lists included; a blank last one is dropped |
| `RegistryForms.SplitIs` | proxmox-bootstrap/_vault_hierarchy.py:141-155 | A text divides at exactly the commas that are not inside brackets |
| `RegistryText.InlineReadsBack` | proxmox-bootstrap/_vault_hierarchy.py:117-155 | A printed inline list of comma-free scalars reads back as the same list |
| `RegistryText.PrinterIsFaithful` | proxmox-bootstrap/_vault_hierarchy.py:170-198 | The line forms of the printer are read as the forms they stand for |
| `RegistryForms.FieldForm` | proxmox-bootstrap/_vault_hierarchy.py:191-198 | A line that is no item has its key up to the first colon; without a colon it says nothing |
| `RegistryForms.ItemForm` | proxmox-bootstrap/_vault_hierarchy.py:170-190 | An item is a field if it has a colon and does not begin like a list, a mapping or a quoted text, and a value otherwise |
| `RegistryForms.CommentIsCut` | proxmox-bootstrap/_vault_hierarchy.py:109 | Everything from the first blank before a number sign on is left out |
| `RegistryForms.CommentLine` | proxmox-bootstrap/_vault_hierarchy.py:110-111 | A line that begins with a number sign says nothing, whatever its indent |
| `RegistryForms.BlankLine` | proxmox-bootstrap/_vault_hierarchy.py:110-111 | A blank line says nothing |
| `RegistryForms.TabIsNoIndent` | proxmox-bootstrap/_vault_hierarchy.py:114-115 | Only blanks count as indentation: a tab does not, nor what follows it |
| `RegistryForms.ReadsFolded` | proxmox-bootstrap/_vault_hierarchy.py:199-207 | The lines below a key with > or a bar, two deeper or more, are one text with single blanks between them |
| `RegistryForms.MixedBlock` | proxmox-bootstrap/_vault_hierarchy.py:216-218 | A block with items and fields at one indent is the list of its items |
| `RegistryFile.ParseRegistry` | proxmox-bootstrap/_vault_hierarchy.py:104-112 | From the file text: lines are split at \n, \r and \r\n, comments and blank lines dropped, indentation counted, and an empty result becomes the empty object |
| `RegistryFile.RegistryRoundTrip` | proxmox-bootstrap/_vault_hierarchy.py:97-221 | Reading the file text of any printed registry returns its data |
| `RegistryForms.RolesFile` | proxmox-bootstrap/_vault_hierarchy.py:97-221 | A file with one role and its tier, character by character, is read as that record, for all words |
| `RegistryFile.StringFieldSurvivesIff` | proxmox-bootstrap/_vault_hierarchy.py:105-109 | A string field survives the file round trip if and only if it has no line break (\n or \r) and no blank followed by # |
| `RegistryFile.CarriageReturnSplits` | proxmox-bootstrap/_vault_hierarchy.py:105-106 | The value a, carriage return, b is read back as a quote and a |
| `RegistryFile.LoadedUnbroken` | proxmox-bootstrap/_vault_hierarchy.py:104-221 | No top-level field of any file is read as a string with a line break |
| `RegistryLines.FileReadsBack` | proxmox-bootstrap/_vault_hierarchy.py:105-106 | A file of whole unbroken lines is read as these lines |
| `RegistryLines.FirstLineReadsBack` | proxmox-bootstrap/_vault_hierarchy.py:105-106 | Either break character ends a line and is read as a newline |
| `RegistryForms.BothBreaks` | proxmox-bootstrap/_vault_hierarchy.py:105-106 | A carriage return and a newline together end one line |
| `RegistryForms.UnendedLine` | proxmox-bootstrap/_vault_hierarchy.py:105-106 | The last line need not be ended |

## Left out

- Collectors, report and HTML renderers, command lines, package assemblers, Git, HTTP and encryption code: input, output and string templates.
- Node labels and metadata, wave notes and the text form of a restore plan (doc-gen/dependencies.py:475-530).
- SQLite itself: tables are sequences; how it turns a bound float into text is a parameter; null, lists, dicts and integers beyond 64 bits reject the store. JSON text is the value it encodes.
- The guest summary table, list_assessments and hostnames of the history store: counts and thin queries.
- NaN and infinities in documents; string lower-casing, digits and white space beyond ASCII for Python, and beyond the listed characters for JavaScript.
- Text encoding in ZIP names: a name is its UTF-8 bytes, so a byte order mark stripped by the decoder and the special object key `__proto__` are not modelled. The time stamp is an input.
- Note ids and the open flag, editing a note in the tree (find and remove, first match in pre-order) and the regular expressions of applyImport.
- Validation messages: an error is its path and its kind. detect_schema and reading files are not part of this model.
- PyKeePass: a database is a tree of named groups with entry lists held by value, changed by replacing the subtree at a path; the code's references to groups and entries are paths and positions here. Saving keeps the tree. All further data of an entry is one opaque string. sync_entry, wrong passwords and missing files are left out.
- Looking up a component's job and offsite coverage in the backup inventory: passed in. Ages in days are integers. Score reasons, single points of failure, blockers and the per-topic gap rules, whose gaps are an arbitrary list.
- Drift.Flatten: when two addresses print alike (keys with dots or brackets) it says that the value of one of these leaves is kept, not which, because the order of a dictionary's keys is not modelled.
- The documentation_impact text and time stamps of a drift record.
- Reading the clock and the host name that open an assessment (they are inputs), failed and unknown collectors (dropped before the fold). Fragments share no dictionaries with each other or with the assessment, so aliasing between parsers is not modelled.
- Rationale texts of the VM id analyzers.
- YAML files read through PyYAML; scope matching and entry selection, which filter by glob patterns; derived-vault plans. Non-ASCII digits in numerals.
- RegistryFile.RegistryRoundTrip: the printer quotes every string that is not a word; single quotes, yes/no, ~, signed or underscored numerals and folded text are never printed. What the parser makes of them is in `RegistryForms`.
