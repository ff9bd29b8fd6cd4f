# Verified model of qswm

qswm is a small web front end for libvirt snapshots. Between the HTTP library and libvirt it has hand-written
logic: it assembles and searches snapshot trees, remembers which virtual machines have changed since their last
snapshot, edits and reads XML as plain strings, and decodes what browsers and `qemu-img` send it. This project
models that logic in Dafny and proves what it promises, and where a promise does not hold for every input it
proves for exactly which inputs it does.

`dafny verify dfyconfig.toml` checks everything.

## What is modelled

- **Snapshot trees** (`Trees`, `ParentForest`, `Assembly`, `Snapshots`, `SnapshotTree`). The heap nodes with their
  growing child arrays, phase 2 of `lv_list_snapshots`, the recursive count and find, and the search with a stack
  of 256 slots that hangs the "current state" node. `ParentForest` reads the input as a parent table, `Assembly`
  as a tree; the methods on the heap are proved to build exactly that tree.
- **Dirty state** (`DirtyTable`, `DirtyState`, `DirtyStore`, `DirtyProtocol`, `Handlers`). The bounded first-match
  table, its file written through a temporary file and a rename, a machine in which a crash may fall between any
  two file operations, the protocol of virtual machines, requests and restarts, and the handlers that run it.
- **XML as strings** (`Strings`, `XmlRead`, `Splice`, `DescriptionEdit`, `Nvram`, `NvramEarlier`, `NvramForms`,
  `Pieces`, `SnapshotXml`, `SnapshotType`, `Quotes`, `FolderXml`, `SharedFolders`, `FolderQuotes`, `DomainText`,
  `RestartNeedle`, `SharedMemory`, `SharedText`, `SharedRuns`, `Buffers`). `strstr` is a first-occurrence function;
  everything else is first-occurrence and non-overlap reasoning on top of it. The shared-memory protocol runs on domain
  XML: a text shows a configuration when it consists of that configuration's printed folders and of other text.
- **Codecs and text** (`Base64`, `UrlCodec`, `FormBody`, `ConfigText`, `ConfigLines`, `Decimal`, `Config`,
  `ConfigPrint`, `Dropins`, `QemuImg`, `QemuListing`, `Routes`, `RoutePrint`, with `Splitting` for text cut at a
  character).
- **Orphan snapshots** (`Orphans`, `OrphanLaws`). Images as lists of snapshot names, deletions that may fail.

## Assumptions

- Memory allocation succeeds, so the branches that test a pointer for an allocation that failed are absent.
- One thread polls for requests (`src/server.c:221`), so a handler is not interleaved with another handler. A crash
  may still fall inside it.
- The content of a guest changes only while the guest is running. A state other than running, paused and shut off is
  one value.
- libvirt, `qemu-img` and the file system are represented by their outcomes: success, failure, a new state. A rename is
  atomic. Deleting a snapshot that reports success has removed one snapshot of that name. `readdir` returns every name
  of the directory in some order, and `qsort` sorts.
- C strings are the characters before the NUL. Integers are unbounded except where the width matters: the 32-bit
  accumulator of the Base64 decoder is written out, the sizes of fixed buffers are constants. `atoi` has no overflow.
- What the program prints is read as it was printed. libvirt parses and prints it again in between: a folder keeps the
  attribute quotes and the order of its parts, and a snapshot's name, description and parent keep the escaping that
  the program gave them (`SnapshotXml.CreateThenList`, `SnapshotXml.HangsUnderCurrentIff`).
- In the runs of `SharedRuns` libvirt's part is a condition on the texts: after it has attached or detached a folder or
  started the domain, the XML shows the configuration with that change. `SharedText.SomeTextShows` gives a text for
  every configuration of clean folders, so no such condition is empty. Other text does not contain `dir='` or
  `<filesystem`, and XML fetches succeed.

## Where a promise has a limit

- A tree search with 256 slots finds the current snapshot in every tree of `n` nodes if and only if `n <= 256`.
- Assembly puts every node under one root if and only if the parent names form no cycle.
- A name of 256 bytes or more is stored cut and never found again, so the table is a map exactly below that length.
- Reading a description after writing it returns it if and only if it holds no close tag, and, when it is inserted,
  is at most 2020 bytes long. Writing back what was read changes nothing if and only if the first close tag follows
  the first open tag; writing twice is writing once if and only if, besides, the first text holds no close tag.
- The NVRAM conversion rewrites the first occurrence of the path in the whole text. If that is not the element's own,
  the element keeps the raw path.
- An NVRAM element without attributes is converted like any other, but as nothing in its text says qcow2, converting it
  a second time is not answered with "already qcow2".
- The type of a snapshot is read off its XML, so the word disk-only in a name, a description or the parent's name makes
  an internal snapshot external.
- The reader of a snapshot's parent does not unescape what the writer escaped, so a new snapshot hangs under the
  current one if and only if that one's name has none of `& < > " '`.
- `needs_restart` searches the live XML for `dir='tag'` in a buffer of 256 bytes. A host path of the same text matches
  too, and a tag of 250 bytes or more loses its closing quote and matches every value with the same first 250.
- A configuration line without a newline is read in pieces of 511 characters, each a line of its own. Hence parsing
  `a`, a newline and `b` in one go is parsing `a` and then `b` only if such a rest makes no difference.
- A snapshot called `form` cannot be addressed by its URL.
- The parser of `qemu-img snapshot -l` knows sizes up to GiB, so a snapshot of a TiB or more is not seen.
- The orphan cleanup takes a failed snapshot count from libvirt for "no snapshots"; then libvirt's own snapshots are
  deleted like orphans.

## Model

| member | source | states |
|---|---|---|
| Snapshots.SnapshotNode.AddChild | src/snapshot.c:27-44 | the child is appended as the last child and points back to its parent, and all earlier children stay, also when the full child array is replaced by one of twice the capacity |
| Snapshots.LinkNode | src/libvirt_backend.c:463-488 | one round of phase 2: a node with a resolvable parent goes under the first other node of that name, the first other node becomes the root, later ones go under it; every other link in the heap stays |
| Snapshots.LinkNodes | src/libvirt_backend.c:463-488 | phase 2 ends with heap links, parent pointers and root exactly as the parent table of the input says, for nodes in any order |
| Snapshots.Phase2Builds | src/libvirt_backend.c:463-488 | without a cycle in the parent names the heap is one tree under the first unresolved node; it holds every node once, has as many nodes as the input, and its child lists and parent pointers agree |
| ParentForest.KidsInInputOrder | src/libvirt_backend.c:463-488 | the children of a node stand in input order |
| ParentForest.AcyclicIff | src/libvirt_backend.c:463-488 | no cycle among the parent names is the same as: from every node the top is reached within n links |
| ParentForest.HungAcyclicIff | src/libvirt_backend.c:479-488 | hanging leftover nodes under the first root neither makes nor breaks a cycle |
| Assembly.AssembledIff | src/libvirt_backend.c:463-488 | all nodes hang under the first root if and only if the parent names are acyclic |
| Assembly.TreeOfAll | src/libvirt_backend.c:463-488 | the tree read off a parent table with one top holds every node exactly once and has its size |
| Assembly.GrownByOne | src/snapshot.c:135-189 | hanging one leaf under a node of a tree without repetitions adds exactly one node |
| Assembly.GrownShaped | src/snapshot.c:135-189 | the tree with one more last child has the old links everywhere else |
| SnapshotTree.Count | src/snapshot.c:124-133 | the recursion with its loop counts the nodes of the tree |
| SnapshotTree.Find | src/snapshot.c:61-76 | the node with the id that a depth-first walk meets first, null when there is none |
| SnapshotTree.FirstByIdUnique | src/snapshot.c:61-76 | with distinct ids the search is an exact lookup for every node of the tree |
| SnapshotTree.FindCurrent | src/snapshot.c:153-166 | the search with the 256-slot array follows the search on subtrees step by step and never leaves its slots |
| Trees.SearchSound | src/snapshot.c:153-166 | what the search returns is a current node of the tree, whatever was dropped |
| Trees.SearchExactUpTo256 | src/snapshot.c:153-166 | in a tree of at most 256 nodes a current node is found exactly when there is one |
| Trees.SearchDropsLastChild | src/snapshot.c:159-164 | from 257 nodes on the last child of a wide root is dropped although it is current |
| Trees.TreeExactIff | src/snapshot.c:153-166 | on a given tree with distinct nodes the search is exact, whatever is current, if and only if it never refuses a push |
| Trees.SearchExactIff | src/snapshot.c:135-189 | the search is exact on all trees of n nodes if and only if n is at most 256 |
| SnapshotTree.AddCurrentState | src/snapshot.c:135-189 | the virtual node becomes the last child of the node found, carries the VM state and the dirty flag, and the rest of the heap stays; nothing happens when none is found |
| SnapshotTree.StateAppears | src/snapshot.c:135-189 | up to 256 nodes the virtual node appears if and only if some node is current, and then the tree gains exactly one node |
| DirtyTable.SetIsMapUpdate | src/dirty_state.c:151-176 | an accepted set of a name below 256 bytes changes the answer for that name to the new flag and for no other |
| DirtyTable.SetIsMapUpdateIff | src/dirty_state.c:151-176 | for an untracked name the table acts as a map if and only if the name is shorter than 256 bytes |
| DirtyTable.LongNameIsLost | src/dirty_state.c:151-176 | a name of 256 letters is marked clean and then not found |
| DirtyTable.LoadAfterDump | src/dirty_state.c:81-149 | reading the document that a save writes gives the table back, entry by entry |
| DirtyTable.LoadedIs | src/dirty_state.c:216-248 | of any array the first 128 records with a name are kept, in order, and everything else in it is passed over |
| DirtyTable.CleanIff | src/dirty_state.c:270-287 | the answer is clean if and only if the machine does not run and its first entry says so, or it has none and is not paused |
| DirtyState.DirtyStateTable.Find | src/dirty_state.c:25-32 | the first slot with this name |
| DirtyState.DirtyStateTable.Set | src/dirty_state.c:151-176 | the new table, when the files are written and when not, and the return code in every case |
| DirtyState.DirtyStateTable.Save | src/dirty_state.c:81-149 | the target file is replaced only when every file operation succeeded, and then by the whole table |
| DirtyState.DirtyStateTable.IsDirty | src/dirty_state.c:270-287 | the answer for each state, and that the query itself marks a running or an unknown paused machine |
| DirtyState.DirtyStateTable.Init | src/dirty_state.c:178-252 | the table is what the file holds, up to 128 valid records, or empty; the return code for each kind of file |
| DirtyState.UnchangedIff | src/dirty_state.c:151-176 | a set goes on to save exactly when it changes the table |
| DirtyStore.RunConsistent | src/dirty_state.c:81-149 | in every run from a start, with crashes between any two file operations, the target holds, complete, the table of the last save that succeeded |
| DirtyStore.CrashIsAtomic | src/dirty_state.c:81-149 | a crash anywhere inside a set recovers the table of the last good save before it, also when saves have failed since, or the table after it, and the latter exactly when the rename has happened |
| DirtyStore.SaveIsRun | src/dirty_state.c:81-149 | the uninterrupted save is that machine's run of its file operations |
| DirtyStore.SaveHeals | src/dirty_state.c:151-176 | after any failed saves, the next changing set whose save succeeds makes disk and memory equal again |
| DirtyProtocol.NextKeeps | src/routes.c:489-527 | every step of machines, requests and restarts keeps: the table is right about every machine, and there is room for all |
| DirtyProtocol.CleanIsSound | src/dirty_state.c:270-287 | in every disciplined run, across restarts, a machine that does not run and is reported clean has exactly the content of its last successful create or revert |
| DirtyProtocol.SettledIsClean | src/routes.c:527 | a successful create of a machine that does not run, and a successful revert that leaves it not running, mark it clean, and the next look says so |
| DirtyProtocol.SettledStaysClean | src/routes.c:885 | after such a create or revert every look finds the machine clean, with the captured or restored content, until it is started, stopped or reverted again, whatever happens to other machines and across restarts |
| DirtyProtocol.FailureChangesNothing | src/routes.c:817-885 | a create that fails and a revert that is refused or fails change no mark, no content and no state |
| DirtyProtocol.CapturesIff | src/routes.c:852-870 | a content is captured exactly by a create that succeeds or by the save in front of a revert that is not refused, and a revert that was asked to save restores only after it has captured |
| DirtyProtocol.RevertLosesNothing | src/routes.c:852-870 | when a revert that was asked to save has replaced the content of a machine, the old content is captured and stays so in every later run |
| DirtyProtocol.StopIsSafeIff | src/dirty_state.c:270-287 | stopping a running machine is safe for everything it may have written if and only if the table already says dirty |
| DirtyProtocol.RestartIsSafeIff | src/dirty_state.c:178-252 | a restart is safe for a machine if and only if the file says dirty about it, or it is not running and has the content of its last snapshot |
| DirtyProtocol.LostMarkMisleads | src/dirty_state.c:178-252 | a running machine whose mark was not saved, a restart and a stop: it is reported clean with other content |
| DirtyProtocol.LookMarksIff | src/dirty_state.c:270-287 | looking at a running machine marks it if and only if it is tracked or its name and the table leave room |
| DirtyProtocol.LookKeepsMarks | src/dirty_state.c:270-287 | a look at a machine that does not run keeps its mark, and marks a paused one dirty that has none |
| Handlers.SavedOnDisk | src/dirty_state.c:81-149 | a save that succeeds is what the next start reads, one that fails changes nothing about that |
| Handlers.Server.CreateSnapshot | src/routes.c:489-527 | marks clean only after the backend has captured the content, as the protocol's create, also when the process dies before the mark is saved; after a success the table says clean |
| Handlers.Server.RevertSnapshot | src/routes.c:817-885 | refuses a running machine and a failed save, restores, and only then marks clean, as the protocol's revert, crashes included; after a success the table says clean |
| Handlers.Server.Look | src/routes.c:389-399 | the query in the snapshot tree and in the revert confirmation (`src/routes.c:714-728`): answer and table as in the protocol, and no change when the machines cannot be listed |
| Handlers.Server.DeleteSnapshot | src/routes.c:663-700 | refused while the machine is listed as running or paused; never touches the table |
| Handlers.Server.Restart | src/dirty_state.c:178-258 | ending and starting the process puts the table on disk back into memory, or an empty one when access to the file is denied |
| Handlers.Server.ServeThenLook | src/routes.c:389-399 | a create or revert that leaves the machine not running, and then a look through the handlers: it is reported clean |
| Handlers.Server.ServeAll | src/routes.c:489-527 | every disciplined sequence of events served by these handlers, with crashes inside them, is a run of the protocol, so no machine is wrongly reported clean |
| Splice.PutGetIff | src/libvirt_backend.c:858-873 | for any pair of tags, reading after replacing returns the text if and only if it holds no close tag |
| Splice.GetPutIff | src/libvirt_backend.c:858-873 | replacing by what was read changes nothing if and only if the first close tag follows the first open tag |
| Splice.PutPutIff | src/libvirt_backend.c:858-873 | replacing twice is replacing once with the second text if and only if the tags are in order and the first text holds no close tag |
| DescriptionEdit.EditInBuffer | src/libvirt_backend.c:853-895 | the copies into a buffer of exactly the computed length give the replaced or inserted text, and fail when there is no name |
| DescriptionEdit.EditThenReadIff | src/libvirt_backend.c:858-873 | extracting after an edit returns the new description if and only if it holds no close tag |
| DescriptionEdit.ReadThenEditIff | src/libvirt_backend.c:858-873 | editing with the extracted description changes nothing if and only if the tags are in order |
| DescriptionEdit.CloseTagIsLost | src/libvirt_backend.c:858-873 | a description that is the close tag itself is not read back |
| DescriptionEdit.EditTwiceIff | src/libvirt_backend.c:858-873 | two edits are the second one alone if and only if the tags are in order and the first description holds no close tag |
| DescriptionEdit.InsertThenReadIff | src/libvirt_backend.c:874-895 | a description inserted behind the name is read back if and only if it fits the buffer, that is up to 2020 bytes, and holds no close tag |
| DescriptionEdit.EditFailsIff | src/libvirt_backend.c:858-880 | there is no result if and only if the text has neither both tags nor the end of a name |
| DescriptionEdit.InsertPlace | src/libvirt_backend.c:877-892 | the element is inserted right behind the first end of a name; taking it out again gives the old text |
| DescriptionEdit.EditKeepsName | src/libvirt_backend.c:853-895 | an edit of either kind leaves the name readable and the same, when the first name element stands in front of the description |
| XmlRead.UntilChar | src/libvirt_backend.c:88-115 | an attribute value is read up to its own closing quote |
| XmlRead.AttrTextDouble | src/libvirt_backend.c:96-110 | without a single-quoted attribute behind the tag, the double-quoted one is read |
| XmlRead.ParentWithAttributes | src/libvirt_backend.c:128-140 | the parent's name is read from a parent element with attributes when there is none without |
| Nvram.ConvertDomain | src/libvirt_backend.c:545-710 | the return code and the persistent XML for a VM that is not shut off, a domain without NVRAM or with a qcow2 one, and a failure of qemu-img or of libvirt |
| Nvram.ConvertInBuffer | src/libvirt_backend.c:575-682 | the copy and the shifts in a buffer of 512 spare bytes compute the rewrite, for every XML text without leaving the buffer |
| Nvram.PathOccurs | src/libvirt_backend.c:640-650 | the extracted path always occurs in the text, so the error branch behind the search is never taken |
| Nvram.GrowsByAtMost8 | src/libvirt_backend.c:624-682 | the rewritten text is at most 8 bytes longer, for every text |
| Nvram.ConvertIs | src/libvirt_backend.c:647-682 | with one raw NVRAM element the path and the format are replaced and every other character stays |
| Nvram.ConvertedReadsBack | src/libvirt_backend.c:545-682 | the result reads back as the .qcow2 path, and a second conversion says "already qcow2" |
| Nvram.ConvertThenRead | src/libvirt_backend.c:545-682 | path, format qcow2, idempotence and length together, for the conversion as it runs |
| NvramEarlier.ReadsBackIff | src/libvirt_backend.c:640-657 | for an absolute path, the result reads back as the .qcow2 path if and only if the first occurrence of the path in the text is the element's own, or the path ends in .qcow2 already |
| NvramEarlier.EarlierReadsOld | src/libvirt_backend.c:640-657 | when the path occurs earlier, in front of the element or among its attributes, the element keeps the old path |
| NvramForms.BareConvertIs | src/libvirt_backend.c:575-682 | an element without attributes is converted too: its path is replaced and every other character stays |
| NvramForms.BareConvertsAgain | src/libvirt_backend.c:584-592 | its result reads back as the .qcow2 path, but nothing in it says qcow2: a second conversion goes through the whole rewrite and changes nothing |
| NvramForms.DoubleConvertIs | src/libvirt_backend.c:659-680 | a format in double quotes is replaced in double quotes, with the path, and every other character stays |
| NvramForms.DoubleReadsBack | src/libvirt_backend.c:545-682 | its result reads back as the .qcow2 path and the format qcow2, and a second conversion says "already qcow2" |
| SnapshotXml.EscapedLength | src/libvirt_backend.c:142-157 | the first pass counts exactly what the second one writes |
| SnapshotXml.EscapeText | src/libvirt_backend.c:142-176 | the second pass fills the counted buffer with the escaped text and never writes beyond it |
| SnapshotXml.UnescapeEscape | src/libvirt_backend.c:142-176 | standard unescaping (section 4.6 of XML 1.0) undoes the escaping |
| SnapshotXml.EscapeInjective | src/libvirt_backend.c:142-176 | no two texts are escaped alike |
| SnapshotXml.EscapeHasNoTag | src/libvirt_backend.c:142-176 | the escaped text has no angle bracket and no quote |
| SnapshotXml.EscapeFixedIff | src/libvirt_backend.c:142-176 | a text stays as it is if and only if it has none of the five escaped characters |
| SnapshotXml.CreateThenList | src/libvirt_backend.c:728-778 | for all names, descriptions and current snapshots the printed XML reads back as the escaped name, the escaped description and the escaped parent, or no parent |
| SnapshotXml.HangsUnderCurrentIff | src/libvirt_backend.c:128-140 | the new snapshot is resolved to the current one as its parent if and only if that name needs no escaping |
| SnapshotXml.AmpersandLosesParent | src/libvirt_backend.c:128-140 | a current snapshot called a&b does not become the parent |
| SnapshotType.ListedExternalIff | src/libvirt_backend.c:441-449 | a created snapshot is listed as external if and only if it was created so or the word disk-only stands in its name, its description or the name of its parent |
| SnapshotType.NamedDiskOnly | src/libvirt_backend.c:441-449 | an internal snapshot called disk-only is listed as external |
| SnapshotType.WordEscaped | src/libvirt_backend.c:142-176 | escaping neither makes nor breaks a word of more than six letters |
| FolderXml.ReadPrinted | src/libvirt_backend.c:1238-1260 | a printed folder element reads back with its source, tag, type and read-only flag |
| SharedFolders.List | src/libvirt_backend.c:1047-1091 | the listing loop with its growing array collects the folders of all elements in order |
| SharedFolders.ListPrinted | src/libvirt_backend.c:1047-1091 | a domain XML with printed folder elements and other text around them lists exactly these folders |
| SharedFolders.Search | src/libvirt_backend.c:1349-1377 | the remove loop looks at the elements one by one and returns the first that has the tag in its target |
| SharedFolders.MatchesIff | src/libvirt_backend.c:1367-1373 | a printed element matches a tag without a quote if and only if its tag is the asked one, never one that merely begins with it, or, for a tag of 250 bytes and more, which the needle buffer cuts, shares its first 250 bytes |
| SharedFolders.SearchMatches | src/libvirt_backend.c:1349-1377 | removing selects the first printed element that matches, for every tag |
| SharedFolders.ListsReadable | src/libvirt_backend.c:1047-1091 | in a domain XML with filesystem elements of any kind the listing is the shared folders among them, in order, and the removal takes the first element with the tag |
| SharedFolders.ForeignIsSkipped | src/libvirt_backend.c:1057-1091 | an element that is no shared folder does not change what is listed behind it |
| SharedFolders.SearchPrinted | src/libvirt_backend.c:1349-1377 | for a tag without a quote this is the first folder with that tag, up to the cut of the needle, and none when there is none |
| FolderQuotes.ReadsDouble | src/libvirt_backend.c:1057-1091 | an element with double-quoted values is listed with these values if and only if it names one of the three kinds |
| FolderQuotes.MatchesDouble | src/libvirt_backend.c:1352-1373 | the removal finds such an element by its tag, when that fits the needle |
| RestartNeedle.BlockFindsIff | src/libvirt_backend.c:1105-1111 | the search for the needle hits a printed element if and only if the needle stands for its tag or its source, the cut needle of a long tag included |
| RestartNeedle.LiveFindsIff | src/libvirt_backend.c:1105-1111 | the same for a whole live XML: some live folder has a tag or a source that the needle stands for |
| RestartNeedle.ListShared | src/libvirt_backend.c:1026-1120 | the listing with its loop over the folders: each persistent folder in order, flagged exactly when the live XML lacks its needle |
| RestartNeedle.FlagIsRightIff | src/libvirt_backend.c:1095-1115 | on live XML the flag of a tag is right, that is raised exactly when no live folder has the tag, if and only if the tag is live or neither equal to, nor for 250 bytes and more cut like, a live tag or host path |
| RestartNeedle.ListingIsRightIff | src/libvirt_backend.c:1026-1120 | all flags of a listing are right if and only if that holds for every persistent folder |
| RestartNeedle.PathHidesTag | src/libvirt_backend.c:1105-1111 | a live folder with the host path /srv keeps the flag of a waiting folder with the tag /srv down |
| RestartNeedle.CutHidesTag | src/libvirt_backend.c:1106-1107 | a live tag of 251 bytes keeps the flag of a waiting one down that differs in the last byte |
| DomainText.FoundIff | src/libvirt_backend.c:1151-1183 | a search in a domain XML hits if and only if the pattern occurs in a folder element or outside of them, never across a border |
| SharedMemory.EnableInBuffer | src/libvirt_backend.c:1151-1183 | the four copies give the text with the memory backing inserted in front of the first end tag, inside the buffer |
| SharedMemory.EnableOnce | src/libvirt_backend.c:1151-1183 | the defined text has shared memory, so a second enable changes nothing; all other text is kept and the buffer suffices |
| SharedText.BlockLacksBoth | src/libvirt_backend.c:1238-1260 | no printed folder contains the text that is searched for shared memory, its accessmode notwithstanding, or the end of the domain |
| SharedText.SharedTest | src/libvirt_backend.c:1222-1227 | the search for shared memory in a domain XML tells whether its configuration has it |
| SharedText.EnableShows | src/libvirt_backend.c:1138-1183 | enabling stops exactly when shared memory is there, and otherwise defines a text with the same folders and shared memory |
| SharedText.EnableInside | src/libvirt_backend.c:1168-1183 | the memory backing goes right in front of the first end tag of the domain, which stays the first, and all other text stays |
| SharedText.FlagTest | src/libvirt_backend.c:1105-1111 | the flag in the live XML is raised exactly when no live folder is hit by the needle |
| SharedText.SearchTest | src/libvirt_backend.c:1349-1377 | the search for a folder to remove comes up with the first one of the configuration that has the tag |
| SharedRuns.CodeAgrees | src/libvirt_backend.c:1211-1308 | the return code of an add, computed from searches in the XML, is that of the configurations the XML shows |
| SharedRuns.AddAnswers | src/libvirt_backend.c:1222-1308 | for each of the four answers of an add, exactly when it is given, in terms of the searches in the two XML texts |
| SharedRuns.AddReaches | src/libvirt_backend.c:1255-1290 | an add that succeeds appends the folder to the persistent list, and to the live one exactly when the folder is 9p or the live XML has shared memory; any other add changes nothing |
| SharedRuns.RemoveTakesOut | src/libvirt_backend.c:1333-1420 | a remove takes the first folder of the found tag, and no other, out of the persistent list and out of the live one |
| SharedRuns.StepStands | src/libvirt_backend.c:1138-1308 | each request on the XML is the protocol's step on the configurations |
| SharedRuns.RunKeepsBacked | src/libvirt_backend.c:1211-1308 | in every run of enable, add, remove, start and stop, every virtiofs folder that the persistent or the live XML lists has shared memory in the same XML |
| SharedRuns.NeverAskedAgain | src/libvirt_backend.c:1222-1236 | after an enable no later add on the XML asks for shared memory, whatever happens in between |
| SharedRuns.AlwaysAskedBefore | src/libvirt_backend.c:1222-1236 | without an enable, a persistent XML without shared memory answers every virtiofs add with -2 |
| SharedRuns.RestartClears | src/libvirt_backend.c:1095-1115 | a folder that add reports as waiting is listed and flagged, unless a live folder is hit, and after a restart it is live and not flagged |
| Base64.Decode | src/util.c:174-198 | the loop with its 32-bit accumulator computes the byte stream of the sextet stream and stays inside its buffer |
| Base64.WrapKeepsPending | src/util.c:185-194 | the accumulator wraps, but the next byte and the pending bits are those of the exact stream |
| Base64.DecodeEncode | src/util.c:174-198 | decoding what section 4 of RFC 4648 encodes returns the bytes |
| Base64.DecodeWrapped | src/util.c:186-187 | line breaks, blanks and equal signs anywhere in the text, or none at all, make no difference |
| Base64.DecodeFits | src/util.c:177-195 | for every text the bytes and a NUL fit the allocated size |
| Base64.UnknownIsA | src/util.c:163-190 | no text is refused: every other character counts as an A |
| UrlCodec.UrlEncode | src/html_render.c:116-137 | the loop prints every byte as itself or as a percent triple, in at most three characters |
| UrlCodec.UrlDecode | src/util.c:96-125 | the loop decodes triples, in either case of the digits, and plus signs, and writes no more than it reads |
| UrlCodec.DecodeEncode | src/util.c:96-125 | decoding what url_encode printed (section 2.1 of RFC 3986) returns all bytes |
| UrlCodec.EncodeIsSafe | src/html_render.c:116-137 | printed text has none of the characters that separate form fields |
| UrlCodec.DecodePrints | src/util.c:96-125 | whatever mixture of bytes as they are, plus signs for blanks and triples with upper or lower case digits a sender prints, decoding returns the bytes |
| UrlCodec.EncodePrints | src/html_render.c:116-137 | url_encode is one such sender |
| UrlCodec.PrintsIsSafe | src/util.c:96-125 | text printed by any such sender has no ampersand and no NUL |
| UrlCodec.MalformedIsKept | src/util.c:107-121 | a percent sign that starts no triple is kept, and decoding goes on behind it |
| FormBody.RequestContext.Append | src/routes.c:49-65 | the new text follows the old one and a NUL follows both, through every growth of the buffer |
| FormBody.RequestContext.Reserve | src/routes.c:53-60 | growing keeps the text and leaves room for what is needed |
| FormBody.Receive | src/routes.c:1367-1384 | after any number of chunks the body is their concatenation |
| FormBody.FormValue | src/routes.c:149-171 | the search that skips a whole key length after a rejected match finds the first part starting with "key=", decoded, and terminates |
| FormBody.FirstField | src/routes.c:149-171 | the first field by position is the first part of the split at ampersands |
| FormBody.SkipMatch | src/routes.c:156-157 | no field starts inside a rejected match of a key without an ampersand |
| FormBody.FormRoundTrip | src/routes.c:149-171 | in a form printed by any sender (blanks as plus signs or triples, digits in either case) every key is looked up with its own value up to a NUL, and every other key is absent |
| FormBody.EncodedIsPrinted | src/html_render.c:116-137 | in particular when the values are printed with url_encode |
| FormBody.BlankByPlus | src/util.c:117-118 | and when a browser sends a blank as a plus sign |
| FormBody.ReceiveValue | src/routes.c:1367-1384 | the same through the upload, for every way the printed form is cut into chunks |
| ConfigText.ReadLine | src/config.c:51-76 | trimming and splitting in the line buffer give the key and value of the line |
| ConfigText.TrimEnd | src/config.c:66-74 | overwriting trailing white space with NULs leaves the text without it |
| ConfigText.AppendIff | src/config.c:37-79 | the assignments of a, a newline and b are those of a and then b if and only if the overflow of a's last line assigns nothing |
| ConfigLines.AssignsIff | src/config.c:51-61 | a line assigns something if and only if its first character that is no blank starts no comment and no section, and an equal sign follows or is that character |
| ConfigLines.PaddedLine | src/config.c:51-76 | blanks in front of the key, around the equal sign and behind the value are not part of the assignment |
| Config.QswmConfig.ParseLine | src/config.c:21-35 | each known key sets its own field, text cut to 255 bytes; unknown keys change nothing |
| Config.QswmConfig.ParseBuffer | src/config.c:37-79 | the loop through the 512-byte line buffer applies all assignments of the text in order |
| Config.LastWins | src/config.c:21-35 | every setting ends with the last value its key was given, or keeps the old one |
| Config.ParseJoinedIff | src/config.c:37-79 | parsing two texts joined by a newline equals parsing both in turn if and only if the overflow changes no setting that the second text leaves alone |
| Config.ParseJoined | src/config.c:37-79 | in particular when the last line of the first text has at most 511 characters |
| Config.JoinedDiffers | src/config.c:42-48 | a comment of 511 characters that goes on with port=1 sets the port in one case and not in the other |
| ConfigPrint.RoundTripIff | src/config.c:21-79 | reading a printed configuration returns it if and only if its texts have no newline, no outer white space and at most 255 characters |
| ConfigPrint.ParsedIsStored | src/config.c:37-79 | after reading any text the settings have no newline, no leading white space and at most 255 characters |
| Decimal.AtoiPrint | src/config.c:23-26 | reading a printed number returns it |
| Decimal.AtoiReads | src/config.c:23-26 | so does reading one with blanks in front and any other text behind it |
| Decimal.AtoiPlus | src/config.c:23-26 | also behind a plus sign |
| Decimal.AtoiZero | src/config.c:23-26 | text that does not start with a number is zero |
| Dropins.LoadDropins | src/config.c:86-136 | the sorted .conf files that can be read and are not empty or oversized are parsed one after the other; the count includes the others |
| Dropins.Collect | src/config.c:102-110 | the first 128 names that end in .conf and are longer than that |
| Dropins.IsConfIff | src/config.c:104-106 | a file counts if and only if something stands in front of its ending .conf |
| Dropins.EnoughIsEnough | src/config.c:102-106 | names that come behind the first 128 files make no difference |
| Dropins.OrderIsFree | src/config.c:102-114 | up to 128 files the order in which the directory is read makes no difference |
| Dropins.BeforeIff | src/config.c:81-84 | the order is that of strcmp: the first text ends within the second, or is smaller where they first differ |
| Dropins.LastFileWins | src/config.c:102-133 | over all files in alphabetical order the last assignment of each key wins |
| Dropins.SortedOnce | src/config.c:113-114 | there is one sorted arrangement, so the sorting algorithm does not matter |
| QemuImg.ParseLine | src/libvirt_backend.c:2378-2423 | the scan over a line returns the text in front of the last size, without trailing blanks |
| QemuImg.ScanSizes | src/libvirt_backend.c:2394-2417 | the scan terminates with the position of the last size |
| QemuListing.RowReads | src/libvirt_backend.c:2378-2423 | a printed row gives its tag without outer blanks, or nothing when that is empty |
| QemuListing.RowReadsIff | src/libvirt_backend.c:2378-2423 | a printed row gives exactly its tag, even one that looks like a size, if and only if the tag has no outer blanks and no size follows the VM size |
| QemuListing.RowListedIff | src/libvirt_backend.c:2403-2412 | a row whose other columns hold no B is listed, with its tag, if and only if its size is in B, KiB, MiB or GiB |
| QemuListing.TebibyteIsLost | src/libvirt_backend.c:2403-2412 | a snapshot whose size is printed in TiB is not listed |
| QemuListing.SnapshotNames | src/libvirt_backend.c:2376-2436 | the loop over lines of at most 1023 bytes collects all tags in order |
| QemuListing.ListingReads | src/libvirt_backend.c:2376-2436 | a printed listing with header lines reads back as the tags of its rows, in order |
| Orphans.Host.Scan | src/libvirt_backend.c:2525-2613 | without repetitions exactly the names on some readable disk that libvirt did not list, and nothing unless the machine is shut off |
| Orphans.Host.Cleanup | src/libvirt_backend.c:2615-2691 | the images afterwards, the attempts made and the count of successes; -1 and nothing touched unless the machine is shut off |
| OrphanLaws.CleanupConserves | src/libvirt_backend.c:2631-2691 | every copy that is gone from an image was removed by a deletion that succeeded |
| OrphanLaws.CleanupKeepsKnown | src/libvirt_backend.c:2655-2661 | a snapshot that libvirt listed is kept on every disk |
| OrphanLaws.LeftoversFailed | src/libvirt_backend.c:2661-2676 | the copies of an orphan left on a disk are exactly those whose deletion failed |
| OrphanLaws.LeftoversIff | src/libvirt_backend.c:2631-2691 | a scan after the cleanup finds a name if and only if one of its deletions failed |
| OrphanLaws.NoneLeft | src/libvirt_backend.c:2631-2691 | without failures no orphan is left, also when a disk is listed twice |
| OrphanLaws.CountIsRemoved | src/libvirt_backend.c:2645-2691 | the reported count is the number of snapshots gone over all disks |
| OrphanLaws.MetadataKeptIff | src/libvirt_backend.c:2636-2643 | when all deletions succeed, libvirt's own snapshots survive if and only if libvirt answered or has none on the disks |
| OrphanLaws.UnansweredLosesMetadata | src/libvirt_backend.c:2636-2643 | one disk, one snapshot of libvirt's, and no answer: the cleanup deletes it |
| OrphanLaws.CleanThenScan | src/libvirt_backend.c:2525-2691 | cleaning without failures and scanning again finds nothing |
| Splitting.SplitJoin | src/util.c:127-160 | splitting what was joined returns the parts |
| Splitting.JoinSplit | src/util.c:127-160 | joining what was split returns the text, and no part holds the separator |
| Routes.PathSegment | src/util.c:127-160 | the loop returns the part with that index of the split at slashes after one leading slash, empty parts being absent |
| Routes.RouteDispatch | src/routes.c:1386-1569 | extracts five segments and decides on them |
| RoutePrint.DispatchedIsAddressable | src/routes.c:1386-1569 | no request reaches a handler with an empty name, a name with a slash, or a snapshot called form |
| RoutePrint.DispatchPrintIff | src/routes.c:1386-1569 | for every route and all names, dispatching its method and printed URL selects that route with those names if and only if the names are plain and the snapshot is not called form |
| RoutePrint.ReachableIff | src/routes.c:1386-1569 | some request selects a route if and only if its printed URL does |
| RoutePrint.DispatchedVerb | src/routes.c:1386-1569 | a request reaches a handler only by that handler's own method |
| RoutePrint.DispatchedParts | src/routes.c:1386-1569 | and only by a URL whose segments begin with those of the handler's own URL |
| RoutePrint.NotFoundIff | src/routes.c:1386-1569 | exactly which methods and segments are answered with 404 |
| RoutePrint.NotAllowedIff | src/routes.c:1386-1569 | exactly which are answered with 405 |
| RoutePrint.FirstSegmentIgnored | src/routes.c:1386-1391 | what stands in the place of /api makes no difference |

## Left out

- libmicrohttpd, jansson, systemd, sockets, logging, time: only their outcomes appear, as parameters.
- HTML fragments, JSON printing and `html_escape`, `json_escape`, `str_dup`, `guess_mime`: routine printers.
- Guest-agent scripts, automount set-up and guest detection: scripts and I/O with little logic of their own.
- `src/utm_backend.c`: a wrapper around another command; its snapshot operations are stubs.
- `snapshot_tree_free` and `snapshot_tree_to_json`: memory is not freed in the model; the walk is the one of the count.
- Phase 1 of `lv_list_snapshots`, but for the parent's name and the type, and the extraction of the disk paths from the domain XML: the nodes and the list of disks are inputs.
- `path_segment` for a null URL or a negative index: the dispatcher passes neither.
- `form_value` with an empty key, or one with an ampersand: the program asks for fixed words only; with an empty key the loop would not advance.
- A VM that libvirt does not know: the scan, the cleanup and the XML edits return an error before they look at anything.
- Paths longer than the buffers of the configuration directory and of the orphan commands.
- Deleting external snapshots and merging: calls into libvirt without logic of their own.
- DirtyProtocol.CleanIsSound: holds for runs in which a machine is looked at before it stops running, and the process does not end between a failed save and the next good one; DirtyProtocol.StopIsSafeIff and DirtyProtocol.RestartIsSafeIff say when a stop and a restart are safe without that.
- Handlers.Server.Look: before there is a snapshot, the tree handler answers without looking at the machine.
- DescriptionEdit.InsertThenReadIff: the text has neither tag before, and what follows the name does not begin with an end of the close tag, which libvirt's XML never does.
- SharedFolders.ListPrinted: sources and tags have no quote, no `<` and none of the words the reader tests for, the element fits its buffer, and the text between the elements has no `<filesystem`.
- SharedFolders.SearchPrinted: the tags asked for have no single quote; for the others SharedFolders.SearchMatches gives the first element that matches.
- NvramEarlier.ReadsBackIff: the path is absolute and has no angle bracket, as libvirt requires of it.
- RestartNeedle.LiveFindsIff: the text between the elements does not hold the searched needle itself, and the tag has no quote and no `<`, as no listed tag has.
- NvramForms.BareConvertIs: the path holds no `<` and occurs nowhere earlier in the text, and no NVRAM tag with attributes follows.
- NvramForms.DoubleConvertIs: the same of the path, and no format in single quotes stands behind the tag; one there would be taken instead.
- QemuListing.RowListedIff: tag and other columns have no B; QemuListing.RowReadsIff covers all tags for the known units.
- SnapshotType.ListedExternalIff: for the XML as it is printed; what libvirt adds to it is not part of this model.
- Snapshots.Phase2Builds: nothing is stated for the heap when the parent names form a cycle, beyond what Assembly.AssembledIff says about the nodes that are then not reached.
