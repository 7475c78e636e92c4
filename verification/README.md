# Verified model of the VISS server core

Dafny models of the hard parts of VISSR, an implementation of the COVESA Vehicle Information Service
Specification (VISS), and proofs about them. Each part has a pure specification, methods that do what
the Go code does in its own form (loops, objects with fields, arrays, a byte stream) and are proved
equal to it, and theorems about the specification. Beside the specifications, which
follow the program's steps, stand descriptions of what they compute that do not: by bytes and literals
(`TreeGrammar`, `ProtoTexts`, `MetadataTexts`), by names in a tree (`SearchNames`, `StructNames`), by the
request and the outside answers (`RequestOutcomes`, `MultiOutcomes`).

| part | files |
|---|---|
| Signal trees and their binary file format | `ByteStrings`, `VssTree`, `TreeFormat`, `TreeTheorems`, `TreeGrammar`, `TreeFile` |
| Wildcard search in a tree, with speculative matches and their withdrawal | `PathSegments`, `TreeSearch`, `SearchInvariants`, `SearchCompleteness`, `SearchRetraction`, `SearchMeaning`, `SearchNames`, `SearchSpoilers`, `SearchContext` |
| Access requirements and the request dispatcher | `AccessRights`, `Forest`, `StructCheck`, `StructNames`, `Dispatcher`, `DispatcherTheorems`, `PathLists`, `RequestOutcomes`, `MultiOutcomes`, `DispatcherCore` |
| Replay protection of the access grant token server | `ReplayCache`, `AgtProtocol` |
| JSON: a reference reader, escaping, subtree metadata | `JsonText`, `JsonEscape`, `JsonTree`, `MetadataTexts`, `SignalDiscovery` |
| Protobuf to JSON and back | `ProtoMessages`, `ProtoTexts`, `ProtoBridge` |
| Conversion tool and feeder: name mapping, scaling, and both together | `FeederMap`, `Scaling`, `DomainConversion` |
| The file transfer client's download loop | `Download` |

Main results, in the order of the parts:

- A file is read as a tree exactly if it is the bytes of that tree by the grammar of the format, within the
  limits, and access rights are decided by the words in their text (`FileIff`, `TextDecidesLevel`). Writing
  and reading a tree is the identity exactly on the well-formed trees (`RoundTrip`); every tree the reader
  accepts settles after one pass (`SecondGeneration`); encodings are prefix free and no truncated file is
  accepted.
- A search for a path without a wildcard returns exactly the nodes whose names are the parts of the path,
  and with one at the end those whose names are the parts before it, free below (`StarlessSearch`,
  `LastStarSearch`), in the order of the tree (`ExpectedInOrder`). With wildcards elsewhere the withdrawal
  of failed matches can remove good ones (`MidStarLosesMatch`); for every pattern the result is complete if
  and only if the tree holds no spoiler: a visited node whose subtree nowhere reaches the end of the
  pattern, with a reported node at the same wildcard level in its subtree or before it
  (`CompleteUnlessSpoiled`). For every pattern the search stops with an index error if and only if it visits
  a node below more than 20 wildcards (`OverrunIff`). Both hold below the cap of 1499 matches.
- When an external request is forwarded, the list of paths put to the token server names the nodes the
  request matches, exactly these paths are forwarded, the level put to it covers every matched node, and a
  restricted node is reached only if the token was accepted for that list at that level (`ForwardedAsked`,
  `ProtectedNeedsToken`).
- For every request about a tree, with or without filters, and every multi-signal request: exactly when it
  is forwarded, what is forwarded, and what the reply is otherwise (`RequestIff`, `RequestForwarded`,
  `RequestRefused`, `RequestStopped`, `MultiIff`, `MultiForwarded`, `MultiRefused`; `GetIff` and `SetIff`
  for requests without filter). The same for discovery, metadata and control messages.
- A request yields exactly one message or stops the server, whatever the trees
  (`DispatcherCore.Core.ServeRequest`). It stops the server if and only if one of its searches overruns, or
  it is a get of "HIM" with a filter, and the first filter that names paths or asks for metadata, if there
  is one, names paths that can be read (`CrashIffAny`, `CrashIff`).
- The metadata printed for a path is that of a node with this path, and without scope restrictions every
  such node is found (`SignalDiscovery.SynthesizeJsonTree`).
- In every run each grant token was issued for a genuine proof of possession presented in that run and
  within its time (`EveryTokenProved`). No proof buys two grant tokens (`AtMostOneToken`), given prompt
  validation and no eviction. Both conditions are exact: 3000 ms is safe and 3001 ms is not
  (`DelayBoundTight`), 10001 recorded identifiers are safe and 10002 are not (`ShortRunSafe`,
  `EvictionReopens`).
- The JSON text of every Protobuf message is given character by character (`PrintedText`), as is that of a
  subtree's metadata (`SubTreeText`). For messages without JSON metacharacters in the fields that are
  printed unescaped, Protobuf to JSON and back is the identity exactly on messages in normal form, and the
  normal form is reached in one pass (`IdentityIff`, `SecondPass`).
- Over both of the tool's files, the feeder converts every mapped name to exactly its partner and its value
  by the entry the tool chose (`ConvertDomainData`, `EnumOverFile`, `LinearOverFile`). The scaling list
  survives its file if and only if it is not empty and every entry is plain ASCII text (`FileReadIff`).
- However the server answers, the download loop's chunks are the file or a prefix of it, and the receiver
  has the file if and only if all of it was sent and every chunk was accepted (`DownloadFile`,
  `SessionIff`).

Where code and intention differ, the model follows the code:

- `ValidateToString` overwrites the access level with "+consent", so levels 11 and 12 are stored as 10;
  level 10 counts as no requirement when levels are combined.
- A node's number of allowed values is kept modulo 256.
- The delimiter scan of `getPathSegment` tests for -1 after adding 1, so that branch is never taken; the
  last segment repeats for deeper levels.
- The array of speculation counters has 20 slots and overruns below the twentieth wildcard: a get of "A.*"
  stops the server on a chain of 22 nodes (`DeepTreeCrashes`).
- A get of "HIM" with a "paths" filter before its "metadata" filter dereferences a missing tree and stops
  the server (`PathsBeforeMetadataCrashes`), as does one with neither; one whose list of paths cannot be
  read is answered with an error (`UnreadablePathsAnswered`).
- For a multi-signal request the token server is asked about the first match of each element only, at a
  level that covers all matches.
- The scope restrictions of a metadata request apply on the way down to the subtree, not inside it; depth 0,
  documented as unlimited, means 100 levels.
- A request for a file descriptor node is answered before its access requirement is looked at.
- A refused download chunk is not sent again; the file position has moved on.
- An empty scaling list is written as a list that ends in a comma, which the feeder cannot read. The tool
  converts each byte of an entry to a character of its own, so text that is not ASCII reaches the feeder
  changed (`UmlautBroken`).
- The tree file, the signal map and the scaling list are opened without truncation, so a longer older file
  shows behind the new contents. It does no harm to trees; in the signal map, whatever can be read of it
  becomes further entries; in the scaling list, anything but white space makes the file unreadable.
- Asking for a unit pair in reverse order inverts the shared coefficients in place, so later requests for
  the same pair alternate in direction.

Conventions: bytes are integers from 0 to 255, Go strings are byte sequences, and text that is escaped or
parsed as JSON is a sequence of code points. What the token server, the filter parser, the metadata
sources and the clock answer is an argument (`Env`) or a step of a run, so theorems hold for every answer.

## Model

| member | source | states |
|---|---|---|
| TreeFormat.ValidateRoundTrip | utils/treeutils.go:130-155 | Every access level comes back from its text as itself, except that levels with consent come back as consent only; TreeGrammar.TextDecidesLevel and TreeGrammar.LevelText say which texts these are. |
| TreeGrammar.TextDecidesLevel | utils/treeutils.go:130-141 | The level read from any text is 1 exactly if it contains the word write-only, 2 exactly if it contains read-write and not write-only, and 10 more exactly if it contains consent. |
| TreeGrammar.LevelText | utils/treeutils.go:143-155 | The text written for a level is one of these words by its last digit, or +consent for every level from 10 to 19. |
| TreeFormat.AllowedRoundTrip | utils/treeutils.go:357-473 | A list of allowed values shorter than 256 bytes each is parsed back from its hex-prefixed text, whatever bytes the values hold. |
| TreeFormat.AllowedLengthBound | utils/treeutils.go:911-917 | The text of n allowed values has at most 257 n bytes, so 255 of them fit the 16-bit length. |
| TreeFormat.ParseFields | utils/treeutils.go:758-848 | A node read from any bytes took at least 14 of them. |
| TreeFormat.FieldsRoundTrip | utils/treeutils.go:758-909 | A node whose fields fit their length prefixes is parsed back, with its child count and exactly the bytes that followed. |
| TreeGrammar.AllowedGrammar | utils/treeutils.go:357-473 | A text is read as a list of values exactly if it is these values in order, each behind its length in two hexadecimal digits. |
| TreeGrammar.NodeIff | utils/treeutils.go:758-848 | A node is read exactly from the bytes of eleven texts in their order, each behind its length in one byte or in two with the lower first, and a child count; level, datatype and values are decided by the texts. |
| TreeTheorems.ReadTreeAccounts | utils/treeutils.go:319-335 | On every byte string: the depth counter is restored even on failure; on success node count and maximal depth are the tree's size and height, within the limits, and at least 14 bytes per node were consumed. |
| TreeTheorems.ReadTreeReadable | utils/treeutils.go:481-507 | Every accepted tree has fields the writer can write. |
| TreeTheorems.WriteThenRead | utils/treeutils.go:481-515 | Any tree whose fields fit, at any starting depth and count within limits, is read back as what the format keeps of it, consuming exactly the written bytes. |
| TreeGrammar.TreeWritten | utils/treeutils.go:509-515 | A tree whose fields fit is written as the bytes of its texts, a node before its children, with the words for its access level. |
| TreeGrammar.FileIff | utils/treeutils.go:481-507 | A file is read as a tree, with given bytes left over, exactly if it is the bytes of a tree text that makes this tree, then these bytes, and the tree has at most 64 levels and 200000 nodes. |
| TreeTheorems.StoredReadable | utils/treeutils.go:130-155 | For an accepted tree, one pass replaces levels with consent by consent only and changes nothing else; a second pass changes nothing; nothing changes exactly if no node has such a level. |
| TreeTheorems.RoundTrip | utils/treeutils.go:481-515 | Writing then reading gives the tree back if and only if it is well formed, for every following byte sequence, with the counters set to its size and height. |
| TreeTheorems.SecondGeneration | utils/treeutils.go:758-909 | A tree read from any file, written and read again, is the same up to levels with consent, is then well formed, and is stable. |
| TreeTheorems.ReadTreeAppend | utils/treeutils.go:711-723 | Bytes after an accepted tree are left unread and change nothing. |
| TreeTheorems.TruncationRejected | utils/treeutils.go:711-848 | No strict prefix of a well-formed tree's file is accepted. |
| TreeTheorems.PrefixFree | utils/treeutils.go:851-909 | No well-formed tree's encoding is a prefix of another's: equal up to trailing bytes means equal trees and no trailing bytes. |
| TreeFile.TreeWriter.WriteNode | utils/treeutils.go:851-909 | Field by field output through the length prefixes appends exactly the node's encoding. |
| TreeFile.TreeWriter.WriteAllowedElements | utils/treeutils.go:919-923 | The loop over allowed values appends their hex-prefixed text. |
| TreeFile.TreeWriter.TraverseAndWriteNode | utils/treeutils.go:509-515 | The recursive loop over children appends exactly the tree's encoding. |
| TreeFile.AllowedStrLen | utils/treeutils.go:911-917 | The computed length equals the length of the text that is written after it. |
| TreeFile.CountAllowedElements | utils/treeutils.go:357-376 | The index scan counts as many elements as a full parse, and fails exactly when the parse fails. |
| TreeFile.NthOfParsed | utils/treeutils.go:449-473 | Skipping k elements and reading one gives the k-th element of a full parse. |
| TreeFile.ExtractAllowedElement | utils/treeutils.go:449-473 | The loop that skips elements by index computes that element, or fails on a malformed text. |
| TreeFile.ReadAllowedDef | utils/treeutils.go:758-848 | Counting first and extracting one by one gives the parsed list, cut to its length modulo 256, or fails with it. |
| TreeFile.TreeReader.ReadBytes | utils/treeutils.go:711-723 | Either exactly n bytes are taken from the front, or the read fails. |
| TreeFile.TreeReader.PopulateNode | utils/treeutils.go:758-848 | Reading the stream piece by piece yields the parsed node and leaves the parser's rest. |
| TreeFile.TreeReader.TraverseAndReadNode | utils/treeutils.go:481-507 | The recursive reader accepts, rejects, counts and leaves bytes exactly as the specification does. |
| TreeFile.VssReadTree | utils/treeutils.go:1113-1131 | Any file yields exactly the tree whose bytes it begins with by the grammar, if that is within 64 levels and 200000 nodes, and otherwise none. |
| TreeFile.VssWriteTree | utils/treeutils.go:1135-1146 | Written over any older file, longer or shorter, the tree is read back from the file if and only if it is well formed. |
| ByteStrings.Overwritten | utils/treeutils.go:1135-1146 | A file written without truncation is the new bytes and, beyond their end, the old ones in their places. |
| PathSegments.NthOfSplit | utils/treeutils.go:655-675 | The k-th segment found by scanning delimiters is the k-th part of the path split at dots, the last part for larger k. |
| PathSegments.SplitCount | utils/treeutils.go:969-972 | The number of segments is one more than the number of dots. |
| PathSegments.SplitJoin | utils/treeutils.go:655-675 | Splitting two paths joined by a dot gives the parts of both, whatever they are. |
| PathSegments.GetPathSegment | utils/treeutils.go:655-675 | The moving pair of delimiter indices yields that segment for every path and depth, without an index error. |
| AccessRights.SearchMaxIsJoin | utils/treeutils.go:157-159 | The search's matrix lookup is the least upper bound of two access levels. |
| AccessRights.BelowOrder | utils/common.go:71-104 | Coverage of one level by another is a partial order. |
| AccessRights.JoinAllLeast | utils/common.go:71-104 | Combining a list of levels one by one gives their least upper bound. |
| AccessRights.JoinAllOrderIndependent | utils/common.go:71-104 | The combination depends on which levels occur, not on their order or number. |
| SearchInvariants.PathRestored | utils/treeutils.go:639-653 | Pushing and popping names leaves the match path as it was before the subtree, if names hold no dot. |
| SearchInvariants.CountsKept | utils/treeutils.go:545-601 | Through every subtree: no slot is negative, the slots sum to at most the number of matches, and there are at most 1499 matches. |
| SearchInvariants.NoFault | utils/treeutils.go:685-698 | No slot index leaves the array if the levels below the start hold at most 20 wildcard segments; the index never ends above where it began. |
| SearchInvariants.MatchesAreVisits | utils/treeutils.go:517-543 | After any subtree, for any pattern and even at the cap, the match list is a subsequence of the earlier list followed by the nodes to report, in preorder with their true paths. |
| SearchInvariants.RightsKept | utils/treeutils.go:545-601 | The combined access level always covers every match in the list. |
| SearchInvariants.SearchSound | utils/treeutils.go:517-601 | For every pattern: the result is a subsequence of the expected list within the cap, its level covers every match, and depth and path end where they began. |
| SearchCompleteness.StarFreeExact | utils/treeutils.go:517-543 | Without a wildcard every subtree adds exactly its nodes to report, cut at the cap. |
| SearchCompleteness.LastStarExact | utils/treeutils.go:517-601 | With a wildcard at the end nothing is withdrawn: every subtree adds exactly its nodes to report. |
| SearchCompleteness.RequirementExact | utils/treeutils.go:553 | The level of a subtree is the combination over all visited nodes, reported or not. |
| SearchCompleteness.SearchExact | utils/treeutils.go:517-601 | For patterns without wildcard the result is the expected list cut at 1499; with one at the end, below the cap, exactly the expected list; the level is the combination over all visited nodes. |
| SearchCompleteness.FaultExact | utils/treeutils.go:685-698 | For every pattern, below the cap: through any subtree the slot index is restored, and the array overruns exactly if a visited node lies below more wildcards than there are slots. |
| SearchCompleteness.WildcardDepthLimit | utils/treeutils.go:685-698 | A search for everything below the root overruns the slot array if and only if the tree has more than 21 levels. |
| SearchRetraction.RetractionExact | utils/treeutils.go:685-698 | For every pattern: a subtree that does not overrun adds exactly its nodes to report, and to the slots exactly their tally, if it settles cleanly; otherwise matches are lost. |
| SearchRetraction.CompleteIff | utils/treeutils.go:517-601 | For every pattern, a search that does not overrun returns the whole expected list if and only if no visited subtree scores zero while its slot is positive. |
| SearchNames.ExpectedIffWanted | utils/treeutils.go:517-637 | For every pattern, a match is expected if and only if it is the node at an address, under its dotted path, of a type to report, with every name below the root equal to the path's part for its level or that part a star, and with no node above it at the depth limit or out of scope. |
| SearchNames.ExpectedInOrder | utils/treeutils.go:517-543 | The expected list is these nodes in the order of the tree, parents first and children by number, each place once. |
| SearchNames.StarlessSearch | utils/treeutils.go:517-637 | For a path without star the search returns, below the cap, exactly the nodes whose names below the root are the path's parts, the last part repeating. |
| SearchNames.LastStarSearch | utils/treeutils.go:517-637 | For a path with a star at the end only it returns exactly the nodes whose names are the parts before the star as far as they go, whatever stands below. |
| SearchMeaning.OverrunIff | utils/treeutils.go:545-698 | For every pattern with fewer than 1499 nodes to report, the search stops with an index error if and only if the tree holds an address that is visited and lies below more than 20 wildcard segments. |
| SearchMeaning.ChainOverruns | utils/treeutils.go:685-698 | On a chain of n nodes, 1 to 100, the search for everything below the root overruns if and only if n is at least 22. |
| SearchMeaning.MidStarLosesMatch | utils/treeutils.go:685-698 | On a five-node tree the pattern A.*.C has one node to report and the search returns none. |
| SearchSpoilers.CompleteUnlessSpoiled | utils/treeutils.go:517-698 | For every pattern, a search that does not overrun returns the whole expected list if and only if no address of the tree is a spoiler: a visited node below which no node ends the pattern, while a node is reported at the same wildcard level in its subtree or before it. |
| SearchContext.Context.constructor | utils/treeutils.go:974-1007 | A fresh context is the empty search state. |
| SearchContext.Context.SaveMatchingNode | utils/treeutils.go:545-601 | Updating the match buffer, the slot array and the level in place has the effect, the stop signal and the score the specification gives, or stops where the array or the buffer is left. |
| SearchContext.Context.DecDepth | utils/treeutils.go:685-698 | Leaving a node withdraws a match, steps the index and restores depth and path as specified. |
| SearchContext.Context.TraverseNode | utils/treeutils.go:517-543 | The recursive traversal over mutable state computes the specification's state and score, or stops with an index error. |
| SearchContext.VssSearchNodes | utils/treeutils.go:1042-1054 | For any tree and any buffer: the search stops with an index error exactly if a slot is missed (given a buffer of 1499), and otherwise its level covers every match; with dot-free names its matches are expected ones in order, complete exactly when clean, exact for no or a final wildcard. Which nodes are expected is said by SearchNames.ExpectedIffWanted. |
| ReplayCache.InsertConsistent | server/agt_server/agt_server.go:339-358 | Recording an identifier, with eviction of the oldest at the cap, keeps map and queue equal, without duplicates and within 10000. |
| ReplayCache.RemoveConsistent | server/agt_server/agt_server.go:369-381 | Deleting an identifier keeps the same and leaves it in neither. |
| ReplayCache.JtiCache.AddCheckJti | server/agt_server/agt_server.go:339-358 | Accepts exactly the identifiers not present, leaves the cache unchanged otherwise, and the identifier is present afterwards. |
| ReplayCache.JtiCache.DeleteJtiNow | server/agt_server/agt_server.go:369-381 | The scan removes the identifier from map and queue and nothing else. |
| AgtProtocol.RunBooked | server/agt_server/agt_server.go:339-381 | In every interleaving of requests, validations, clock and timers, map and queue agree within the cap, and the queue lists accepted identifiers in order of acceptance. |
| AgtProtocol.LeavesOnlyBy | server/agt_server/agt_server.go:339-381 | An identifier leaves the cache only when a timer started for it fires or after at least 10000 later ones were accepted. |
| AgtProtocol.TooLate | utils/datatypes.go:592-609 | After the residency time the validity window of a token validated within 3000 ms of its recording is over. |
| AgtProtocol.IssuedIff | server/agt_server/agt_server.go:404-427 | In every state a proof is taken up exactly if its signature is good and its identifier is not on record; a token is then issued exactly if the claims are good and the clock is strictly between 3 seconds before and 303 seconds after the time of issue. |
| AgtProtocol.EveryTokenProved | server/agt_server/agt_server.go:404-427 | In every interleaving, each token was issued for a proof that was presented in the run, has its identifier and time, and entitled to it at that moment. |
| AgtProtocol.AtMostOneToken | server/agt_server/agt_server.go:404-427 | In every run that validates an identifier within 3000 ms and does not evict it, no two tokens are issued for the same identifier and issue time. |
| AgtProtocol.ShortRunSafe | server/agt_server/agt_server.go:339-381 | Every run with prompt validation that records at most 10001 identifiers issues no two tokens for one proof. |
| AgtProtocol.EvictionReopens | server/agt_server/agt_server.go:339-358 | A run with immediate validation that records 10002 identifiers and issues two tokens for one proof. |
| AgtProtocol.DelayBoundTight | server/agt_server/agt_server.go:33-48 | A run with a validation delay of 3001 ms and no eviction that issues two tokens for one proof. |
| Forest.RootOf | utils/treeutils.go:219-228 | The tree found has the path's first segment as its root name; none is found only if no tree has. |
| Forest.RootIsFirst | utils/treeutils.go:219-228 | The name looked for is the first part of the path, and the tree found is the first of this name. |
| Forest.SetRootNodePointer | utils/treeutils.go:219-228 | The loop over the forest finds that tree. |
| Forest.SearchTreeCovers | server/vissv2server/vissv2server.go:161-170 | The level reported with a search covers every returned node. |
| Forest.RunSearchTree | server/vissv2server/vissv2server.go:161-170 | The server's search, empty path included, stops with an index error exactly if the specified search overruns, and otherwise gives its matches and level. |
| StructCheck.VerifyIff | server/vissv2server/vissv2server.go:975-1006 | Whatever the member order and the case folding: a struct value is accepted if and only if it conforms to its type at every level and is nested at most as deep as the remaining limit. |
| StructNames.FoundName | utils/treeutils.go:611-617 | In a type tree of dot-free names the last segment of every path found is the name of the node found. |
| StructNames.KnownByName | server/vissv2server/vissv2server.go:1026-1033 | A member name is known if and only if some leaf found has this name up to lower case. |
| StructNames.ChosenByName | server/vissv2server/vissv2server.go:1012-1024 | The leaf chosen for a member is the first whose name folds to the member's, or the first of all if there is none. |
| StructNames.VerifyByName | server/vissv2server/vissv2server.go:975-1010 | Over dot-free type trees a struct value is accepted if and only if, at most six objects deep, every member has the name of a leaf of its type, objects fit the chosen leaf's type in turn, and other values stand where the type's text does not begin with Types or ends in brackets. |
| StructCheck.StructValueIff | server/vissv2server/vissv2server.go:961-973 | A set value passes if and only if its node's type is no struct type, or it is an object that conforms to that type within the nesting limit. |
| StructCheck.NeverBroken | server/vissv2server/vissv2server.go:975-988 | With dot-free trees of at most 21 levels, the check of any value comes to a verdict instead of an index error. |
| StructCheck.TypeNodesExact | server/vissv2server/vissv2server.go:975-988 | The nodes a value is checked against are leaves below its type path, in order; all of them if the path has no wildcard and there are fewer than 1499. |
| StructCheck.VerifyStructMembers | server/vissv2server/vissv2server.go:990-1006 | The loop over a map, in any order, decides what the specification decides. |
| StructCheck.RunVerifyStruct | server/vissv2server/vissv2server.go:975-988 | The recursive check terminates on every value and forest with the specified verdict or index error. |
| Dispatcher.TrimTrailing | server/vissv2server/vissv2server.go:673-715 | Cutting the last separator off the accumulated text leaves the quoted paths separated by commas. |
| Dispatcher.AggregateIsJoin | utils/common.go:75-112 | The server's combination over a non-empty list of levels, started at -1, is their least upper bound. |
| DispatcherTheorems.GateDecides | server/vissv2server/vissv2server.go:547-560 | The branch for a level outside the table is never taken after a search. |
| DispatcherTheorems.GateIff | server/vissv2server/vissv2server.go:547-560 | An external request passes the gate if and only if the level asks for no token, or one is given and, where reads are restricted or a write is, accepted for exactly these paths and this level. |
| DispatcherTheorems.MultiAsked | server/vissv2server/vissv2server.go:638-794 | A forwarded multi-signal request passed the gate with the bracketed list of each element's first match, in order, and a level that covers every match of every element; that list, or updates with these paths, is what is forwarded. |
| DispatcherTheorems.ConcludeAsked | server/vissv2server/vissv2server.go:876-955 | A forwarded request with one path or expanded path filters passed the gate with the paths of all matches of all searched paths, no other, and a level that covers each; these paths are forwarded. |
| DispatcherTheorems.ForwardedAsked | server/vissv2server/vissv2server.go:562-955 | Every forwarded external request has one list and one level: the list names the matches, exactly its paths are forwarded, the level covers every matched node, and where that level needs a token it was accepted for just that list and level. |
| DispatcherTheorems.ProtectedNeedsToken | server/vissv2server/vissv2server.go:562-955 | Whatever the forest, the request and the token server: an external request that is forwarded and matches a restricted node had its token accepted for a list naming its matches, which is what is forwarded, at a level covering that node. |
| PathLists.AskedReads | server/vissv2server/vissv2server.go:876-943 | For paths without JSON metacharacters, the text the token server is asked about is the JSON list of exactly these paths in order, or the JSON string of the only path. |
| RequestOutcomes.RequestIff | server/vissv2server/vissv2server.go:796-955 | Every request about a tree that leads to a search, whatever its action and filters: it is forwarded if and only if each path named by the first filter that decides, or its own path, is found and takes the value of a set, the last node found is no file and for a set of type actuator, the filters are in order, and no token is needed or the one given suffices for all matches at their combined level. |
| RequestOutcomes.NoSearchNoService | server/vissv2server/vissv2server.go:816-870 | A request about a tree whose filters lead to no search is not forwarded. |
| RequestOutcomes.SetIff | server/vissv2server/vissv2server.go:796-1045 | A set without filter is forwarded if and only if its search does not overrun and finds something, the first node is no file, of type actuator, takes the value, and the token suffices. |
| RequestOutcomes.ReadOnlyRefused | server/vissv2server/vissv2server.go:1035-1038 | A set of a node that is no actuator, with all else in order, is answered with the read-only error. |
| RequestOutcomes.RequestRefused | server/vissv2server/vissv2server.go:883-905 | The first path that is not found or does not take the value decides the reply: an index error, error 6, or error 1 with the message for its kind of misfit. |
| RequestOutcomes.RequestStopped | server/vissv2server/vissv2server.go:906-943 | When all paths are found and take the value: the file transfer's answer for the first path, the read-only error, the filter's error, the token error with its code, or forwarding, in this order. |
| RequestOutcomes.RequestForwarded | server/vissv2server/vissv2server.go:944-955 | What is forwarded has the one match or the list of matches as its path, the tree's information type, the handle and the gating identifier the token server returned, and is otherwise unchanged. |
| RequestOutcomes.SamePath | utils/common.go:241-244 | Segments joined by slashes, with or without one in front, and joined by dots are the same path. |
| RequestOutcomes.SameOutcome | server/vissv2server/vissv2server.go:562-566 | Requests that write their path in these ways have the same outcome. |
| RequestOutcomes.CutAtZero | server/vissv2server/vissv2server.go:172-179 | A listed path is the match's path up to its first zero byte. |
| DispatcherTheorems.GetIff | server/vissv2server/vissv2server.go:547-955 | In any tree, an external get without filter is forwarded if and only if its search does not overrun, finds something other than a file descriptor, and the level asks for no token, or one is given and, if reads are restricted, accepted for the matches at that level. |
| DispatcherTheorems.GetExpectedIff | server/vissv2server/vissv2server.go:547-955 | For a path without wildcard or with one at the end the same holds with the expected leaves and the combination of the levels of every node on the way. |
| DispatcherTheorems.ItemIff | server/vissv2server/vissv2server.go:673-794 | An element of a multi-signal request passes if and only if its path reaches a node of its own tree and, in a set, that node is an actuator and the value conforms to its type. |
| MultiOutcomes.MultiIff | server/vissv2server/vissv2server.go:602-794 | A multi-signal request is forwarded if and only if it has elements, every element names a node and, in a set, carries a value that fits it, an actuator, and the token suffices for the list of first matches at the combined level. |
| MultiOutcomes.MultiForwarded | server/vissv2server/vissv2server.go:602-794 | A forwarded multi-get has that list as its path and no elements; a multi-set has for each element its node's path and its own value; the token server's handle and gating identifier are carried and nothing else is changed. |
| MultiOutcomes.ShapeRefused | server/vissv2server/vissv2server.go:673-750 | The errors for elements of the wrong shape. |
| MultiOutcomes.TargetRefused | server/vissv2server/vissv2server.go:728-780 | The errors for elements that name nothing, no actuator, or carry a value that does not fit. |
| MultiOutcomes.MultiRefused | server/vissv2server/vissv2server.go:602-794 | The first element that does not pass decides the reply; with none, the token error and its code; an empty list is an error of its own. |
| DispatcherTheorems.MultiSetAllOrNothing | server/vissv2server/vissv2server.go:728-794 | A multi-set is forwarded only with every element resolved, in order and with its own value; otherwise the failing element with the least index decides between its error and a stop. |
| DispatcherTheorems.CrashIff | server/vissv2server/vissv2server.go:562-955 | With dot-free trees of at most 21 levels, the server stops if and only if the request is a get of HIM with a filter, and the first filter that names paths or asks for metadata, if there is one, names paths that can be read. |
| DispatcherTheorems.CrashIffAny | server/vissv2server/vissv2server.go:425-955 | For any trees, the server stops if and only if that holds or a search made for the request, for its elements, its paths or its metadata, overruns with nothing wrong before it. |
| DispatcherTheorems.PathsBeforeMetadataCrashes | server/vissv2server/vissv2server.go:796-870 | A get of HIM with the filters paths and metadata, in this order, stops the server. |
| DispatcherTheorems.UnreadablePathsAnswered | server/vissv2server/vissv2server.go:796-870 | A get of HIM whose paths filter holds a list that cannot be read is answered with an error. |
| DispatcherTheorems.DeepTreeCrashes | server/vissv2server/vissv2server.go:876-943 | A get of everything below the root of a chain of n nodes stops the server if and only if n is at least 22. |
| MultiOutcomes.DiscoveryOutcome | server/vissv2server/vissv2server.go:436-483 | A discovery is answered with the metadata read, in place of path and depth; otherwise the error by what is missing or unreadable, or an index error of the subtree's search. |
| MultiOutcomes.MetadataOutcome | server/vissv2server/vissv2server.go:834-866 | A request whose deciding filter asks for metadata is answered with it, in place of path and filter, or with an error, or its search stops the server. |
| MultiOutcomes.TreesOutcome | server/vissv2server/vissv2server.go:834-866 | The same for the set of trees. |
| MultiOutcomes.HandedOn | server/vissv2server/vissv2server.go:796-800 | Unsubscriptions and internal control messages are handed on unchanged but for the form of the path. |
| DispatcherCore.RunResolveSignalPath | server/vissv2server/vissv2server.go:617-628 | The path is resolved in its own tree to the first match and its level, or not at all, or its search overruns. |
| DispatcherCore.Core.WalkGets | server/vissv2server/vissv2server.go:673-715 | The loop collects paths and level of all elements, or ends at the first that does not pass, with its error or index error. |
| DispatcherCore.Core.WalkSets | server/vissv2server/vissv2server.go:728-794 | The same for updates, which keep order and values. |
| DispatcherCore.Core.HandleMultiRequest | server/vissv2server/vissv2server.go:602-794 | Exactly one message goes out, the specified one, or the server stops. |
| DispatcherCore.Core.SearchPaths | server/vissv2server/vissv2server.go:876-943 | The loop over paths gives the first failing path's error or index error, or all matches, their text and the combined level. |
| DispatcherCore.Core.IssueServiceRequest | server/vissv2server/vissv2server.go:796-955 | Exactly one message goes out, the specified one, or the server stops. |
| DispatcherCore.Core.ServeRequest | server/vissv2server/vissv2server.go:562-580 | Every request yields exactly one message in total, on the specified channel, or none if the server stops. |
| JsonEscape.NeedsEscape | utils/grcputils.go:1396-1404 | The byte scan finds a character to escape if and only if there is one. |
| JsonEscape.SpecialBytes | utils/grcputils.go:1363-1404 | Scanning UTF-8 bytes and scanning runes agree on whether there is anything to escape. |
| JsonEscape.Escape | utils/grcputils.go:1363-1404 | The shortcut and the full loop return the same escaped string. |
| JsonEscape.ReadEscaped | utils/grcputils.go:1363-1404 | Unescaping gives the string back for every string of runes, so no unescaped quote is left. |
| JsonEscape.EscapedIsPrintable | utils/grcputils.go:1363-1404 | No control character is left. |
| JsonEscape.EscapeTable | utils/grcputils.go:1363-1394 | Quote, backslash, line feed, carriage return and tab become two characters, other control characters their code in two hexadecimal digits, and everything else stays. |
| JsonTree.FragmentIsField | server/vissv2server/vissv2server.go:260-309 | After comma trimming a node's text is one object member with the children cut at the depth, followed by one comma. |
| JsonTree.JsonifyTreeNode | server/vissv2server/vissv2server.go:260-309 | The buffer built in place is that text. |
| JsonTree.RunSingleToDoubleQuote | server/vissv2server/vissv2server.go:311-318 | Exactly the single quotes are replaced. |
| SignalDiscovery.SynthesizeJsonTree | server/vissv2server/vissv2server.go:375-404 | For any tree, path, depth and scope list: it stops with an index error exactly if the search does; a non-empty answer is the metadata of a node with this path, none of whose ancestors is out of scope, cut at the depth; without restrictions every node with the path is found. |
| JsonTree.PrintSubTree | server/vissv2server/vissv2server.go:383-395 | For metadata without JSON metacharacters the text is JSON that parses to the tree cut at the depth, children in order, nothing left over; it is empty only for a negative depth. |
| MetadataTexts.SubTreeText | server/vissv2server/vissv2server.go:260-318 | For every subtree, metacharacters or not, the text printed is the given one: names, type, default, description, datatype and children in this order, a default that begins like an object or a list unquoted with its single quotes doubled. |
| SignalDiscovery.FoundUnderPath | server/vissv2server/vissv2server.go:375-404 | In a tree of dot-free names, the search for everything below a plain path expects the node with exactly this path. |
| SignalDiscovery.GetSubTreeNodeHandle | server/vissv2server/vissv2server.go:397-404 | The scan returns the first match with the path, and none only if there is none. |
| ProtoMessages.PrintList | utils/grcputils.go:1173-1193 | A comma behind every element, the last one trimmed and brackets for more than one give the element itself or the JSON list. |
| ProtoMessages.CreateDataPoints | utils/grcputils.go:481-533 | Taking elements by index from a list or a single object yields the data points of its objects in order. |
| ProtoMessages.CreateDataPackages | utils/grcputils.go:444-490 | The same for data packages, with their data points. |
| ProtoMessages.CreateRange | utils/grcputils.go:556-643 | The same for range boundaries; a missing parameter yields none. |
| ProtoMessages.CreatePaths | utils/grcputils.go:594-613 | A string or a list yields its strings in order, anything else is skipped. |
| ProtoTexts.PrintedText | utils/grcputils.go:958-1361 | For every message of the nine kinds, whatever it holds, the text printed is the given one, member by member and quote by quote. |
| ProtoTexts.MetadataRead | utils/grcputils.go:395-425 | A get response without data is read with the term of its metadata member. |
| ProtoTexts.SurrogateRead | utils/grcputils.go:395-425 | Half of a surrogate pair is read as the replacement character. |
| ProtoBridge.UnescapedIff | utils/grcputils.go:1291-1296 | A string printed between quotes without escaping is read back if and only if it has no quote, backslash or control character. |
| ProtoBridge.ManyObjects | utils/grcputils.go:1298-1347 | The single-object and the list form are both read as the printed list. |
| ProtoBridge.PackagesBack | utils/grcputils.go:1298-1347 | Data packages come back with path and data points, an empty list of points as one empty point. |
| ProtoBridge.ParameterBack | utils/grcputils.go:538-661 | For every variant Protobuf supports, the filter's parameter comes back as the value that variant asks for. |
| ProtoBridge.FiltersBack | utils/grcputils.go:331-366 | One filter or two come back, three or more are dropped. |
| ProtoBridge.PrintedMembers | utils/grcputils.go:958-1171 | The printed message is a JSON object with exactly the members the message prints. |
| ProtoBridge.MembersBack | utils/pbutils.go:99-126 | Method and kind are recovered from action, path and timestamp, and every field in normal form. |
| ProtoBridge.ThroughJson | utils/pbutils.go:38-97 | Every message without metacharacters in unescaped fields comes back as its normal form. |
| ProtoBridge.IdentityIff | utils/pbutils.go:38-174 | It comes back as itself if and only if it is in normal form: one or two filters of the right kind, non-empty lists, absent rather than empty options, no metadata. |
| ProtoBridge.SecondPass | utils/pbutils.go:38-174 | A second trip changes nothing. |
| FeederMap.CorrespondingIsPartner | tools/DomainConversionTool/DomainConversionTool.go:830-838 | In a table made from a mapping list the corresponding entry is the other half of the same row, and correspondence is its own inverse without fixed points. |
| FeederMap.GetCorrespondingIndex | tools/DomainConversionTool/DomainConversionTool.go:830-838 | The scan finds the first other entry with the same number, or none. |
| FeederMap.ReorderMapIndex | tools/DomainConversionTool/DomainConversionTool.go:816-828 | In place, every row number is replaced by the index of the corresponding entry computed from the old numbers, or nothing is changed. |
| FeederMap.WriteArrayToFile | tools/DomainConversionTool/DomainConversionTool.go:840-864 | Written over any older file, the file is the entries' encoding followed by what an older, longer one held behind it, the form the reading theorems are about. |
| FeederMap.ReadEncoded | feeder/feeder-evic/evicFeeder.go:553-590 | Every list of entries with names of 1 to 255 bytes is read back from its encoding, followed by whatever can be read of the bytes behind it. |
| FeederMap.EntryIff | tools/DomainConversionTool/DomainConversionTool.go:853-864 | An entry is read exactly from its bytes: two-byte numbers with the lower byte first around the name behind its length and the two small numbers; and these are the bytes written. |
| FeederMap.LessIff | feeder/feeder-evic/evicFeeder.go:529-547 | One name is before another exactly if it is smaller at the first difference or ends there. |
| FeederMap.SortedIsSame | feeder/feeder-evic/evicFeeder.go:529-547 | Any ordered rearrangement of a strictly ordered list is that list. |
| FeederMap.ReadFeederMap | feeder/feeder-evic/evicFeeder.go:529-547 | Reading and sorting gives an ordered rearrangement of the file's entries, and the entries themselves if they were in strict order. |
| FeederMap.LookupFeederMap | feeder/feeder-evic/evicFeeder.go:413-422 | The binary search finds an entry with the name if and only if there is one. |
| FeederMap.ConvertName | feeder/feeder-evic/evicFeeder.go:392-422 | A name is followed through its index to another entry's name and its own conversion index; an unknown name or a bad index gives none. |
| FeederMap.FeederSeesMapping | tools/DomainConversionTool/DomainConversionTool.go:784-864 | Through the file the indices form an involution without fixed points, and the two names of every mapping row lead to each other; the table is all that is read if and only if no entry can be read of what an older file left behind. |
| FeederMap.ConvertThroughFile | feeder/feeder-evic/evicFeeder.go:392-590 | From the tool's table over the file to the feeder's answer, a mapped name is led to exactly its partner and its row's conversion, and any other name to none, unless an entry can be read of an older file's rest. |
| Scaling.ScaleData.Intern | tools/DomainConversionTool/DomainConversionTool.go:620-653 | The index returned selects the entry, and earlier entries keep their places. |
| Scaling.ScaleData.CreateConversionIndex | tools/DomainConversionTool/DomainConversionTool.go:588-603 | The conversion index is 1 for booleans, 0 for equal units without values, two more than the place of the enumeration or of the coefficients in the list, and 65535 where there is neither. |
| Scaling.RunInsertEscape | tools/DomainConversionTool/DomainConversionTool.go:456-473 | The loop over bytes puts a backslash before every quote and turns every byte into a character of its own. |
| Scaling.WriteScaleDataList | tools/DomainConversionTool/DomainConversionTool.go:435-454 | Written over any older file, the file is the JSON list text with its first fixed entry, followed by what an older, longer one held behind it. |
| Scaling.FileRead | tools/DomainConversionTool/DomainConversionTool.go:435-473 | For entries without backslash and control characters the feeder reads every entry re-encoded byte by byte if the list is not empty and only white space of an older file is behind it, and nothing otherwise. |
| Scaling.FileReadIff | tools/DomainConversionTool/DomainConversionTool.go:435-473 | For every list: the feeder reads the tool's list if and only if it is not empty and no entry holds a backslash, a control character or a byte that is not ASCII. |
| Scaling.UmlautBroken | tools/DomainConversionTool/DomainConversionTool.go:456-473 | The two bytes of an o with two dots come out as four. |
| Scaling.StoredIndexSelects | feeder/feeder-evic/evicFeeder.go:424-448 | The conversion index stored with a signal selects, in the list the feeder reads, the entry the tool chose, whatever was added later; what is found there is the tool's text if and only if that is ASCII. |
| Scaling.BuildEnumText | tools/DomainConversionTool/DomainConversionTool.go:620-653 | The accumulated text with its last separator cut is the JSON object of the value pairs. |
| Scaling.ReadEnumText | tools/DomainConversionTool/DomainConversionTool.go:620-653 | That text is read back as the pairs in order. |
| Scaling.EnumReadIff | tools/DomainConversionTool/DomainConversionTool.go:620-653 | For every enumeration the text is read back as its pairs if and only if no value holds a quote, a backslash or a control character. |
| Scaling.EnumConversion | feeder/feeder-evic/evicFeeder.go:450-469 | Southward the value is looked up; northward, whatever the map order, some key with that value is found if and only if there is one. |
| Scaling.EnumThereAndBack | feeder/feeder-evic/evicFeeder.go:424-469 | For distinct values, converting south and back north through the tool's text returns the original value. |
| Scaling.LinearThereAndBack | feeder/feeder-evic/evicFeeder.go:471-498 | Over the reals, converting south and back north returns the original if A is nonzero, and fails if it is zero. |
| Scaling.InvertedIsInverse | tools/DomainConversionTool/DomainConversionTool.go:655-686 | Inverted coefficients undo the conversion, and inverting twice gives them back. |
| Scaling.Alternates | tools/DomainConversionTool/DomainConversionTool.go:655-686 | After any requests for a unit pair the shared coefficients are the original or the inverted ones by the parity of the reversed requests. |
| Scaling.RightDirectionIff | tools/DomainConversionTool/DomainConversionTool.go:655-686 | A request gets coefficients for its own direction if and only if an even number of reversed requests came before. |
| DomainConversion.ConvertValue | feeder/feeder-evic/evicFeeder.go:424-498 | The value is converted by the entry its index selects, as an enumeration or by coefficients; index 0 keeps it, an index past the list or an unreadable entry gives the empty text. |
| DomainConversion.ConvertDomainData | feeder/feeder-evic/evicFeeder.go:392-590 | From the tool's table and scaling list, over both files: a mapped name becomes its partner's, and its value is converted by the entry its row's index selects in the list that was read; any other name gives nothing. |
| DomainConversion.EnumOverFile | tools/DomainConversionTool/DomainConversionTool.go:435-653 | For a row that stores an enumeration with distinct plain values, each northern value goes south to its counterpart over the file and comes back. |
| DomainConversion.LinearOverFile | tools/DomainConversionTool/DomainConversionTool.go:435-686 | For a row that stores coefficients A and B, a number x goes south as A x + B over the file; if that is printed exactly it comes back as x, or as nothing if A is zero. |
| DomainConversion.BooleanOverFile | tools/DomainConversionTool/DomainConversionTool.go:435-454 | The fixed first entry takes false and true to 0 and 1 and back. |
| Download.DecodeWire | client/client-1.0/filetransfer_client/filetransfer_client.go:140-200 | The fields of an encoded chunk message are found again at their offsets. |
| Download.EncodeDlRequest | client/client-1.0/filetransfer_client/filetransfer_client.go:140-162 | The request buffer filled in place is the message's wire form. |
| Download.WireAt | client/client-1.0/filetransfer_client/filetransfer_client.go:140-162 | Byte by byte: uid, number, size with the most significant byte first, last flag, chunk. |
| Download.EncodeUlRequest | client/client-1.0/filetransfer_client/filetransfer_client.go:164-173 | A response buffer filled in place is uid, number and status. |
| Download.ResponseRead | client/client-1.0/filetransfer_client/filetransfer_client.go:175-183 | An encoded response counts as accepted exactly if its status is 0 and its number the one sent, as the end exactly if its status is 255, and otherwise as refused with its number. |
| Download.ShortResponse | client/client-1.0/filetransfer_client/filetransfer_client.go:175-183 | A response of fewer than six bytes ends the session. |
| Download.SessionAnswered | client/client-1.0/filetransfer_client/filetransfer_client.go:262-277 | What follows each message of a finished session, by the bytes of its response. |
| Download.FileReader.ReadChunk | client/client-1.0/filetransfer_client/filetransfer_client.go:211-222 | A full read or the rest of the file is delivered and the position moves past it; the last flag is set only at the end of the file. |
| Download.DownloadFile | client/client-1.0/filetransfer_client/filetransfer_client.go:240-284 | For every file, chunk count and server behaviour, and by the bytes of the responses: after status 0 with the number sent the next message has the next number modulo 256, after any other the number in the response, and after status 255 or a short response none; the chunks sent join to a prefix of the file, to all of it unless the server ends the session, only the final message may carry the last flag, and at most one message more than the chunk count is sent. |
| Download.ReceivedIff | client/client-1.0/filetransfer_client/filetransfer_client.go:240-284 | What the server took joins to everything that was sent if and only if every chunk with data was accepted; otherwise it is shorter, because a refused chunk is never sent again. |
| Download.SessionIff | client/client-1.0/filetransfer_client/filetransfer_client.go:240-284 | After a finished session the receiver has the file if and only if the whole file was sent and every message with data was accepted. |

## Left out

- Transport managers, TLS, HTTP, WebSocket, MQTT, gRPC and Unix domain socket plumbing, Redis, SQLite, logging: input and output.
- Signatures, hashes, keys and token encodings: a signature is valid or not, as the run says.
- Generated Protobuf code and the binary Protobuf encoding: messages are values; nil list elements are not modelled.
- Multi-signal and discover messages of the Protobuf bridge: they would repeat the same conversions.
- ProtoBridge.ThroughJson: states nothing for metadata filters and unknown filter variants, whose parameter is printed as raw text, nor for unescaped fields with metacharacters; ProtoBridge.UnescapedIff says which strings those are.
- ProtoBridge.IdentityIff: the same.
- ProtoBridge.SecondPass: the same.
- The JSON reader in JsonText is a reference definition: numbers and literal names are kept as written and their syntax is not checked; a pair of surrogate escapes is read as two code units.
- StructCheck: what lower-casing and case-insensitive comparison do to names is an argument; nothing is assumed of them.
- StructNames.VerifyByName: type trees of dot-free names, in which the last segment of a path is a name; StructCheck.VerifyIff holds for all.
- SearchNames.LastStarSearch: without scope restrictions and below the cap, with which the search may lose matches; SearchSpoilers.CompleteUnlessSpoiled says when.
- PathLists.AskedReads: paths without quotes, backslashes and control characters; the server does not escape them.
- TreeGrammar.TreeWritten: fields that fit their length prefixes; longer ones are written with a wrapped length.
- Scaling.ScaleData.CreateConversionIndex: the unit table and the lists of values are arguments; the in-place inversion of the table is Scaling.Alternates.
- SearchContext.VssSearchNodes: takes a non-empty path, as its callers see to; order and completeness are stated for names without a dot, because the path is cut at its last dot on the way up; the leaf-list and default-list file modes are not modelled.
- DispatcherCore.Core.ServeRequest: the contents of error responses after they are queued are not modelled, because all of them share one mutable map.
- DispatcherTheorems.CrashIff: takes dot-free trees of at most 21 levels whose names are neither empty nor the wildcard; DispatcherTheorems.CrashIffAny is the form for all trees.
- DispatcherTheorems.GetExpectedIff: states the matches for no or a final wildcard and below the cap; for other patterns DispatcherTheorems.GetIff holds with the matches the search returns.
- Dispatcher: filter parsing, file transfer set-up, metadata sources and the token server are arbitrary functions of the environment.
- SignalDiscovery.SynthesizeJsonTree: the contents are stated for metadata without JSON metacharacters; the request for the scope list is an argument.
- AgtProtocol.AtMostOneToken: requests are handled one at a time, as the server's channel does; deletion timers fire at any moment from their due time on.
- FeederMap.ConvertThroughFile: names are distinct, of 1 to 255 bytes, and the table has at most 65535 entries; where an entry can be read of an older file's rest, the answer is not stated.
- DomainConversion.ConvertDomainData: both files are new.
- Scaling.StoredIndexSelects: entries hold no backslash and no control character; entries that are not ASCII are included and come back changed. Scaling.FileRead has the same condition; Scaling.FileReadIff has none.
- Scaling.ReadEnumText: values hold no quote, backslash or control character, which by Scaling.EnumReadIff is exactly when it holds.
- Scaling.EnumThereAndBack: plain and distinct values on both sides; equal values on one side have no way back.
- Scaling.LinearThereAndBack: reals instead of floating point, so formatting and rounding are not modelled; DomainConversion.LinearOverFile takes parsing and printing of numbers as arguments.
- Scaling.InvertedIsInverse: reals instead of floating point, with which inverting twice may differ in the last digit.
- Scaling.Alternates: the same.
- Scaling.RightDirectionIff: the same; a scale that is its own inverse is right in both directions.
- Download.DownloadFile: a four-byte transfer identifier, at least one chunk, and chunks that fit the 32-bit size field with the message header; reads deliver full buffers until the end of the file.
- Download.ReceivedIff: the receiver is what its replies say it took; the server's side of the transfer is not part of this model.
- The upload direction of the file transfer, the service manager's channel, subscriptions, curve logging, the path list helpers and the user interface: not part of this model.
