# Proofs about a Rust port of a TypeScript compiler

This project models the parts of the repository whose correctness is hardest to see by reading them, and proves what
they promise. Each file holds one module.

| file | what it models |
|---|---|
| AstStore, AstClone, CloneSteps, BinaryChain, NodeFactory, CloneTheorems | the arena of syntax trees and the node factory that the schema compiler emits: deep clone from another store or from the store being appended to, the explicit-stack clone of binary expression chains, the clone recorder, imports and updates |
| ReconstructionPlan | the schema compiler itself: child layouts, update children and the plans by which a visitor rebuilds a node |
| AsyncConn, SyncConn, Replies | the two RPC connections as state machines over all interleavings of callers, reader, handlers and peer |
| SignatureRegistry, ApiSession, SessionInterleavings, SessionLocks | the API session: signature and type handles, snapshots and their reference counts, also while requests interleave, and the locks its handlers take |
| MsgPack, Utf8, RequestParams, NodeHandle | message framing, UTF-8, the decoding and re-encoding of request parameters, node handles |
| TopLevelText, ItemGrammar, RawStrings, TestInputText, ScannedLiterals | scanning and raw string literals in the test converter, texts written by a grammar, and scanning over literals |
| TestConfigurations, OptionText, TestVariations, ConfigurationList, Fnv | the configurations of compiler tests, the texts they are written in, and the hash in their names |
| Options, Arithmetic, Decimals, Hexadecimals, JsonValues | shared types and arithmetic |

## How to read it

A node is judged by the tree it unfolds to (`AstStores.Unfolds`), which remembers the node at every position. What a clone
must be is defined on trees alone (`AstClones.ClonesTo`), and every cloning method is proved to produce a node that unfolds
to such a tree, out of nodes that did not exist before (`AstClones.TreeCloned`). Trees are passed to the methods as ghost
arguments; they exist for every node of an acyclic store (`AstStores.BuiltUnfolds`). The recorder is described by which
positions correspond (`AstClones.Recorded`).

The connections are functions from states and actions to states; theorems are about every run of enabled actions. Everything
the program cannot control is an action or a parameter: time, cancellation, write errors, the peer, what a handler does.

The checker is a record of functions with two laws: a type's id finds the type, and target chains are finite. The project
session is a table of references; a snapshot id always stands for the same snapshot.

## What turned out not to hold

The code is modelled as it is. Where it does not do what is expected of it, the exact condition is proved.

- Deep clones and updates of `JSTypeAliasDeclaration` and `JSImportDeclaration` nodes come out as `TypeAliasDeclaration` and
  `ImportDeclaration`, because the payload's constructor is the one of the other kind (`CloneIsSameTree`, `JsImportLosesKind`).
- An update that is given other flags creates a new node and then overwrites its flags with the original's
  (`UpdateFromStore`).
- `close` gives back none of the references of the stored snapshots (`Session.Close`).
- Parsing a configuration file that can be read blocks on its own lock and keeps it from every other handler
  (`ParseConfigFileBlocks`, `ProjectSessionLost`).
- A document named by a plain file name loses it before the handler sees the request (`ReencodingKeepsIff`,
  `DefaultProjectOfNoFile`), although the comment on the type says that a plain string is one of its two forms.
- A node handle that was given out is never accepted, although the comments give one format for both directions
  (`IssuedHandleNeverParses`).
- A synchronous call that was sent and then cancelled, or whose reading failed, shifts the answers of later calls of its
  method; nothing else does (`ShiftsIffAnswerLeft`, `UndisturbedIffNeverShifts`).
- A raw string literal with a carriage return, or one that needs more than 255 hashes, is not read back
  (`RustRawString`), and a test with a directive that contains the splice text does not come back (`TestInputComesBack`).
- A printed raw string that has not exactly one hash may end elsewhere for the scans that run over it later: if a quote in
  it is not hidden by a backslash, or its last backslash hides the closing quote (`PassedOverIff`).
- The changes between two snapshots never list a file, although the comment on them promises file-level differences
  (`FilesReportedIff`).
- A call back to the client on which a request handler of the asynchronous connection waits is never answered: it ends only
  by a write error or by its context (`CallsAreSafe`, `HandlerHoldsReader`).
- A node type with a kind parameter, a child and a parameter that is no child would be rebuilt by a macro arm that has no
  source data (`ArmSuffices`). No node type is of this kind today: of the six with a kind parameter,
  `ForInOrOfStatement`, `CaseOrDefaultClause` and `BindingPattern` take children only, and `Token`, `KeywordExpression` and
  `KeywordTypeNode` take nothing else and have no arm.

## Model

| member | source | states |
|---|---|---|
| AstStores.UnfoldsExtends | crates/ts-ast/src/arena.rs:1565-1580 | Nodes are only appended: what a node unfolds to stays the same however far its store grows. |
| AstStores.UnfoldingUnique | crates/ts-ast/src/arena.rs:1565-1580 | A node unfolds to one tree only, so a clone can be judged by that tree. |
| AstStores.BuiltUnfolds | crates/ts-ast/src/arena.rs:1565-1580 | A store made by appending has no cycles: every node of it unfolds to a finite tree. |
| AstStores.StaysBuilt | crates/ts-ast/src/arena.rs:1623-1631 | Moving nodes and growing lists keeps a store closed: every id it holds is its own and children come first. |
| NodeFactories.NodeFactory.NewNode | crates/ts-ast/src/ast.rs:2864-2880 | A new node gets the next id of the store and stands nowhere; its flags are those asked for and those the creation hook adds; every earlier header is untouched. |
| NodeFactories.NodeFactory.NewModifierList | crates/ts-ast/src/ast.rs:3031-3042 | The flags of a modifier list are those of the listed modifiers, whatever flags the caller passed. |
| CloneTheorems.FlagsOfKinds | crates/ts-ast/src/ast.rs:3031-3042 | Which are the flags that one of the listed modifiers has, and no others. |
| NodeFactories.NodeFactory.FinishUpdateNode | scripts/generate-go-ast.ts:4115-4127 | Flags and place of the original are written to the updated node only, and not at all if it is the original. |
| NodeFactories.NodeFactory.FinishCloneNode | scripts/generate-go-ast.ts:4132-4151 | As for an update, and the recorder, if there is one, maps the original to its clone. |
| NodeFactories.NodeFactory.RestoreSelfReferences | crates/ts-ast/src/ast.rs:8500-8512 | Only the indicators that pointed to the file point to the new file. |
| NodeFactories.NodeFactory.CloneNodes | scripts/generate-go-ast.ts:3267-3291 | A list of trees is cloned in order into fresh trees, the last clone being the newest node; nothing older changes, also when the source is the store being appended to. |
| NodeFactories.NodeFactory.CloneListNodes | scripts/generate-go-ast.ts:3267-3285 | In synthetic mode the last clone of a list with a trailing comma, and no other node, is moved to (-2,-2). |
| NodeFactories.NodeFactory.CloneNodeList | scripts/generate-go-ast.ts:3267-3291 | A node list keeps its ranges or loses them by mode, its elements in order and its trailing comma. |
| NodeFactories.NodeFactory.CloneModifierList | scripts/generate-go-ast.ts:3303-3327 | A modifier list keeps its elements in order and gets its flags from the kinds of its clones. |
| NodeFactories.NodeFactory.CloneRawNodeSlice | scripts/generate-go-ast.ts:3339-3346 | A raw slice keeps its holes where they were. |
| NodeFactories.NodeFactory.CloneChildField | scripts/generate-go-ast.ts:3005-3056 | Whatever kind of child field it is, its clone holds fresh clones of its children in order. |
| NodeFactories.NodeFactory.CloneChildFields | scripts/generate-go-ast.ts:3058-3071 | The whole layout, field by field in order, with the recorder extended by exactly these subtrees. |
| NodeFactories.NodeFactory.MapNode | scripts/generate-go-ast.ts:3111-3121 | A node that metadata refers to becomes what was recorded for it below the file or in an enclosing recording, or else a clone made on its own, which is recorded too. |
| NodeFactories.NodeFactory.MapRefs | crates/ts-ast/src/ast.rs:8277-8309 | All references are mapped, each later one finding what earlier ones had cloned; the indicators that are the file itself are only noted. |
| NodeFactories.NodeFactory.DeepCloneSourceFile | scripts/generate-go-ast.ts:3101-3135 | A file is cloned with every metadata reference mapped to the clone of what it referred to, also where that lies outside the file; the recorder ends as it began, or as the enclosing one extended by this file and the outside trees it needed. |
| NodeFactories.NodeFactory.DeepCloneNode | scripts/generate-go-ast.ts:3138-3181 | The clone of any acyclic node unfolds to the tree it must be, uses new ids only and leaves all earlier nodes alone; a source file's references that lead outside it are cloned as well. |
| NodeFactories.NodeFactory.CloneBinaryField | scripts/generate-go-ast.ts:3242-3251 | A binary operand is found among the clones made already; any other child is cloned now. |
| NodeFactories.NodeFactory.CloneChainNode | scripts/generate-go-ast.ts:3219-3235 | One expression of a chain becomes a clone linked to the clones of its binary operands. |
| NodeFactories.NodeFactory.DeepCloneBinaryChain | scripts/generate-go-ast.ts:3183-3240 | The explicit stack ends, gives the tree that plain recursion would give, clones each member once and the root last. |
| BinaryChains.PopCloned | scripts/generate-go-ast.ts:3190-3192 | An entry cloned meanwhile is dropped and is never the root. |
| BinaryChains.PopFresh | scripts/generate-go-ast.ts:3193-3217 | Expanding an entry keeps every expanded entry's operands cloned or waiting above it, and the work left shrinks. |
| BinaryChains.OperandsReady | scripts/generate-go-ast.ts:3219-3226 | An expanded entry on top of the stack finds the clones of its binary left and right operands. |
| BinaryChains.PopExpanded | scripts/generate-go-ast.ts:3219-3235 | Cloning it keeps all clones made so far distinct and linked, and the work left shrinks. |
| BinaryChains.ChainFinish | scripts/generate-go-ast.ts:3238 | With an empty stack the root is in the table, so taking it out cannot fail, and the recorder holds what plain recursion would have recorded. |
| BinaryChains.OperandOnly | scripts/generate-go-ast.ts:3195-3216 | The operands pushed are all the binary children a binary expression has. |
| CloneSteps.CloneFromFields | scripts/generate-go-ast.ts:3138-3181 | Cloned children plus a header with the original's flags and place make a clone of the tree. |
| CloneTheorems.CloneIsSameTree | scripts/generate-go-ast.ts:3144-3181 | A clone has the kinds, flags, data, children and list commas of the original exactly when no node has one of the two kinds that share another kind's constructor; and it has everything but places exactly when, besides, no field is set that no constructor takes and no list says more than its clone will. |
| CloneTheorems.JsImportLosesKind | scripts/generate-go-ast.ts:4151-4160 | A `@import` declaration in a store of its own can be cloned, and its clone is a plain import declaration. |
| CloneTheorems.CloneLocations | scripts/generate-go-ast.ts:3267-3285 | At every position the clone stands where the original stood, or nowhere, or at (-2,-2) for the end of a list with a trailing comma. |
| CloneTheorems.CloneInStores | scripts/generate-go-ast.ts:3253-3346 | At every position of a cloned tree, with the records of the stores read off: flags and data are the original's, and so is the kind but for the two alias kinds; every list has the same number of children in the same order and keeps both its ranges, or has none in synthetic mode; every modifier list has exactly the flags of its cloned modifiers; every raw slice has its holes. |
| CloneTheorems.CloneIsFresh | scripts/generate-go-ast.ts:3138-3181 | No node of a clone existed before. |
| CloneTheorems.FileRefsCloned | scripts/generate-go-ast.ts:3101-3135 | Every reference of a cloned file without shared nodes is the one clone of what it referred to, reachable from the new file. |
| CloneTheorems.OpenRefsAreNew | scripts/generate-go-ast.ts:3101-3135 | Whatever its metadata refers to, a cloned file mentions only nodes made for it: itself, nodes below it and nodes of the outside trees cloned for it. |
| CloneTheorems.MemberClonedOnce | scripts/generate-go-ast.ts:3188-3192 | A binary expression held by several members of a chain has one clone, which all their clones hold. |
| NodeFactories.NodeFactory.ImportUpdateField | scripts/generate-go-ast.ts:2778-2858 | A proposed child of the own store is kept as it is, one of the source store is cloned where it stands. |
| NodeFactories.NodeFactory.ImportUpdateFields | scripts/generate-go-ast.ts:4355-4381 | All proposed children, in order, end up in the own store. |
| NodeFactories.NodeFactory.UpdateFromStore | scripts/generate-go-ast.ts:4081-4127 | Nothing changed: the node itself or its clone. Something changed: one new node with the proposed data and the imported children in order, and with tag, flags and place of the original; its kind is the original's, but that of the constructor for the two alias kinds. The recorder, if there is one, stays. Always a node of the own store, which stays closed. |
| CloneSteps.UpdateStaysBuilt | scripts/generate-go-ast.ts:712-723 | Every id an updated node holds belongs to the store it is in. |
| AsyncConns.CallIdsCollide | crates/ts-api/src/conn_async.rs:354 | Two calls have the same id exactly if the 64-bit counter went round between them. |
| AsyncConns.CallIdShown | crates/ts-api/src/conn_async.rs:354 | Until the counter goes round they are `api1`, `api2` and so on. |
| AsyncConns.StepInv | crates/ts-api/src/conn_async.rs:345-400 | Each step of callers, reader, handler, writers and peer keeps the state consistent. |
| AsyncConns.RequestsAnswered | crates/ts-api/src/conn_async.rs:261-312 | Over every run: each reply goes to a request that was read, under its id, replies are in the order of the requests and no request has two; the reply is the handler's result or error, or an error after a panic or a failed write; each request the loop is done with has its reply, unless the loop broke down over it. |
| AsyncConns.ReplyFollows | crates/ts-api/src/conn_async.rs:261-312 | However a request's handler ends, by result, error or panic, exactly this is written next, once the lock is free, and the loop reads on. |
| AsyncConns.FailedReplyFollows | crates/ts-api/src/conn_async.rs:285-311 | A first reply that cannot be written is followed by an error that says why; if that cannot be written either the loop ends. |
| AsyncConns.NotificationEnds | crates/ts-api/src/conn_async.rs:190-195 | A notification is never answered, and a panic of its handler ends the loop. |
| AsyncConns.CallsWrittenOnce | crates/ts-api/src/conn_async.rs:345-375 | Over every run the request of a call is written exactly once, under the call's id, if the call waits or ended without a write error, and otherwise not at all. |
| AsyncConns.LockIsReleased | crates/ts-api/src/conn_async.rs:261-312 | The write lock is one step from being free, whoever holds it. |
| AsyncConns.WholeCall | crates/ts-api/src/conn_async.rs:345-400 | A call whose response comes goes through: one request is written, the response is what it returns, and nothing else changes. |
| AsyncConns.CallsAreSafe | crates/ts-api/src/conn_async.rs:345-407 | Over every run: ids in flight differ, the table leads from an id to its own channel, a call returns only a response with its own id, a finished call is out of the table, and a call that the running handler waits for ends only by an error. |
| AsyncConns.SendNeverBlocks | crates/ts-api/src/conn_async.rs:164-176 | What the reader wants to hand over always fits into the channel. |
| AsyncConns.DeliveredOnce | crates/ts-api/src/conn_async.rs:164-176 | No message goes into two channels and no channel gets two. |
| AsyncConns.NeverDisconnected | crates/ts-api/src/conn_async.rs:394-397 | The branch for a closed channel is never taken. |
| AsyncConns.UnknownResponseIgnored | crates/ts-api/src/conn_async.rs:164-176 | After any run a response changes nothing but the reader's position exactly if no call of its id is in flight and still without response: unknown, late and repeated responses. |
| AsyncConns.HandlerHoldsReader | crates/ts-api/src/conn_async.rs:141-161 | From any point of a run on, as long as a call that a handler waits for is not over, nothing is taken from the peer and nothing reaches a channel. |
| AsyncConns.ResponseReachesItsCall | crates/ts-api/src/conn_async.rs:164-176 | A response with the id of a waiting call is returned by that call and touches no other. |
| SyncConns.UndisturbedRunsAreSessions | crates/ts-api/src/conn_sync.rs:42-120 | While no call that was sent ends without its answer, the wire shows whole sessions: request, calls each with its own answer, reply. Requests are answered in their order, once each, under their ids and with the result, error or panic their handlers ended with, or with an error if that could not be written. Every call gets what the peer answered to it or an I/O error. No request stays without reply unless the loop ends because an error could not be written. |
| SyncConns.ShiftsIffAnswerLeft | crates/ts-api/src/conn_sync.rs:230-238 | After any such run exactly the steps that end a sent call without its answer, by cancellation or a read error, can be followed by calls of which one returns another's answer. |
| SyncConns.UndisturbedIffNeverShifts | crates/ts-api/src/conn_sync.rs:217-255 | Over whole runs: no answer can be shifted from any point of a run exactly if no call that was sent ends without its answer. |
| SyncConns.LostAnswerShifts | crates/ts-api/src/conn_sync.rs:230-246 | From every such state and step, the next call of the method returns the answer that was left, without any further failure. |
| SyncConns.CancelledCallShiftsAnswers | crates/ts-api/src/conn_sync.rs:230-232 | For instance the first call of the first request is cancelled, and the second call of its method gets the first one's answer. |
| SyncConns.StepInv | crates/ts-api/src/conn_sync.rs:42-120 | Each undisturbed step keeps at most one answer under way, and it is the waiting caller's. |
| SyncConns.ScanParses | crates/ts-api/src/conn_sync.rs:42-120 | A trace accepted step by step is a sequence of whole sessions, numbered from 0, and perhaps the beginning of one. |
| SignatureRegistries.SnapshotRegistry.RegisterSignature | crates/ts-api/src/session.rs:280-375 | A handle is issued for the signature and one for each of its targets; the answer lists the handles of all type parameters in order, as does every entry; the entry goes in last, nothing pending is left behind and nothing older changes. |
| SignatureRegistries.SnapshotRegistry.RegisterTarget | crates/ts-api/src/session.rs:352-360 | The target's origin is its parent's handle although the parent has no entry yet. |
| SignatureRegistries.SnapshotRegistry.ResolveSignature | crates/ts-api/src/session.rs:569-628 | Exactly the handles issued for the active checker resolve, each to the signature it was issued for; others give the error that applies. |
| SignatureRegistries.SnapshotRegistry.ResolveType | crates/ts-api/src/session.rs:866-886 | Exactly the registered types of the active checker resolve. |
| SignatureRegistries.SnapshotRegistry.RegisterType | crates/ts-api/src/session.rs:202-218 | The handle of a type names checker and type id. |
| SignatureRegistries.SnapshotRegistry.HandleGetSignaturesOfType | crates/ts-api/src/session.rs:1582-1613 | The i-th answer is a handle for the i-th signature of the type. |
| SignatureRegistries.SnapshotRegistry.HandleGetResolvedSignature | crates/ts-api/src/session.rs:1616-1641 | The answer is a handle for the signature the call resolves to, null without node or signature, and an error without effect exactly if the location cannot be parsed or its file is missing. |
| SignatureRegistries.ShownHandlesDiffer | crates/ts-api/src/proto.rs:153-174 | Different type handles are shown differently, so are different signature handles, and no type handle is shown as a signature handle is. |
| SignatureRegistries.ShownHandleReads | crates/ts-api/src/proto.rs:153-174 | Prefix, slot, generation and id can be read off a shown handle. |
| SignatureRegistries.IssuedResolves | crates/ts-api/src/session.rs:569-628 | At any depth of a target chain a handle leads back to its signature; origins go to smaller ids, so resolving ends. |
| SignatureRegistries.ResolvesOnce | crates/ts-api/src/session.rs:569-628 | A handle leads to one signature only. |
| SignatureRegistries.NothingDangles | crates/ts-api/src/session.rs:300-375 | After the outermost registration neither an origin nor a target names a missing handle, and each entry lists the handles of all its type parameters in order. |
| ApiSessions.Session.HandleUpdateSnapshot | crates/ts-api/src/session.rs:941-1032 | A failed opening gives its reference back and changes nothing; the same snapshot is counted once more; a new one is stored with one reference; changes are against the latest snapshot if still stored. |
| ApiSessions.Session.HandleRelease | crates/ts-api/src/session.rs:1036-1073 | The count drops by one and the last release removes the snapshot and gives its reference back; each wrong handle has its error and no effect. |
| ApiSessions.Session.Close | crates/ts-api/src/session.rs:2644-2650 | All snapshots are forgotten and exactly their references are lost. |
| ApiSessions.Conservation | crates/ts-api/src/session.rs:976-999 | References taken and not given back are one per stored snapshot plus those lost by closing; each count is updates minus releases and at least one. |
| SessionInterleavings.ConservedBetweenLocks | crates/ts-api/src/session.rs:949-999 | The same however requests interleave between their locks, with one more reference per snapshot that an update has taken and not stored yet; no snapshot stored or in hand is without a reference. |
| SessionInterleavings.UpdateInTwoSteps | crates/ts-api/src/session.rs:967-999 | Taking and storing a snapshot with nobody in between is the update as a whole. |
| ApiSessions.HandlesDiffer | crates/ts-api/src/session.rs:2795-2801 | Different snapshots have different handles. |
| ApiSessions.HandleReads | crates/ts-api/src/session.rs:2795-2801 | A snapshot handle is `n` and sixteen hexadecimal digits with the value of the id. |
| ApiSessions.ComputeSnapshotChanges | crates/ts-api/src/session.rs:2812-2840 | Removed and changed projects are exactly those that are gone, new or have another program; no file is listed for any of them. |
| ApiSessions.FilesReportedIff | crates/ts-api/src/session.rs:2809-2840 | The file lists are right exactly if no project with another program has other files. |
| ApiSessions.EditedFileNotReported | crates/ts-api/src/session.rs:2833-2836 | An edited file is not listed for its project. |
| ApiSessions.ChangesRebuild | crates/ts-api/src/session.rs:2809-2840 | From the previous programs and the reported changes the next programs can be rebuilt. |
| ApiSessions.NoChanges | crates/ts-api/src/session.rs:2812-2840 | Nothing is reported exactly if the programs are the same. |
| SessionLocks.RunsThroughIff | crates/ts-api/src/session.rs:433-437 | Any program of guards and helper calls ends exactly if no lock is taken again, by itself or in a helper, while its guard is alive. |
| SessionLocks.LocksTaken | crates/ts-api/src/session.rs:941-1120 | What each request locks, in order, and what it locks while holding another lock. |
| SessionLocks.ParseConfigFileBlocks | crates/ts-api/src/session.rs:1099-1120 | Of the handlers exactly the parsing of a configuration file that can be read does not end. |
| SessionLocks.HandlersNeverDeadlock | crates/ts-api/src/session.rs:941-1073 | However the other handlers interleave on different threads, some unfinished one can always go on. |
| SessionLocks.ProjectSessionLost | crates/ts-api/src/session.rs:1105-1119 | However handlers interleave, parsing a readable configuration file has not begun, or it holds the project session and no handler gets it any more, whatever comes next. |
| MsgPack.Reader.ReadBin | crates/ts-api/src/protocol_msgpack.rs:162-187 | Reads one binary value, accepts each header form, and leaves what follows. |
| MsgPack.Reader.ReadTuple | crates/ts-api/src/protocol_msgpack.rs:119-160 | Reads one tuple or reports the first thing that is wrong with it. |
| MsgPack.Writer.WriteBin | crates/ts-api/src/protocol_msgpack.rs:206-218 | Appends header and data, the length cut to the width of the header. |
| MsgPack.Writer.WriteTuple | crates/ts-api/src/protocol_msgpack.rs:189-204 | Appends the code of the tuple. |
| MsgPack.BinAccepted | crates/ts-api/src/protocol_msgpack.rs:162-187 | Data is read exactly from bytes that begin with a header of one, two or four length bytes for it, and the data. |
| MsgPack.TypeAccepted | crates/ts-api/src/protocol_msgpack.rs:131-143 | A type is read exactly from one byte up to 127, or from the byte behind a marker for one unsigned byte. |
| MsgPack.TupleAccepted | crates/ts-api/src/protocol_msgpack.rs:119-160 | A tuple is read exactly from its marker, type, name and payload in any of their forms, if its name is UTF-8. |
| MsgPack.FirstErrors | crates/ts-api/src/protocol_msgpack.rs:119-160 | Missing bytes, another marker, no type and an unknown type each have their error. |
| MsgPack.WrittenHeader | crates/ts-api/src/protocol_msgpack.rs:206-218 | The header that is written has the length in two, three or five bytes. |
| Utf8.ValidIffText | crates/ts-api/src/protocol_msgpack.rs:153-154 | Bytes are accepted as UTF-8 exactly if they encode some sequence of scalar values. |
| MsgPack.BinRoundTrip | crates/ts-api/src/protocol_msgpack.rs:162-218 | Binary data comes back exactly if its length is below 2^32. |
| MsgPack.AnyHeaderReads | crates/ts-api/src/protocol_msgpack.rs:162-187 | Every header that can hold a length is read. |
| MsgPack.ShortestHeader | crates/ts-api/src/protocol_msgpack.rs:206-218 | The shortest header that can hold the length is written. |
| MsgPack.TupleRoundTrip | crates/ts-api/src/protocol_msgpack.rs:119-204 | A tuple comes back and leaves what follows exactly if its type is known, its name is UTF-8 and both lengths fit. |
| MsgPack.StreamRoundTrip | crates/ts-api/src/protocol_msgpack.rs:119-204 | A concatenation of tuples reads back as the same list. |
| MsgPack.PrefixFree | crates/ts-api/src/protocol_msgpack.rs:189-204 | No tuple's code begins another one's. |
| MsgPack.RawBinaryPayload | crates/ts-api/src/protocol_msgpack.rs:378-393 | Recognizes exactly what raw bytes are serialized to, and gives the bytes. |
| ReconstructionPlans.IndexSelectsOwnField | scripts/generate-go-ast.ts:5119-5196 | Each visited argument's index selects the layout field of its own member, with the same requiredness. |
| ReconstructionPlans.UpdateListIsLayout | scripts/generate-go-ast.ts:1688-1708 | The update children are the layout children in order exactly if no kind parameter holds children. |
| ReconstructionPlans.StructFieldsAre | scripts/generate-go-ast.ts:466-492 | A node type has the fields of its bases and of its own kept members, the first of each name. |
| ReconstructionPlans.ChildFieldsAre | scripts/generate-go-ast.ts:1588-1709 | Layout and update list have only fields of child members that can hold children, in the order of the members. |
| ReconstructionPlans.ChildFieldsAll | scripts/generate-go-ast.ts:1588-1709 | They have all of these. |
| ReconstructionPlans.DescriptorSays | scripts/generate-go-ast.ts:1604-1617 | A descriptor names the kind of children its field's type says and requires them exactly if the type is not optional. |
| ReconstructionPlans.PlanExists | scripts/generate-go-ast.ts:5119-5170 | There is a plan exactly if every constructor parameter but kind and flags has a field. |
| ReconstructionPlans.RebuildMeaning | scripts/generate-go-ast.ts:5119-5196 | A rebuilt payload has the visited child in every layout field and the source's value in every other field a constructor takes. |
| ReconstructionPlans.KindAndFlagsKept | scripts/generate-go-ast.ts:5119-5196 | Kind and flags of the original go to the parameters for kind and flags. |
| ReconstructionPlans.UnchangedRebuildsSame | scripts/generate-go-ast.ts:5119-5196 | With unchanged children the rebuilt payload is the source's on all these fields. |
| ReconstructionPlans.RebuildFails | scripts/generate-go-ast.ts:2514-2532 | Rebuilding fails exactly if the visitor removed a required child. |
| ReconstructionPlans.ArmSuffices | scripts/generate-go-ast.ts:5329-5339 | For every node type that has a plan: the macro arm emitted for it, if one is, binds all its arguments exactly if no constructor parameter is the kind or every other one but the flags is a child of the layout. An arm is emitted if an update parameter is a child. |
| ReconstructionPlans.MixedTypeNotBound | scripts/generate-go-ast.ts:5329-5339 | A node type with a kind parameter, a child and a text has an arm, and the arm does not bind all its arguments. |
| Fnv.StepBijective | crates/ts-testrunner/build.rs:243-250 | For each byte a step of the hash is a bijection of the 64-bit states. |
| Fnv.StepInjectiveInByte | crates/ts-testrunner/build.rs:243-250 | For each state a step is injective in the byte. |
| Fnv.SingleByteNeverCollides | crates/ts-testrunner/build.rs:243-250 | Byte strings that differ in exactly one byte have different hashes. |
| Fnv.Fnv1a | crates/ts-testrunner/build.rs:243-250 | The loop computes the hash. |
| Fnv.KnownHashes | crates/ts-testrunner/build.rs:243-250 | It gives the published values for the empty string, `a` and `foobar`. |
| Fnv.AddString | scripts/generate-go-ast.ts:1384-1389 | The masked arithmetic of the compiler gives the wrapping hash of the generated program on ASCII strings. |
| Fnv.SameBytesIffAscii | scripts/generate-go-ast.ts:1384-1389 | Both programs hash the same bytes exactly for ASCII strings. |
| TestConfigurations.SplitOptionValues | crates/ts-testrunner/build.rs:387-437 | Includes, then the wildcard's values, without those read the same and those excluded, in order; fails on an unknown value or if nothing is left. |
| OptionTexts.WrittenValues | crates/ts-testrunner/build.rs:387-437 | For values written with any white space, plus signs, exclusions and wildcards: nothing if nothing is written, a failure if a listed value is unknown or all are excluded, and otherwise the first listed value of each reading that is not excluded, in order. |
| OptionTexts.EveryTextIsWritten | crates/ts-testrunner/build.rs:387-437 | Every text is written this way. |
| TestConfigurations.KeepMeaning | crates/ts-testrunner/build.rs:408-435 | The kept values have pairwise different readings, and exactly the readings of the candidates minus the excluded ones. |
| TestConfigurations.KeepOrder | crates/ts-testrunner/build.rs:408-435 | The kept values stand among the candidates at increasing places: exactly the first of each reading that is not excluded. |
| TestVariations.ComputeConfigVariations | crates/ts-testrunner/build.rs:357-375 | Appends all configurations that extend the current one. |
| TestVariations.ProductIsCartesian | crates/ts-testrunner/build.rs:357-375 | The configurations are exactly the Cartesian product. |
| TestVariations.ProductCount | crates/ts-testrunner/build.rs:357-375 | Their number is the product of the numbers of values. |
| TestVariations.ConfigurationsMeaning | crates/ts-testrunner/build.rs:310-355 | There are at most 25 configurations, as many as the product says, and no two have one name. |
| TestVariations.AllNamesDiffer | crates/ts-testrunner/build.rs:377-385 | The names of the configurations are pairwise different. |
| TestVariations.OrderIsIrrelevant | crates/ts-testrunner/build.rs:310-355 | The configurations do not depend on the order in which the settings come out of their hash map. |
| TestVariations.FileBasedTestConfigurations | crates/ts-testrunner/build.rs:310-355 | Computes them, and fails exactly on a bad value or more than 25 variations. |
| ConfigurationLists.ConfigurationsAre | crates/ts-testrunner/build.rs:310-385 | These are all choices of values for the options with several, in the order of keys and values; each name says key and value in small letters; a bad value or more than 25 choices fail; without varying options there is one unnamed configuration or none. |
| TopLevelText.SplitTopLevel | scripts/convertFourslash.ts:5611-5640 | Cuts at the delimiters outside brackets and quotes. |
| TopLevelText.SplitConserves | scripts/convertFourslash.ts:5611-5640 | Joining the parts gives the text back, for every text. |
| TopLevelText.SplitInvertsJoin | scripts/convertFourslash.ts:5611-5640 | Joined items that are balanced, closed and without a top-level delimiter are split into the same items. |
| ItemGrammar.SplitsIntoItems | scripts/convertFourslash.ts:5611-5640 | Joined items made of characters, quoted stretches, raw strings and groups in brackets, in which delimiters may stand, are split into the same items. |
| TopLevelText.FindMatchingBrace | scripts/convertFourslash.ts:5590-5609 | Returns the position found, or -1. |
| TopLevelText.MatchingBraceIs | scripts/convertFourslash.ts:5590-5609 | It is exactly the closing brace with balanced text between it and the opening one. |
| ItemGrammar.GroupIsMatched | scripts/convertFourslash.ts:5590-5609 | For a group in braces around any such tokens it is the brace that ends the group, in any surroundings. |
| TopLevelText.SkipQuoted | scripts/convertFourslash.ts:5642-5651 | Returns the closing quote, or the last position if there is none. |
| TopLevelText.LiteralEnds | scripts/convertFourslash.ts:5642-5651 | On a JSON-escaped literal that is exactly its closing quote. |
| ScannedLiterals.PassedOverIff | scripts/convertFourslash.ts:5642-5656 | A printed raw string is passed over as one stretch exactly if it has one hash or every quote in it is hidden by a backslash and its last backslash hides something. |
| ScannedLiterals.ScansGoOn | scripts/convertFourslash.ts:5590-5640 | Then splitting and brace matching go on behind it as if it were not there. |
| ScannedLiterals.BackslashHidesBrace | scripts/convertFourslash.ts:5642-5651 | A literal that is one backslash hides the brace behind it. |
| ScannedLiterals.InnerQuoteHidesBrace | scripts/convertFourslash.ts:5642-5656 | So does a literal that needs two hashes, because only one hash is recognized. |
| RawStrings.RustRawString | scripts/convertFourslash.ts:5756-5762 | Ends with the least number of hashes whose fence is not in the text; read as Rust source the result gives the text back exactly if no carriage return is in it and 255 hashes are enough. |
| RawStrings.RawStringRoundTrip | scripts/convertFourslash.ts:5756-5762 | Printed with any number of hashes whose fence is not in the text, it is read back exactly if it has no carriage return and the number is at most 255. |
| RawStrings.FewerHashesFail | scripts/convertFourslash.ts:5756-5762 | With fewer hashes it does not. |
| RawStrings.RustRawStringFromGoRaw | scripts/convertFourslash.ts:5749-5754 | Turns splices back into backticks, or reports that the text is not between backticks. |
| RawStrings.GetTestInput | scripts/convertFourslash.ts:422-458 | Keeps input and directive lines, splices backticks of input lines and removes a common leading space. |
| TestInputTexts.TestInputOfRows | scripts/convertFourslash.ts:422-458 | For any rows of a test: input rows without their slashes and with a splice for each backtick, directives as they are, other rows left out, one leading space removed unless a line is at the margin. |
| TestInputTexts.EveryTestIsWritten | scripts/convertFourslash.ts:422-458 | Every test is written in such rows. |
| RawStrings.TestInputComesBack | scripts/convertFourslash.ts:422-458 | Undoing the splices of a test's input gives its kept lines back as they were exactly if no directive among them contains a splice. |
| RawStrings.SplicedDirectiveIsLost | scripts/convertFourslash.ts:440-442 | A test whose only line is a directive with a splice in it does not come back. |
| RawStrings.DirectiveComesBack | scripts/convertFourslash.ts:440-442 | A directive comes back exactly if it does not contain a splice. |
| RequestParams.ReencodingKeepsIff | crates/ts-api/src/proto.rs:1628-1642 | A handler sees what was sent exactly if the request names no document by a non-empty plain string, at any depth. |
| RequestParams.FileNamesDecoded | crates/ts-api/src/proto.rs:339-367 | Non-empty plain strings at the places of documents are all that puts file names into a decoded value. |
| RequestParams.UpdateSnapshotKeepsIff | crates/ts-api/src/session.rs:2671-2700 | An update of a snapshot comes through exactly if no list of changed, created or deleted files has a non-empty plain string. |
| RequestParams.DiagnosticsKeepsIff | crates/ts-api/src/proto.rs:339-367 | A request for diagnostics comes through exactly if its optional file is no non-empty plain string. |
| RequestParams.EncodedDecodes | crates/ts-api/src/proto.rs:1635-1642 | Decoding an encoded value erases the plain file names and nothing else. |
| RequestParams.DefaultProjectOfNoFile | crates/ts-api/src/proto.rs:339-367 | Asked for the project of a file by name, the handler is asked for the project of no file. |
| NodeHandles.IssuedHandleNeverParses | crates/ts-api/src/proto.rs:178-191 | No handle that is given out for a node can be parsed again, because its kind is shown by name. |
| NodeHandles.KindFromI16 | crates/ts-api/src/proto.rs:215-224 | Walking from kind to kind gives the kind of the number, `Unknown` for a number of no kind. |
| NodeHandles.NumericHandleRoundTrip | crates/ts-api/src/proto.rs:193-212 | With a number in place of the kind a handle would come back, dots in the path included, exactly if it is the number of a kind; other numbers come back as `Unknown`. |

## Left out

- The other fields of source files that a clone copies, and the flow of their diagnostics: plain values.
- Fields of a payload that no constructor takes (binder and checker results, and a few like the token flags of template
  literals): a clone starts with their defaults, which is all that is said about them (`Caches`).
- Parent pointers, shallow clones, the creation of missing lists and the setters that mutate nodes in place.
- Raw string slices: no node type has one.
- The fixed capacity of the array of cloned children, and payload arenas: payloads are part of the header here.
- The wrappers that only choose the source and the location mode of a clone, and the marking of reparsed clones.
- NodeFactories.NodeFactory.DeepCloneSourceFile: imports and augmentations are not the file itself, and the trees of nodes
  outside the file refer in turn only to themselves, since otherwise cloning need not end.
- NodeFactories.NodeFactory.DeepCloneNode: a source file below another node must be self-contained; the grammar has none.
- A binary expression as type annotation or operator token of a binary expression: the grammar excludes it, and the model
  requires that it is excluded.
- Updates of source files, which are written by hand in the repository.
- The visitor's hooks, and the loop that asks them for each child: a plan is run on the children they return.
- JSDoc, cached text counts and the hooks called after cloning and updating, which cannot change the store.
- Snake-case conversion in the schema compiler: members come with their snake-case names.
- The locks of the tables inside a snapshot: none of the modelled locks is taken while one of them is held. Readers of the
  snapshot table exclude each other in the model.
- Symbols and their hashed handles; the fields of responses that nothing refers to.
- More than 2^64 calls on one connection: `CallIdsCollide` says when ids meet again, and the theorems about runs stop there.
- AsyncConns.CallsAreSafe: liveness is not stated, since a call may wait forever for a peer that does not answer.
- Notifications that a synchronous connection sends; in the binary protocol the peer cannot tell them from calls.
- A synchronous read or write that fails halfway through a message: a failing write sends nothing and a failing read leaves
  the answer where it is.
- SyncConns.UndisturbedRunsAreSessions: handlers are taken to reply only after the calls they started are over.
- Positions of a reader after an error; reading stops there.
- The code and the stack trace in an error reply.
- Notifications that a synchronous connection gets; the peer is taken to send requests only.
- White space other than ASCII when option values are trimmed.
- Reading settings from the text of a test, and turning configuration names into test names.
- Parameters given as JSON arrays instead of objects, and number ranges other than unsigned 32-bit.
- The rest of the test converter, which works on syntax trees and regular expressions.
- Sockets, files and clocks: bytes, messages and results are parameters, time is a step that may happen.
