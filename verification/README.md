# Verification of the datasync client

A Dafny model of the client-side synchronisation engine of the Webcom C SDK: the ordered container and the
path order it is used with, the data cache with its memoised Merkle hashes, the subscription and listen
registries with the connection states, streaming SHA-1, push ids, JSON printing and path parsing. To check it,
give `dafny verify` the file `dfyconfig.toml`.

## How it is organised

- **Order and container.** `Keys` and `Paths` give the key comparison and its lexicographic lift;
  `AvlTree`, `AvlHeap`, `AvlWalk` and `AvlContainer` are the AVL tree, first on immutable trees, then on
  linked nodes that are rewritten in place, with the explicit-stack iterator. `PathTable` is the in-order
  contents of a container keyed by paths, and `PathContainer` proves that the linked container behaves as
  such a table.
- **Cache.** `Kids`, `CacheTree`, `Merkle`, `DataCache`: a tree of AVL trees that stands for a map of maps,
  puts and merges at a path, hashes computed on demand and stored in the nodes. `Documents` says what a document
  holds at a path, `Separation` what the hashes tell apart, `HashText` what the digest of the cache is.
- **Registries.** `ListenModel` is the state machine of listens, the connection and what the server holds, and
  `ListenRuns` relates its runs to the answers and connection events that occurred;
  `ListenRegistry` is the code, an ordered table scanned from a path to its last extension. `OnModel` and
  `OnRegistry` are the subscriptions and the dispatch of a data push, `Notify` the exactness of its
  notifications, `Callbacks` the callback lists and the references they stand for, `Drops` what a dispatch
  queues for removal.
- **The client.** `ClientRuns` is the state machine of the whole client and what every run of it keeps: the
  conservation of references, and exact notification. `OnApi` is the code; each of its methods takes a step of
  that machine. `ValueChange` restates notification in terms of values, `Announcing` is about what a registration
  tells and in which order callbacks are told, and `Unheard` holds two runs in which notification fails.
- **Stand-alone parts.** `Sha1` and `Sha1Context`, with `Sha1Blocks` and `Sha1Examples` for the values of the
  standard, `PushId`, `Buffers`, `JsonText` and `JsonDoc`, `CacheText`
  (the JSON text of a cached value), `PathText`.

Reading guide: a `class` updates its fields as the C code updates its structs, and each of its methods is
tied by its postconditions to a function on values; the theorems are about those functions and about whole
runs of them.

## Assumptions

- Keys are strings whose integer spellings are canonical decimals inside one window of 2^31 values
  (`Keys.Canonical`); a key is then its value (`Index`) or its text (`Name`). `Keys.KeyCmpZero`,
  `Keys.KeyCmpSign`, `Keys.KeyCmpCircle` and `Keys.KeyCmpExamples` say what the comparison does outside that domain.
- SHA-1 followed by base 64 is a function parameter `sha` of the cache and subscription layers. Where a statement
  is about changes of values and not of hashes, it assumes that this digest does not collide on the texts that it is
  given there (`Separation.Distinguishes`, `HashText.TellsApart`). `%.16g` is a function parameter of `CacheText`; it
  gives numbers of JSON, or `nan` and `inf` with or without a sign.
- Callbacks are log entries. Their answers (keep or drop) are a function parameter; they do not call back
  into the library, so what a dispatch queued for removal is collected before the next call. A callback asks to be
  dropped at most once in a dispatch; `OnApi.Client.ReceivePut` says what happens otherwise.
- The random bytes and the clock of push ids are parameters. SHA-1 is modelled on a little-endian host.
- `char` stands for one byte; a C string has no NUL before its end.

## Findings

- `wc_datasync_key_cmp` narrows a 64-bit difference to `int`, so the sign is that of the difference modulo 2^32,
  read as a signed number (`Keys.KeyCmpSign`). It is right whenever the difference fits in `int`; beyond, keys can
  compare in a circle (`Keys.KeyCmpCircle`).
- Removal from the container can leave a node out of balance (`AvlTree.RemovalCanUnbalance`); it cannot when
  the removed node has no left child or a right subtree of height at most 2 (`AvlTree.RemoveKeepsBalance`).
- The live listens stop being an antichain in exactly three ways (`ListenModel.RunAntichain`): a refused listen is
  retried under a live ancestor, a dropped listen uncovers one beside a live one, or an answer confirms an item
  that is not live beside one that is. Where nothing was refused, the second means that a masked listen with
  something below is dropped, and the third that a masked listen is confirmed; both happen
  (`ListenModel.UncoversHappens`, `ListenModel.RevivesHappens`).
- Registering a value callback can leave a stale stored hash: exactly when nothing is cached at the path, no
  ancestor is listened to, the context is not disconnected and an older hash is stored (`OnApi.Client.On`). The
  callback then misses the return of the old value (`Unheard.ReturnUnheard`).
- Registering a child callback stores the children only if it is for added children and there is a map; otherwise
  they stay out of step if they were (`OnApi.Client.On`), in particular when the first callback at a path that has
  children is for changed or removed ones. A callback for removed children then misses the removal of a child that
  was cached before (`Unheard.RemovalUnheard`). Such registrations are the only way in which what is stored gets
  out of step with the cache (`ClientRuns.RunInStep`).
- A key that holds a colon is not kept apart from the text around it when a map is digested: `{"a":true,"b":true}`
  and a map with one suitable key have one hash (`ValueChange.ColonHides`), so a put that replaces the one by the
  other is not notified (`ValueChange.ColonUnheard`). Without such keys, and without collisions of the digest, the
  hashes tell all values apart (`Separation.HashSeparates`).
- `treenode_to_json` writes a comma after a child when only null children follow, and `%.16g` gives `nan` and
  `inf`; the text then is not JSON, and these are the only cases (`JsonDoc.PrintReadsBack`). Puts and merges never
  build a tree with null children (`CacheText.RunPrintsBack`); `data_cache_set_leaf` does
  (`CacheText.NullLeafHangs`).

## Model

| member | source | states |
|---|---|---|
| Keys.StrCmpAntisymmetric | lib/datasync/path.c:195-198 | the byte comparison of non-integer keys is antisymmetric and zero only on equal strings |
| Keys.StrCmpTransitive | lib/datasync/path.c:195-198 | and transitive |
| Keys.StrCmpFirst | lib/datasync/path.c:195-198 | it is decided at the first byte that differs, and a string comes before its extensions |
| Keys.KeyCmpOfNames | lib/datasync/path.c:195-198 | so is the key comparison of any two strings that are no integers |
| Keys.ScanExamples | lib/datasync/path.c:188-193 | hexadecimal, octal, signed and spaced spellings, and strings that are no integers |
| Keys.KeyOrdAntisymmetric | lib/datasync/path.c:178-211 | the key order is antisymmetric, with zero exactly on equal keys |
| Keys.KeyOrdTransitive | lib/datasync/path.c:178-211 | the key order is transitive: integers by value, then strings |
| Keys.KeyCmpIsKeyOrd | lib/datasync/path.c:178-211 | on canonical strings the comparison, with its `%i` scan and its narrowing, is the key order, and zero means the same string |
| Keys.SpellRoundTrip | lib/datasync/path.c:188-193 | every 64-bit integer in canonical decimal, and every non-integer string, is read back as the key it spells |
| Keys.ScanSaturates | lib/datasync/path.c:188-193 | decimals beyond 64 bits are read as the nearest 64-bit integer |
| Keys.KeyCmpZero | lib/datasync/path.c:195-208 | for arbitrary strings, exactly when they compare equal |
| Keys.KeyCmpSign | lib/datasync/path.c:206 | for any two 64-bit integers: positive, negative or zero according to the difference modulo 2^32, read as a signed number; right whenever the difference fits in `int` |
| Keys.KeyCmpCircle | lib/datasync/path.c:206 | three integer keys that compare in a circle, each below the next |
| Keys.KeyCmpExamples | lib/datasync/path.c:178-211 | `-0` and `00` compare equal; 2 sorts before 10 and integers before names |
| Paths.ComparePaths | lib/datasync/path.c:213-229 | the loop computes the lexicographic order, a path before its extensions |
| Paths.StartsWith | lib/datasync/path.c:244-258 | the loop decides the prefix relation |
| Paths.PathCmpAntisymmetric | lib/datasync/path.c:213-229 | the path order is antisymmetric, zero exactly on equal paths |
| Paths.PathCmpTransitive | lib/datasync/path.c:213-229 | the path order is transitive |
| Paths.PathCmpFirst | lib/datasync/path.c:213-229 | the path order is decided at the first part that differs, by the key order, and a path comes before its extensions |
| Paths.PrefixFirst | lib/datasync/path.c:213-258 | a path is not after any of its extensions |
| Paths.ExtensionsContiguous | lib/datasync/path.c:213-258 | P <= R <= Q with P a prefix of Q forces P to be a prefix of R |
| PathText.PartsAsKeys | lib/datasync/path.c:213-258 | on canonical part strings the comparison and the `strcmp` prefix test are the order and the prefix relation of key paths |
| PathText.ScanParts | lib/datasync/path.c:67-116 | the two-state scan finds exactly the first 32 maximal runs without a slash and terminates each in the copy |
| PathText.Parse | lib/datasync/path.c:56-154 | for strings up to 65536 bytes the parts are the first 32 non-empty segments, part by part wherever it begins below 65536; the normal form is that of the parts |
| PathText.LimitIs | lib/datasync/path.h:30 | no more than 32 parts are kept |
| PathText.WriteNorm | lib/datasync/path.c:127-143 | the measured buffer is filled exactly by the normal form |
| PathText.NormRoundTrip | lib/datasync/path.c:127-148 | parsing the normal form gives the same parts |
| PathText.SegmentsJoin | lib/datasync/cache/treenode_cache.c:274-277 | joining two strings with a slash joins their segments |
| PathText.MergePath | lib/datasync/cache/treenode_cache.c:268-277 | whatever the name of a merged member, cut at 256 bytes, it is put at the path of the message or below it: at the first 32 of the joined segments |
| PathText.MergePathPart | lib/datasync/cache/treenode_cache.c:274-277 | a name that is one part goes exactly one level below |
| PathText.HashParsed | lib/datasync/path.c:231-242 | the hash of a parsed path as a fold over its parts |
| PathText.HashIsBase33 | lib/hash.c:25-30 | that fold is the text of the path between slashes, read in base 33 from 5381, modulo 2^64 |
| PathText.HashExamples | lib/hash.c:64-85 | the hashes of the empty path and of /a |
| PathText.HashRaw | lib/hash.c:64-85 | hashing the raw string gives the hash of its segments, hence that of the parsed path when it has at most 32 parts |
| AvlTree.BalanceKeepsOrder | lib/collection/avl.c:119-135 | one rebalancing keeps the in-order contents and exact heights, whatever the imbalance |
| AvlTree.BalanceRepairs | lib/collection/avl.c:119-135 | one rebalancing repairs every imbalance of two between balanced subtrees and raises the height by at most one |
| AvlTree.InsertInserts | lib/collection/avl.c:137-162 | insertion adds exactly the element, at the place the order gives it |
| AvlTree.InsertKeepsBalance | lib/collection/avl.c:137-162 | insertion into a balanced tree yields a balanced tree, at most one higher |
| AvlTree.MovRConcatenates | lib/collection/avl.c:204-209 | splicing two subtrees concatenates their contents |
| AvlTree.GetFinds | lib/collection/avl.c:164-184 | search finds an element that compares equal if and only if there is one |
| AvlTree.RemoveRemoves | lib/collection/avl.c:211-242 | removal deletes exactly the element that compares equal and keeps the order |
| AvlTree.RemoveKeepsBalance | lib/collection/avl.c:204-235 | removal keeps the balance when the removed node has no left child or a right subtree of height at most 2 |
| AvlTree.RemovalCanUnbalance | lib/collection/avl.c:204-235 | a family of balanced trees of seven nodes whose removal at the root leaves an imbalance of two |
| AvlTree.RunRefines | lib/collection/avl.c:86-242 | after any run of insertions and removals: search order, exact heights, count equal to the number of elements, and an element is present iff the last operation on it was an insertion |
| AvlTree.InsertRunBalanced | lib/collection/avl.c:137-202 | any run of insertions is balanced |
| AvlTree.SortedUnique | lib/collection/avl.c:250-311 | two containers with the same elements are walked in the same order, whatever their shapes |
| AvlHeap.UpdateHeight | lib/collection/avl.c:86-95 | on linked nodes: stores the exact height |
| AvlHeap.RotateLeft | lib/collection/avl.c:101-108 | relinks two nodes in place to the left rotation, keeping the nodes a tree |
| AvlHeap.RotateRight | lib/collection/avl.c:110-117 | and to the right rotation |
| AvlHeap.Rebalance | lib/collection/avl.c:119-135 | the in-place rebalancing; exact heights make every dereference safe |
| AvlHeap.InsertRec | lib/collection/avl.c:137-162 | the linked insertion leaves the tree that `AvlTree.Insert` computes |
| AvlHeap.MoveRight | lib/collection/avl.c:204-209 | the linked splice |
| AvlHeap.RemoveRec | lib/collection/avl.c:211-235 | the linked removal, touching no node when the key is absent |
| AvlContainer.AvlSet.Find | lib/collection/avl.c:164-184 | the search loop |
| AvlContainer.AvlSet.Insert | lib/collection/avl.c:186-202 | refuses a present key, otherwise adds the element in order, adds one to the count and keeps a balanced tree balanced |
| AvlContainer.AvlSet.Remove | lib/collection/avl.c:237-242 | deletes exactly the element with that key, or changes nothing |
| AvlContainer.AvlIter.Start | lib/collection/avl.c:250-265 | the iterator stands before the first element, and the stack fits |
| AvlContainer.AvlIter.StartAt | lib/collection/avl.c:267-290 | the iterator stands before the first element not below the key |
| AvlContainer.AvlIter.Next | lib/collection/avl.c:292-311 | returns the next element in order, or nothing at the end, without overflowing 32 slots |
| AvlContainer.AvlIter.PeekPrev | lib/collection/avl.c:329-343 | after a next, the in-order predecessor in the whole container, also when the iteration began in the middle |
| AvlContainer.CollectFrom | lib/collection/avl.c:267-311 | a whole iteration from a key yields exactly the elements not below it, in order |
| AvlWalk.SeekAt | lib/collection/avl.c:267-290 | the descent leaves a stack that yields everything from the lower bound on, and the right turn that precedes it |
| AvlWalk.NextAt | lib/collection/avl.c:292-311 | popping and pushing the right spine moves the iterator by one element |
| AvlWalk.ThirtyTwoSlots | lib/collection/avl.h:50-57 | every balanced tree with fewer than 9227464 nodes has height at most 32 |
| PathContainer.FindPlace | lib/collection/avl.c:164-184 | searching the container by path is searching the table |
| PathContainer.TableInsert | lib/datasync/listen/listen_registry.c:146-162 | a container ordered by paths inserts at the table's place and refuses a present path |
| PathContainer.TableRemove | lib/datasync/listen/listen_registry.c:164-181 | and removes the entry of the path |
| PathContainer.TableScan | lib/datasync/on/on_registry.c:481-485 | a scan from a path yields the table from its lower bound on |
| PathContainer.NewTable | lib/datasync/listen/listen_registry.c:65-75 | a new container is the empty table |
| PathTable.FindSpec | lib/collection/avl.c:164-184 | a path is found exactly when the table maps it |
| PathTable.InsertSpec | lib/collection/avl.c:186-202 | insertion keeps the order and adds one mapping |
| PathTable.ScanStops | lib/datasync/listen/listen_registry.c:217-223 | a scan that stops at the first entry that is no extension has met all extensions |
| ListenRegistry.Listens.CheckMasked | lib/datasync/listen/listen_registry.c:82-106 | true iff some strict prefix is registered as required, pending or active |
| ListenRegistry.Listens.MaskRequests | lib/datasync/listen/listen_registry.c:240-258 | masks exactly the live strict extensions and sends an unlisten for each active one |
| ListenRegistry.Listens.UnmaskRequests | lib/datasync/listen/listen_registry.c:212-238 | reopens exactly the topmost masked descendants, despite the early stop and the single remembered top path |
| ListenRegistry.Listens.WatchPath | lib/datasync/listen/listen_registry.c:193-210 | takes the watch step: reference, mask or open, mask below, messages |
| ListenRegistry.Listens.UnwatchPath | lib/datasync/listen/listen_registry.c:260-265 | takes the unwatch step |
| ListenRegistry.Listens.ListenResult | lib/datasync/listen/listen_registry.c:183-191 | takes the result step for a registered item |
| ListenRegistry.Listens.SuspendAll | lib/datasync/listen/listen_registry.c:108-120 | every active or pending item becomes required, and nothing else changes |
| ListenRegistry.Listens.ResumeAll | lib/datasync/listen/listen_registry.c:122-135 | every required item becomes pending and is listened to again |
| ListenRegistry.Listens.Connect | lib/datasync/datasync.c:315-323 | connecting is entered from disconnected only |
| ListenRegistry.Listens.Handshake | lib/datasync/datasync.c:47-62 | the handshake connects and resumes, unless the context is disconnecting |
| ListenRegistry.Listens.Close | lib/datasync/datasync.c:235-247 | a connected or connecting context becomes disconnecting |
| ListenRegistry.Listens.Closed | lib/datasync/datasync.c:174-195 | a closed or failed connection disconnects and suspends |
| ListenModel.StepCovered | lib/datasync/listen/listen_registry.c:82-265 | every step keeps: a masked item has a registered strict prefix that is not masked |
| ListenModel.RunCovered | lib/datasync/listen/listen_registry.c:82-265 | so in every run, refusals and stray results included |
| ListenModel.RunLive | lib/datasync/listen/listen_registry.c:82-265 | in runs without a refusal every watched path has itself or an ancestor required, pending or active |
| ListenModel.StepAgrees | lib/datasync/datasync.c:47-62 | every step keeps: disconnected or connecting means nothing is pending, active or held by the server; connected means nothing is required and the server holds every live item and nothing unregistered |
| ListenModel.RunAgrees | lib/datasync/datasync.c:174-247 | so in every run whose responses arrive between handshake and close |
| ListenModel.RunServed | lib/datasync/listen/listen_registry.c:122-135 | while connected, and if no listen was refused, the server listens on every watched path or an ancestor of it |
| ListenRuns.StepTracked | lib/datasync/listen/listen_registry.c:183-258 | every step keeps: while connected, an item is active iff its last listen was confirmed and it was not masked or dropped since, and the server holds only paths that are live, or masked with the answer outstanding |
| ListenRuns.RunTracked | lib/datasync/listen/listen_registry.c:183-258 | so in every run whose answers come in time |
| ListenRuns.RunSettled | lib/datasync/listen/listen_registry.c:183-258 | when every listen has been answered, the server holds exactly the live paths, and these are the active ones |
| ListenRuns.RunState | lib/datasync/datasync.c:174-247 | in every run the connection state is what the events since the last close or failure say: opened, shaken hands, shut down |
| ListenRuns.RunShut | lib/datasync/datasync.c:235-247 | from a shutdown until the connection is closed or failed, the session is disconnecting and the server gains no listen |
| ListenRuns.RunReconnects | lib/datasync/datasync.c:315-323 | after that a handshake connects again |
| ListenModel.WatchAntichain | lib/datasync/listen/listen_registry.c:193-210 | watching keeps the live paths an antichain if and only if it does not retry a refused listen under a live ancestor |
| ListenModel.UnwatchAntichain | lib/datasync/listen/listen_registry.c:212-265 | unwatching keeps it if and only if no masked item it reopens has a live item above or below |
| ListenModel.ResultAntichain | lib/datasync/listen/listen_registry.c:183-191 | an answer keeps it if and only if it does not confirm an item that is not live and has a live item above or below |
| ListenModel.StepAntichain | lib/datasync/listen/listen_registry.c:82-265 | from an antichain, a step leads to one if and only if it is outside those three families |
| ListenModel.RunAntichain | lib/datasync/listen/listen_registry.c:82-265 | in every run, refusals included: no live path is ever a strict prefix of another if and only if no step is in those families |
| ListenModel.UncoversMasked | lib/datasync/listen/listen_registry.c:212-265 | without refusals, the unwatch family is: dropping the last reference of a masked item with something registered below |
| ListenModel.RevivesMasked | lib/datasync/listen/listen_registry.c:183-191 | without refusals, the answer family is: confirming a masked item |
| ListenModel.CarefulRunAntichain | lib/datasync/listen/listen_registry.c:146-258 | so in runs without refusals, without answers to masked items and without such drops, no live path is a strict prefix of another |
| ListenModel.UncoversHappens | lib/datasync/listen/listen_registry.c:212-265 | watching three nested paths and dropping the middle one breaks the antichain |
| ListenModel.RevivesHappens | lib/datasync/listen/listen_registry.c:183-191 | an ancestor watched before the answer to a listen comes, in time, breaks it too |
| Kids.KAddSpec | lib/datasync/cache/treenode.c:120-178 | adding an absent child changes what is found under that key only |
| Kids.KDelSpec | lib/datasync/cache/treenode.c:114-118 | removing a child likewise |
| CacheTree.GetPutSame | lib/datasync/cache/treenode_cache.c:192-212 | a get at P after a put at P returns the value, or nothing for a null below the root |
| CacheTree.GetPutOther | lib/datasync/cache/treenode_cache.c:192-212 | gets at paths incomparable with P are unchanged |
| CacheTree.GetPutBelow | lib/datasync/cache/treenode_cache.c:192-212 | below P only the new value is seen |
| CacheTree.GetPutAbove | lib/datasync/cache/treenode_cache.c:310-345 | above P there are internal nodes that keep every sibling, also where leaves were replaced |
| CacheTree.BuildSpec | lib/datasync/cache/treenode_cache.c:214-260 | the tree of a document stands for the document with nulls pruned and arrays keyed by index |
| Documents.ValueShows | lib/datasync/cache/treenode_cache.c:214-260 | at every path, the value of a document shows what following the path in the document by member name and array index leads to: the leaf itself, a map for an array or object, nothing for null or outside |
| Documents.PutShows | lib/datasync/cache/treenode_cache.c:192-212 | after a put at P, the same holds at and below P |
| Documents.MergeShows | lib/datasync/cache/treenode_cache.c:263-284 | and after a merge at and below the path of each member that no later one touches |
| CacheTree.SetAtSpec | lib/datasync/cache/treenode_cache.c:192-212 | the put on trees of AVL trees is the put on maps of maps, and keeps every container valid |
| CacheTree.GetNodeSpec | lib/datasync/cache/treenode_cache.c:353-366 | the recursive get is the get on maps of maps |
| Merkle.MkPathIsMake | lib/datasync/cache/treenode_cache.c:310-351 | making a path turns leaves on the way into empty maps and keeps everything else |
| Merkle.MakeGet | lib/datasync/cache/treenode_cache.c:310-351 | after making a path there are maps along it and every other path leads where it did |
| Merkle.MergeGet | lib/datasync/cache/treenode_cache.c:263-284 | after a merge a member's value is found at its path, or nothing if it is null below the root, unless a later member was put above, at or below that path |
| Merkle.MergeOther | lib/datasync/cache/treenode_cache.c:263-284 | a merge leaves alone whatever is incomparable with its members |
| Merkle.HashGetSpec | lib/datasync/cache/treenode.c:274-347 | reading a hash returns the hash from scratch, leaves only correct memos and changes nothing else |
| Merkle.SetAtCoherent | lib/datasync/cache/treenode_cache.c:310-345 | after a put no memo is stale: dropping memos along the path suffices |
| Merkle.ApplySpec | lib/datasync/cache/treenode_cache.c:63-351 | every operation keeps the tree valid and its memos correct and does to the map of maps what it should |
| Merkle.Run | lib/datasync/cache/treenode_cache.c:63-351 | after any interleaving of puts, merges, leaf puts, path makings and hash reads, every memo is the hash from scratch and the tree stands for the map of maps |
| Merkle.HashOfContents | lib/datasync/cache/treenode.c:274-321 | the hash depends on the contents only, never on AVL shape or insertion order |
| Separation.LastPiece | lib/datasync/cache/treenode.c:304-311 | the last child of a digested text can be read off its end: its key and its hash are determined |
| Separation.HashSeparates | lib/datasync/cache/treenode.c:274-347 | two nodes have the same hash if and only if they hold the same values, null children aside, provided that no key holds a colon and the digest does not collide on the texts involved |
| ValueChange.LeafTextsAre | lib/datasync/cache/treenode.c:290-299 | the digested texts of a number and of a string |
| ValueChange.MapTextIs | lib/datasync/cache/treenode.c:300-313 | and of a map |
| ValueChange.ColonHides | lib/datasync/cache/treenode.c:304-311 | a key with a colon can give two different values one hash, whatever the digest is |
| ValueChange.ColonUnheard | lib/datasync/on/on_registry.c:393-424 | the put that replaces the one by the other invokes no value callback at its path |
| HashText.BooleanHashes | lib/datasync/cache/treenode.c:259-268 | the fixed hashes of booleans are SHA-1 and base 64 of "boolean:true" and "boolean:false" |
| HashText.Base64Injective | lib/base64.c:87-103 | base 64 of twenty bytes loses nothing |
| HashText.TellsApart | lib/datasync/cache/treenode.c:274-347 | with SHA-1 and base 64 as the digest, that proviso is that SHA-1 does not collide on those texts and the two of the booleans |
| DataCache.Cache.Set | lib/datasync/cache/treenode_cache.c:192-212 | the put on the cache object; at and below its path the value shows the document |
| DataCache.Cache.MergeDoc | lib/datasync/cache/treenode_cache.c:263-284 | a merge is the successive puts of its members, at any paths at or below its own |
| DataCache.Cache.Get | lib/datasync/cache/treenode_cache.c:353-366 | the get on the cache object |
| DataCache.Cache.Hash | lib/datasync/cache/treenode.c:323-347 | reading a hash keeps the value and all other hashes |
| DataCache.HashBytesOfValue | lib/datasync/cache/treenode.c:274-347 | hash and child hashes at a path are determined by the value there |
| OnModel.ChildEvents | lib/datasync/on/on_registry.c:294-351 | the two-iterator loop computes the sorted-merge diff, and `refresh` is set exactly when there is an event |
| OnModel.DiffExact | lib/datasync/on/on_registry.c:321-344 | an event is emitted iff its key is new, gone or rehashed accordingly, with the true predecessor among the cached children |
| OnModel.DiffAscending | lib/datasync/on/on_registry.c:321-344 | events come in strictly ascending key order, so at most one per key |
| OnModel.DiffEmpty | lib/datasync/on/on_registry.c:346-348 | without an event the stored hashes are already the current ones |
| OnRegistry.Registry.Trig | lib/datasync/on/on_registry.c:426-437 | one subscription: its child and value callbacks are invoked as the stored hashes say, and what is watched is stored |
| OnRegistry.Registry.Dispatch | lib/datasync/on/on_registry.c:439-485 | runs `trig` exactly once on each subscription whose path is a prefix or an extension of P and on no other |
| OnRegistry.DroppedSubscribed | lib/datasync/on/on_registry.c:248-254 | only registered callbacks are queued for removal |
| Drops.CallOnce | lib/datasync/on/on_registry.c:439-485 | one dispatch makes no invocation twice |
| Drops.QueueUnique | lib/datasync/on/on_registry.c:248-254 | the queue repeats a handle if and only if its callback asks to be dropped in two invocations |
| Drops.DispatchQueues | lib/datasync/on/on_registry.c:248-254 | a dispatch queues registered callbacks only, none twice if each asks once |
| Notify.DispatchExact | lib/datasync/on/on_registry.c:393-488 | after a change below P a dispatch at P invokes exactly the value callbacks whose hash changed, as often as registered, and stores the new hashes |
| Notify.DispatchKids | lib/datasync/on/on_registry.c:294-351 | and exactly the child callbacks of keys that appeared, vanished or changed, with true predecessors, and stores the new children |
| Notify.PushPut | lib/datasync/datasync.c:66-68 | a put message: the cache takes the put, `trig` runs once on each touching subscription with the new tree; stored hashes and children that matched match again; callbacks fire exactly for what changed |
| Notify.PushMerge | lib/datasync/datasync.c:69-72 | a merge message: the same |
| ValueChange.SameAtPath | lib/datasync/cache/treenode.c:323-347 | the hash at a path changes if and only if the value does, for values without null children that the hashes tell apart |
| ValueChange.ByValue | lib/datasync/on/on_registry.c:393-424 | so exact notification by hashes is exact notification by values |
| ValueChange.KidsByValue | lib/datasync/on/on_registry.c:294-351 | and likewise for children that appear, vanish or change their value, with the previous key in the new value |
| Callbacks.Prune | lib/datasync/on/on_registry.c:361-381 | unlinking removes exactly the given callback, or all, from the lists of the mask and counts them |
| OnApi.Client.Remove | lib/datasync/on/on_registry.c:353-391 | removal drops a subscription when its four lists are empty |
| Callbacks.OnKeeps | lib/datasync/on/on_api.c:33-66 | one callback registered and one reference taken keep callbacks and references equal |
| Callbacks.OffKeeps | lib/datasync/on/on_api.c:68-89 | any off drops at most the references there are and keeps callbacks and references equal, without assuming that the path or the handle is registered |
| Callbacks.CollectKeeps | lib/datasync/on/on_registry.c:256-272 | one queued callback dropped keeps them equal and the other queued ones registered |
| Callbacks.WithoutExact | lib/datasync/on/on_registry.c:353-391 | a removal leaves, in each list of each path, every callback as often as before, except those of the mask and handle at that path |
| Callbacks.DropAllExact | lib/datasync/on/on_registry.c:256-272 | collecting a queue removes exactly the queued handles from their paths |
| OnApi.Client.Add | lib/datasync/on/on_registry.c:153-232 | links the callback first in its list, invokes it once for each thing there is to tell, and stores what a value callback or one for added children was told |
| OnApi.Client.On | lib/datasync/on/on_api.c:33-66 | takes the registration step and tells the callback exactly what is due; a value hash is in step afterwards iff it was announced or nothing was stored; stored children are in step iff they were before, or the callback is for added children and there is a map |
| OnApi.Client.Announce | lib/datasync/on/on_registry.c:190-229 | the initial invocations: the value once, or every child in order with its predecessor; the hash or the children are stored accordingly, and nothing for changed and removed children |
| OnApi.Client.Off | lib/datasync/on/on_api.c:68-89 | off, off_path and off_path_type take the unregistration step, with as many references dropped as callbacks were unlinked, which the reference assertion allows, and invoke nothing |
| OnApi.Client.CollectOne | lib/datasync/on/on_registry.c:256-272 | one turn of the collection takes the collection step |
| OnApi.Client.CollectAll | lib/datasync/on/on_registry.c:256-272 | the whole loop: exactly the queued handles are removed, one listen reference is dropped for each, in order, and nothing is invoked |
| OnApi.Client.ReceivePut | lib/datasync/datasync.c:63-72 | a put message up to the collection: the callback lists are kept, notification is exact, the queue repeats nothing iff each callback asks once to be dropped, and then it is the push step |
| OnApi.Client.ReceiveMerge | lib/datasync/datasync.c:63-72 | a merge message likewise |
| OnApi.Client.PutMessage | lib/datasync/datasync.c:66-68 | a whole put message is a push step followed by the collection steps, for every answers by which a callback asks at most once |
| OnApi.Client.MergeMessage | lib/datasync/datasync.c:69-72 | a whole merge message likewise |
| OnApi.Client.Network | lib/datasync/datasync.c:174-247 | a connection event takes its listen step and changes no reference |
| ClientRuns.AlwaysAllowed | lib/datasync/listen/listen_registry.c:164-181 | when callbacks and references agree, no step of the client asks for more references than there are, so the assertion holds |
| ClientRuns.StepKeeps | lib/datasync/on/on_api.c:33-89 | every registration, unregistration, data push, collection and connection event keeps that agreement, the order of stored children, and that what is queued is registered and queued once |
| ClientRuns.RunConserved | lib/datasync/on/on_api.c:33-89 | in every run, at every path, the four lists hold as many callbacks as the listen has references, a listen exists exactly where there are callbacks, and every masked listen is covered |
| ClientRuns.RunAssertion | lib/datasync/listen/listen_registry.c:164-181 | in every run the assertion on references holds for whatever is unregistered next |
| ClientRuns.RunPresent | lib/datasync/on/on_registry.c:153-232 | in every run, whatever is registered at a path was registered there by an earlier call |
| ClientRuns.CollectsSpec | lib/datasync/on/on_registry.c:256-272 | collecting a whole queue drops exactly its handles and as many references |
| ClientRuns.RegisterInStep | lib/datasync/on/on_registry.c:190-229 | if all that is stored agrees with the cache, it does after a registration if and only if that registration hears: it is announced or finds nothing stale, or finds the children stored or is told all of them |
| ClientRuns.StepInStep | lib/datasync/on/on_registry.c:153-488 | and every other step keeps the agreement |
| ClientRuns.RunInStep | lib/datasync/on/on_registry.c:153-488 | in every run, all that is stored agrees with the cache for exactly as long as every registration hears |
| ClientRuns.RunNotifies | lib/datasync/datasync.c:63-72 | in every run whose registrations hear, every put and merge message notifies exactly: value callbacks once iff the hash changed, child callbacks once per key that appeared, vanished or changed |
| ValueChange.RunNotifiesValues | lib/datasync/datasync.c:63-72 | in every run whose registrations hear, every put and merge message whose values the hashes tell apart invokes each value callback exactly if its value changed, and child callbacks exactly for the children that appeared, vanished or changed |
| Announcing.KidCallsAreDiff | lib/datasync/on/on_registry.c:207-226 | the initial calls of a callback for added children are those of a dispatch from nothing stored |
| Announcing.ToldTells | lib/datasync/on/on_registry.c:190-229 | a registration calls a value callback once iff it is announced, one for added children once for each child that is there with the key before it, and nothing else |
| Announcing.RunTells | lib/datasync/on/on_registry.c:190-229 | so in every run does every registration |
| Announcing.AnnouncedCases | lib/datasync/on/on_registry.c:190-194 | every value callback is announced on a fresh context and under a listened path, none where nothing is known on a connection |
| Announcing.RunInTurn | lib/datasync/on/on_registry.c:439-485 | in every run a data push invokes callbacks in the order of the paths, for one subscription child events in the order of the keys and then the value |
| Announcing.RunNewest | lib/datasync/on/on_registry.c:170-188 | in every run each callback list stands from the newest registration to the oldest |
| Unheard.RemovalUnheard | lib/datasync/on/on_registry.c:207-226 | a callback for removed children registered where a child is cached is not invoked when that child vanishes |
| Unheard.ReturnUnheard | lib/datasync/on/on_registry.c:190-206 | a value callback registered over a stale hash is not invoked when the old value returns |
| Unheard.DriveRemoval | lib/datasync/on/on_registry.c:207-226 | the client takes the first of these runs |
| Unheard.DriveReturn | lib/datasync/on/on_registry.c:190-206 | and the second |
| Sha1.SwapIsBigEndian | lib/sha1.c:34-35 | the masked rotations turn a little-endian word big-endian |
| Sha1.PickIsF | lib/sha1.c:45-49 | the round macros compute the functions of section 4.1.1 of FIPS 180-4 |
| Sha1.Op | lib/sha1.c:41-49 | one macro use in place, with rotated register names and sixteen words, is one standard round on the standard's schedule word |
| Sha1.Transform | lib/sha1.c:53-171 | the block transformation equals the 80-word computation of section 6.1.2 of FIPS 180-4 |
| Sha1Blocks.KIsRoot | lib/sha1.c:45-49 | each round constant is the integer part of 2^30 times the square root of 2, 3, 5 or 10 |
| Sha1Examples.AbcDigest | lib/sha1.c:53-265 | the digest of the one-block example of FIPS 180-4 |
| Sha1Examples.TwoDigest | lib/sha1.c:53-265 | the digest of its two-block example |
| Sha1Context.CountUp | lib/sha1.c:192-195 | the split bit counter with its carry test counts modulo 2^64 |
| Sha1Context.Context.Update | lib/sha1.c:187-207 | any input of less than 2^32 bytes with the buffered ones is absorbed |
| Sha1Context.Context.Final | lib/sha1.c:211-254 | the digest of everything fed in, padded as in section 5.1.1 of FIPS 180-4, and a wiped context |
| Sha1Context.HashChunks | lib/sha1.c:175-254 | however a message is cut into chunks of at most 2^32-64 bytes, the digest is the standard's |
| Sha1Context.HashString | lib/sha1.c:256-265 | the one-call form, byte by byte |
| PushId.Encode | lib/datasync/datasync_utils.c:55-73 | the backward encoder writes the base-64 text of its input and nothing else |
| PushId.AlphabetIs | lib/datasync/datasync_utils.c:56-57 | the alphabet |
| PushId.EncodedMonotone | lib/datasync/datasync_utils.c:55-73 | texts compare like the bytes they encode, in both directions |
| PushId.CarryIsIncrement | lib/datasync/datasync_utils.c:118-132 | the split 64+8-bit increment is one big-endian +1 on nine bytes |
| PushId.PushState.PushId | lib/datasync/datasync_utils.c:93-138 | writes the id of the new state: 48 bits of time and the 72-bit counter, redrawn when the time changes |
| PushId.AdvanceIs | lib/datasync/datasync_utils.c:98-134 | the counter is drawn at random at a new time, and counts up by one modulo 2^72 at an unchanged one |
| PushId.IdLength | lib/datasync/datasync_utils.c:93-138 | every id is twenty bytes long |
| PushId.IdOrder | lib/datasync/datasync_utils.c:93-138 | ids compare like (time, counter) |
| PushId.NextIdFollows | lib/datasync/datasync_utils.c:93-138 | an id follows its predecessor if and only if the counter is not exhausted at an unchanged time |
| PushId.IdsAscend | lib/datasync/datasync_utils.c:93-138 | the ids of a run are strictly ascending if and only if the counter never runs out |
| JsonText.EscapeFits | lib/datasync/json.c:25-48 | the announced length is enough, and exact iff no character needs the long escape |
| JsonText.EscapeInto | lib/datasync/json.c:50-98 | in a buffer of the announced length, writes the quoted text and nothing else |
| JsonText.MeasureString | lib/datasync/json.c:25-48 | computes the announced length |
| JsonText.EscapeReadsBack | lib/datasync/json.c:50-98 | reading the escaped text by section 7 of RFC 8259 gives the string back, wherever it stands in a text |
| JsonText.EscapeExamples | lib/datasync/json.c:50-98 | the short escapes and two long ones |
| JsonDoc.PrintFits | lib/datasync/cache/treenode.c:349-441 | the text never exceeds the announced length, and meets it iff there is no long escape and no null child except in last place |
| JsonDoc.PrintInto | lib/datasync/cache/treenode.c:393-441 | in a buffer with room for the announced length and a terminator, writes the text, terminates it and touches nothing else |
| JsonDoc.Measure | lib/datasync/cache/treenode.c:349-391 | computes the announced length |
| JsonDoc.PrintReadsBack | lib/datasync/cache/treenode.c:393-441 | the text reads back as the document without nulls if and only if every number is finite and no child is followed by null children only; otherwise it is not JSON |
| JsonDoc.HangingCommaExample | lib/datasync/cache/treenode.c:424-426 | the smallest tree whose text is not JSON |
| CacheText.TextOfContents | lib/datasync/cache/treenode.c:393-441 | the text depends on the contents only, not on AVL shape |
| CacheText.RunPrintsBack | lib/datasync/cache/treenode.c:393-441 | after any run of the cache that stores no null, its text is one JSON document that reads back exactly if and only if every stored number is finite |
| CacheText.NullLeafHangs | lib/datasync/cache/treenode_cache.c:63-119 | a cache built by two leaf puts, the second of a null, whose text is not JSON |

## Left out

- AvlTree.RemoveKeepsBalance: gives a sufficient condition only; with a taller right subtree the outcome depends on its lean, on the lean of its left child, and on the heights along the whole right spine of the left subtree.
- AvlContainer.AvlIter.Start: presupposes a tree of height at most 32, as the code's fixed stack does; removals that unbalance the tree can exceed it.
- PathText.Parse: offsets are stored in 16 bits, so a part that begins beyond byte 65535 is not claimed to be read correctly.
- DataCache.Cache.Set: the nodes of the cache are values and a put replaces the root, so pointers that callers hold into the tree across a put are not modelled.
- OnApi.Client.CollectAll: a handle queued twice in one dispatch (a callback that asks to be dropped on two child events) is excluded; the code then frees it twice.
- OnRegistry.Registry.Dispatch: the registry is the table of `PathTable`, linked to the container by `PathContainer`; the JSON snapshot handed to a callback is not part of the log.
- ListenModel.RunAgrees: a response that arrives for an item that was removed and registered again is not modelled; the code keeps a dangling pointer there.
- Trees with null children that `treenode_from_json_r` builds, and `data_cache_merge_ex`, which nothing calls.
- lib/collection/ht.c, message parsing and building, the request table, base 64 except of a digest, authentication and the event-loop glue.
- Encoding of lengths that are not multiples of three in push ids.
- `wc_datasync_unwatch_all`, keep-alive and reconnect timers, allocation failure and freeing.
