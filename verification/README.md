# Cloudr: locks, virtual files, uploads, If headers

This project models five parts of the Cloudr server and proves what they promise.

1. **The WebDAV lock manager.** `LockSystem.MemLS` has the fields of `memLS`: a name tree with reference
   counts, a token index and an expiry heap with back-pointers, all over shared, mutable `Node` objects.
   Every method is proved against a plain table of live locks (`LockTable`); whole runs, for any order of
   operations and any times, are then proved safe on that table (`LockRuns`), and `LockClients` proves that
   every run of the object is such a run, so that neither panic of hold and unhold can be reached.
2. **The virtual file system.** `Database.DB` holds the folder and file tables, their unique indexes and the
   users' storage; `FileManager.FileSystem` adds the physical objects. Proved are the exactness of the
   breadth-first listing, tree copy as an isomorphism, what keeps every owner's folders a tree under one
   root, that paths lead to exactly one folder, the law that a user's storage is the sum of the sizes of the
   user's files, the quota, and that records which share one object behave as if each had its own content.
   `FileRuns` puts the operations together: every run of uploads, overwrites, copies, saved shares, moves
   and deletions, on the real tables and objects, is a run of exact steps, each with the log of what it wrote,
   copied and deleted, and every record reads what was last written through it.
3. **Chunked uploads.** `ChunkUpload.Session` is one upload session with 64-bit arithmetic, retries, chunks
   that break off, and steps that fail after the bytes are stored.
4. **The If header.** The lexer and the recursive parser are proved equal to a grammar: a text is accepted
   with a value exactly when it is a written form of a header with that value.
5. **The embedded file system.** Bisection over a sorted list is proved equal to scanning it.

The modules build on each other in this order:

- `Wrappers`, `Names` (slash-separated names);
- `ExpiryHeap`, `LockTable`, `LockState` (the representation invariant on values), `LockSystem`, `LockRuns`,
  `LockClients`;
- `IfHeader`, `IfGrammar`, `IfText`;
- `EmbedFS`;
- `Tables` (rows and sums), `FolderTree` (listing), `TreeCopy`, `TreeMove` (moving, deleting, owners, roots),
  `TreePaths` (what copies and moves do to paths and rows), `Accounts`, `Objects`, `Database`, `Deletion`, `Validator`, `FolderPaths`, `Directories` (creating by path),
  `FileSteps` (what each operation does, on values), `FileManager`, `FileRuns`;
- `ChunkUpload`;
- `Mishaps` (inputs for the section below).

`dafny verify dfyconfig.toml` checks everything.

## What turned out not to hold

The code is modelled as it is. Where a promise fails, a lemma says exactly when it holds, and another shows an
input for which it does not.

- Moving a folder below itself: the guard of `MoveFolderTo` rejects only the folder itself as a target.
  `TreeMove.MoveKeepsForestIff` gives the exact condition, `TreeMove.GuardMissesDescendants` an example.
- Deleting a folder together with a file in it: the file is listed twice, the record transaction is rolled
  back, and the physical objects are already gone. The records are refused exactly when some named file of the
  user also lies in a deleted folder and is to go: because of force or unlink, because its object is shared,
  or because its object can be removed (`Deletion.RefusedIff`, and `result == Refused` in
  `FileManager.FileSystem.Delete`). `Deletion.RollbackIsNothingIff` says when nothing is lost,
  `Mishaps.DeleteWithItsFolder` loses a file.
- Deleting all records of a shared object at once leaves the object behind (`Deletion.LeftBehindIff`,
  `Mishaps.DeleteBothRecords`).
- Copying folders and files: an error in the second part leaves the first part uncharged. The law of
  accounting is kept when everything fits, when not even the folder does, and when there are no bytes in the
  folder and every file with bytes clashes with a record (`TreeCopy.Paid`). It is broken when the folder fits,
  has bytes in it, and the files after it do not all fit (`FileManager.FileSystem.Copy`,
  `Mishaps.CopyWithoutCharge`). In the one case left, no bytes in the folder and some file with bytes that does
  not clash, the order in which the database returns the files decides (`TreeCopy.OrderDecides`). Saving a
  share charges whatever was copied (`FileManager.FileSystem.SaveTo`).
- `UpdateSize` moves the storage even when no row had the size the caller knows
  (`Accounts.ResizeKeepsLawIff`, `Mishaps.ChargedButNotResized`).
- A WebDAV PUT to a shared file writes to the generated path even if something is there, because the
  overwrite bit is set again after it was cleared (`Objects.WriteIsDeepIff`, `Mishaps.PutThroughAnother`); a
  PUT of the file service does not.
- An upload whose first chunk reaches the disk and does not succeed can never be finished, because a first
  chunk is not allowed to overwrite (`ChunkUpload.StuckIff`, `ChunkUpload.FirstFailureSticks`,
  `Mishaps.StuckAfterTwoBytes`).
- A directory is created without the spaces at the end of its name, so the path asked for leads to it exactly
  if neither a missing directory above it nor its own name ends in a space
  (`Directories.CreateDirectory`, `Directories.UnchangedIff`, `Mishaps.CreateWithSpace`).
- In the same way a folder called "." or ".." comes about, and names are no longer proper path elements:
  exactly if one of these names is "." or ".." once the spaces are cut off (`Directories.NamesKeptIff`,
  `Directories.ElementsIff`, `Mishaps.CreateDots`).
- A deletion in the name of user 0 takes the files of anybody and gives no storage back
  (`Accounts.UnbilledKeepsLawIff`).

## Model

| member | source | states |
|---|---|---|
| `Names.WalkVisitsOnce` | pkg/webdav/lock.go:352-366 | the walk to the root visits no name twice; each visited name is an ancestor or the name itself |
| `Names.PrefixTest` | pkg/webdav/lock.go:199-207 | for rooted names the string-prefix test of lookup holds exactly when the lock root is on the walk from the name to "/" |
| `Names.SlashCleanIsCanonical` | pkg/webdav/file.go:22-27 | cleaning any string gives the canonical name of a list of proper elements |
| `Names.SlashCleanFixesCanonical` | pkg/webdav/file.go:22-27 | cleaning leaves a canonical name as it is, so it is idempotent |
| `Names.ResolveMeans` | pkg/webdav/file.go:22-27 | empty fields and "." change nothing, ".." takes back the element before it and stops at the root |
| `Names.NameInjective` | pkg/webdav/file.go:22-27 | different element lists have different canonical names |
| `Names.WithinIffPrefix` | pkg/webdav/lock.go:352-366 | on canonical names, one lies at or below the other exactly when its elements are a prefix |
| `ExpiryHeap.SiftUpStep` | pkg/webdav/lock.go:386-415 | one swap with the parent moves the only place where the heap order may fail up by one level |
| `ExpiryHeap.SiftDownStep` | pkg/webdav/lock.go:386-415 | one swap with the smaller child moves the only place where the heap order may fail down by one level |
| `ExpiryHeap.HeadIsLeast` | pkg/webdav/lock.go:138-145 | the head of an ordered heap expires no later than any node in it |
| `ExpiryHeap.Queue.Swap` | pkg/webdav/lock.go:396-400 | swaps two nodes and their back-pointers, so that every node still knows its position |
| `ExpiryHeap.Queue.Push` | pkg/webdav/lock.go:402-406 | adds exactly one node; the heap is ordered and each node's index is its position |
| `ExpiryHeap.Queue.Remove` | pkg/webdav/lock.go:408-415 | removes exactly the node at an index, which gets index -1; the heap stays ordered and indexed |
| `LockTable.ConflictIffOverlap` | pkg/webdav/lock.go:291-313 | the conflict test on roots and depths holds exactly when some resource is covered by both locks |
| `LockTable.Lookup` | pkg/webdav/lock.go:192-210 | the token found is that of a live lock that nobody holds and that covers the name; none is found exactly when no condition has such a token |
| `LockTable.NewLockLives` | pkg/webdav/lock.go:232-250 | a lock written at some moment has the details asked for, and a collection at any time keeps it exactly if its duration is negative or the time is before the moment plus the duration; other locks are as before |
| `LockTable.RefreshedLives` | pkg/webdav/lock.go:252-273 | so has and does a lock that is renewed |
| `LockTable.ClaimsIff` | pkg/webdav/lock.go:147-185 | a confirmation succeeds exactly if for each name that is given some condition names a live lock that nobody holds and that covers the cleaned name; every token claimed is named by a condition for one of the names |
| `LockState.CountPlus` | pkg/webdav/lock.go:315-334 | locking one more name raises the count of exactly that name and its ancestors by one |
| `LockState.DecimalInjective` | pkg/webdav/lock.go:133-136 | different counter values give different tokens |
| `LockState.CreateEnds` | pkg/webdav/lock.go:315-334 | after the whole walk the tree has exactly the names at or above a locked name, each with its number of locked names, the new one included |
| `LockState.RemoveEnds` | pkg/webdav/lock.go:336-350 | after the whole walk of a removal the tree is the one for one locked name less |
| `LockState.HeadExpired` | pkg/webdav/lock.go:138-145 | a head that is not after now is an expired lock of the table |
| `LockState.NoneExpired` | pkg/webdav/lock.go:138-145 | when the head is after now, or there is none, no lock of the table is expired |
| `LockState.BlockedIsNotFree` | pkg/webdav/lock.go:291-313 | a node that stops the walk of canCreate is or proves a conflicting lock |
| `LockState.UnblockedIsFree` | pkg/webdav/lock.go:291-313 | if no node on the walk stops it, no live lock conflicts |
| `LockState.LockAdded` | pkg/webdav/lock.go:232-250 | writing a lock into its new node keeps the whole representation in order and adds exactly that lock to the table |
| `LockState.Withdrawal` | pkg/webdav/lock.go:336-350 | taking a lock off keeps the whole representation in order and takes exactly that lock out of the table |
| `LockSystem.MemLS.constructor` | pkg/webdav/lock.go:115-121 | an empty table, with the three structures in order |
| `LockSystem.MemLS.CreateNode` | pkg/webdav/lock.go:315-334 | name and its ancestors are in the tree with the counts for one more locked name; no other node changes |
| `LockSystem.MemLS.RemoveNode` | pkg/webdav/lock.go:336-350 | the table loses exactly the lock of the node; the representation stays in order |
| `LockSystem.MemLS.CollectExpiredNodes` | pkg/webdav/lock.go:138-145 | ends, having removed exactly the unheld finite locks with expiry at or before now |
| `LockSystem.MemLS.LookupNode` | pkg/webdav/lock.go:192-210 | finds the node of the lock that the table lookup finds, or nothing if it finds none |
| `LockSystem.MemLS.Hold` | pkg/webdav/lock.go:212-220 | sets the held mark of exactly that lock and takes it out of the heap |
| `LockSystem.MemLS.Unhold` | pkg/webdav/lock.go:222-230 | clears the held mark of exactly that lock and puts it back into the heap if it can expire |
| `LockSystem.MemLS.CanCreate` | pkg/webdav/lock.go:291-313 | true exactly when no live lock of the table conflicts with the requested one |
| `LockSystem.MemLS.Create` | pkg/webdav/lock.go:232-250 | after removing the expired locks: refused exactly on a conflict, otherwise the table gains exactly the new lock under an unused token, with the details asked for, held by nobody, and live until now plus its duration |
| `LockSystem.MemLS.Refresh` | pkg/webdav/lock.go:252-273 | after removing the expired locks: fails exactly for an unknown or a held lock, otherwise changes exactly that lock's duration, and it is live until now plus that |
| `LockSystem.MemLS.Unlock` | pkg/webdav/lock.go:275-289 | after removing the expired locks: fails exactly for an unknown or a held lock, otherwise removes exactly that lock |
| `LockSystem.MemLS.Confirm` | pkg/webdav/lock.go:147-185 | after removing the expired locks: succeeds exactly if each name that is given is granted by a condition, and then holds exactly locks that grant them; otherwise fails with the one error and holds nothing |
| `LockSystem.MemLS.Release` | pkg/webdav/lock.go:175-184 | releases exactly the locks of the claim; the panic cannot be reached |
| `LockRuns.StepKeeps` | pkg/webdav/lock.go:147-289 | every operation keeps the invariant: no two conflicting locks, claims of live held locks, disjoint, covering all held locks, later tokens unused |
| `LockRuns.RunKeeps` | pkg/webdav/lock.go:147-289 | so does every run |
| `LockRuns.NoOverlap` | pkg/webdav/lock.go:232-250 | after any run no resource name is covered by two live locks (section 6.2 of RFC 4918) |
| `LockRuns.RefusedIffOverlap` | pkg/webdav/lock.go:232-250 | a lock is refused exactly when it would share a resource with a live lock (section 9.10.5 of RFC 4918) |
| `LockRuns.ConfirmedOnce` | pkg/webdav/lock.go:36-53 | after any run no resource name is confirmed by two outstanding confirmations |
| `LockRuns.ClaimsAreFree` | pkg/webdav/lock.go:36-53 | the locks a confirmation claims are live, held by nobody, and cover each named resource |
| `LockRuns.HeldStaysForRuns` | pkg/webdav/lock.go:262-264 | through any run without its release, a confirmation's locks stay live, held and unchanged: not expired, refreshed or unlocked |
| `LockRuns.ReleaseRestores` | pkg/webdav/lock.go:175-184 | whatever runs in between, the release gives back the locks as the confirmation found them; with nothing in between the whole table is restored |
| `LockRuns.LivesItsTime` | pkg/webdav/lock.go:232-273 | a lock that is created or renewed stays live through any run before its time is over that neither unlocks nor renews it, for ever if its duration is negative; after that time, if nobody holds it, the next operation but a release removes it |
| `LockClients.DifferentNodes` | pkg/webdav/lock.go:164-167 | two pending releases never share a node |
| `LockClients.Clients.Perform` | pkg/webdav/lock.go:147-289 | an operation on the object, or running a pending release once, is the same step of the abstract system |
| `LockClients.Clients.Execute` | pkg/webdav/lock.go:147-289 | any sequence of operations on the object is a run of the abstract system, with both panics unreachable |
| `IfHeader.Lex` | pkg/webdav/if.go:133-173 | gives the next token, and what remains is shorter unless the text was empty or in error |
| `IfHeader.DelimiterIs` | pkg/webdav/if.go:145-151 | a bare word ends at one of these eight characters |
| `IfHeader.ParseCondition` | pkg/webdav/if.go:105-120 | reads what the specification function for conditions reads |
| `IfHeader.ParseList` | pkg/webdav/if.go:83-103 | ends and reads what the specification function for lists reads |
| `IfHeader.ParseNoTagLists` | pkg/webdav/if.go:40-52 | ends and reads what the specification function for untagged lists reads |
| `IfHeader.ParseTaggedLists` | pkg/webdav/if.go:54-81 | ends and reads what the specification function for tagged lists reads |
| `IfHeader.ParseIfHeader` | pkg/webdav/if.go:28-38 | ends on every input with the value that `IfText.ParserIsGrammar` characterises |
| `IfGrammar.ListSound` | pkg/webdav/if.go:83-103 | every accepted list is the token sequence of a list of the grammar with the returned value |
| `IfGrammar.ListComplete` | pkg/webdav/if.go:83-103 | every list of the grammar is accepted with its value |
| `IfGrammar.TaggedListsSound` | pkg/webdav/if.go:54-81 | every accepted rest of a tagged header is the token sequence of non-empty groups with the returned value |
| `IfGrammar.TaggedListsComplete` | pkg/webdav/if.go:54-81 | every sequence of non-empty groups is accepted with its value |
| `IfText.LexesPrint` | pkg/webdav/if.go:133-173 | lexing a printed token sequence gives the tokens back, whichever blanks separate them |
| `IfText.PrintOfLexes` | pkg/webdav/if.go:133-173 | every text that lexes to some tokens is a print of them |
| `IfText.ParserIsGrammar` | pkg/webdav/if.go:28-38 | a text is accepted with a value exactly when, trimmed, it is a print of a header of the grammar of section 10.4.2 of RFC 4918, with bare words as tokens, that has this value |
| `IfText.RoundTrip` | pkg/webdav/if.go:28-173 | printing any well-formed header with any fitting blanks and any space around it, and parsing it, gives its value |
| `IfText.EveryValueParses` | pkg/webdav/if.go:28-173 | every list value with printable tokens is the value of some text |
| `IfText.ReadsAs` | pkg/webdav/if.go:28-120 | for any texts without their closing brackets: "<tag> (Not <token> [etag])" is read as one list with this tag, of a negated state token and an entity tag |
| `EmbedFS.SplitDir` | bootstrap/embed.go:187-200 | the scan from the right gives directory, element and directory mark |
| `EmbedFS.SplitMeans` | bootstrap/embed.go:187-200 | a directory, a slash, an element, and perhaps a slash: split into just these |
| `EmbedFS.SplitAlone` | bootstrap/embed.go:187-200 | an element alone, and perhaps a slash: its directory is "." |
| `EmbedFS.KeyDeterminesPath` | bootstrap/embed.go:187-200 | two valid paths with the same directory and element are the same path |
| `EmbedFS.SortSearch` | bootstrap/embed.go:417-432 | for a monotone test, the least index from which it holds; for any test, an index where it turns true |
| `EmbedFS.Lookup` | bootstrap/embed.go:251-277 | on a list sorted by directory and element, finds a name exactly when a scan of the list would |
| `EmbedFS.ListDir` | bootstrap/embed.go:280-296 | exactly the files of the directory, which are one contiguous slice of the list |
| `EmbedFS.EntriesAre` | bootstrap/embed.go:280-296 | the entries of a directory are the listed files whose path is that of the directory, a slash and an element, or in the root an element alone |
| `EmbedFS.OpenDir.ReadDir` | bootstrap/embed.go:397-414 | the next entries, no more than asked for, all of them if the count is not positive; end of file exactly when nothing is left to a positive count |
| `EmbedFS.OpenDir.ReadPages` | bootstrap/embed.go:397-414 | reading page by page gives the whole listing, in order, whatever the page size |
| `EmbedFS.OpenFile.Read` | bootstrap/embed.go:355-365 | copies the next bytes into the front of the buffer, leaves the rest of it, and stops short only at the end of the file |
| `EmbedFS.OpenFile.Seek` | bootstrap/embed.go:367-381 | moves to the target exactly when it is within the file |
| `EmbedFS.ReadDirectory` | bootstrap/embed.go:312-327 | refuses invalid paths; for a list of distinct paths, succeeds exactly for a directory of the list; gives the files right below it, in the order of the list |
| `Tables.SumAdd` | models/scripts/storage.go:22-25 | the sum of a table does not depend on the order of its rows: adding a row adds its value |
| `FolderTree.Locate` | models/folder.go:106-126 | an element of the listing comes after all earlier levels and the front of its own level |
| `FolderTree.ListingParentsFirst` | models/folder.go:84-129 | on any parent graph, every listed folder is the user's, and was asked for or is preceded by its parent |
| `FolderTree.FirstRepeatIsTop` | models/folder.go:84-129 | on any parent graph, the first folder listed twice from one start is the start |
| `FolderTree.DistinctUnlessCycle` | models/folder.go:84-129 | on any parent graph, nothing is listed twice exactly when the start does not lie below itself |
| `FolderTree.ListingExact` | models/folder.go:84-129 | in a forest, the listing from one start is the folders within 65535 levels of it, each once, parents first |
| `FolderTree.ListingIsSubtree` | models/folder.go:84-129 | in a forest, it is the whole subtree exactly when no folder is deeper than 65535 levels |
| `Database.DB.GetRecursiveChildFolder` | models/folder.go:84-129 | ends on any parent graph with the levels below the starts, up to the first empty one or 65535: folders of the user only, every start of theirs, parents first |
| `Database.DB.CreateFolder` | models/folder.go:26-34 | finds a folder like the one asked for, where an empty name or owner 0 matches any, or else creates it; fails exactly when there is none and another folder of this parent has the name; no root is added |
| `TreeCopy.ChildNeverClashes` | models/folder.go:252-254 | below its top, a copied folder never takes a name that is already there |
| `TreeCopy.NextFolder` | models/folder.go:230-246 | on any parent graph the parent's new id is always known, and inserting clashes exactly when the top's name is taken or the top is met again |
| `TreeCopy.ForestFits` | models/folder.go:215-289 | in a forest a tree can be copied exactly when its name is free in the target folder |
| `TreeCopy.SameShape` | models/folder.go:229-258 | a folder is k levels below the original exactly when its image is k levels below the copy, and nothing else is below the copy, even if the copy lies inside the original |
| `TreeCopy.SourceUnchanged` | models/folder.go:229-258 | among the rows that were there before, every level below any start is what it was |
| `TreeCopy.NewFoldersFit` | models/folder.go:260-285 | copies of files into new folders never clash |
| `TreeCopy.OneFolderFits` | models/folder.go:162-183 | copies of files of one folder fit exactly when no name is taken in the target folder and, with a new name, there is at most one file |
| `TreeCopy.CopyClashes` | models/folder.go:178-180 | the next copy is refused exactly when it does not fit beside the records and the copies so far |
| `TreeCopy.SameChoice` | models/folder.go:162-183 | after a tree has been copied, the files that a second part chooses, and whether their copies fit, are what they were before |
| `TreeCopy.WholeTreeBytes` | models/folder.go:270-285 | the bytes copied with a whole tree are those of the files in the subtree as it was before |
| `TreeCopy.NoBytesCopied` | models/folder.go:162-183 | if every chosen file with bytes clashes with a record, no bytes are copied, in whatever order the files come |
| `TreeCopy.OrderDecides` | models/folder.go:162-183 | a chosen file that does not clash can come first, and then its bytes have been copied when another one fails |
| `TreePaths.CopyHasSamePaths` | models/folder.go:228-258 | names lead from the copy of a tree to the copy of a folder exactly if they lead from the original to that folder, and to nothing else; every folder they lead to in 65535 steps is copied; the top has the new name, or its own if none is given |
| `TreePaths.FoldersAreRows` | models/folder.go:228-258 | row by row: each copied folder has its own name, the target's owner, and the copy of its parent for its parent; the top hangs in the target; nothing else changes |
| `TreePaths.CopiesAreRows` | models/folder.go:260-285 | row by row: each copied file has its name or the new one, its object, size and policy, the target's owner, and the folder that belongs to its own; nothing else changes |
| `TreePaths.MovedFilesAre` | models/folder.go:186-208 | row by row: every named file of the user in the source folder is in the target folder, under the new name if one is given, with nothing else changed; other files are as before, and none of the named ones stays |
| `TreePaths.MovedFoldersAre` | models/folder.go:301-318 | the same for folders |
| `Database.DB.CopyFolders` | models/folder.go:228-258 | on any parent graph, an injective map to fresh ids that commutes with the parent and keeps names, row by row; fails exactly on a repetition or a taken top name, never for a missing parent |
| `Database.DB.CopyFiles` | models/folder.go:270-285 | each file that is not being uploaded gets one copy, row by row: under its image folder with the same name, object, size and policy; the size returned is the sum of the originals' sizes, and exactly that much is added to the owner's total |
| `Database.DB.CopyFolderTo` | models/folder.go:215-289 | succeeds exactly when the tree fits, and then copies all of it: the same names lead to the copies, and the files copied are the user's files in these folders that are not being uploaded; the missing-parent error cannot happen; an error copies no file and reports size 0; nothing is orphaned, and the roots stay the same |
| `Database.DB.MoveOrCopyFileTo` | models/folder.go:146-211 | copies succeed exactly when all fit, and leave those made so far, each as its original but for folder, owner and new name; moves happen all or none, put every named file of the user into the target folder, and change no total |
| `Database.DB.MoveFolderTo` | models/folder.go:293-319 | happens all or none, exactly when the guard passes and the unique index holds afterwards; then every named child folder of the user hangs in the target |
| `TreeMove.MoveKeepsForestIff` | models/folder.go:293-319 | a move keeps the forest exactly when the target is neither a moved folder nor below one |
| `TreeMove.GuardMissesDescendants` | models/folder.go:295-299 | moving /a into /a/b passes the guard and the unique index, and the folders are no longer a forest |
| `TreeMove.CopyKeepsTidy` | models/folder.go:228-258 | copying folders, wherever to, keeps the forest, one owner for each tree, one root for each owner, and every file in a folder of its owner |
| `TreeMove.CopyKeepsRoots` | models/folder.go:230-246 | a copy is never a root: the roots are the same rows |
| `TreeMove.SameRootsKeepOne` | models/user.go:97-101 | where the roots stay the same rows, every user has one root before exactly if after |
| `TreeMove.RootStays` | pkg/filesystem/manage.go:240-246 | leaving out the first root of a listing leaves out every root of a user who has one, so a deletion takes none |
| `TreeMove.DropKeepsForestIff` | models/folder.go:132-135 | removing folders keeps the forest exactly when no child of a removed folder stays |
| `TreeMove.DeleteKeepsTidy` | pkg/filesystem/manage.go:232-257 | deleting a listing but for its first root, with all files in it, orphans nothing, if nothing is deeper than the listing goes |
| `FolderPaths.SplitOfName` | pkg/util/path.go:32-44 | splitting the path of a list of elements gives "/" and the elements |
| `FolderPaths.SplitPathMeans` | pkg/util/path.go:32-43 | a rooted path is its components after the first, each after a slash, and no component has a slash in it |
| `FolderPaths.TraceRoot` | models/folder.go:51-68 | ends on a forest with the path of the folder's parent |
| `FolderPaths.IsPathExist` | pkg/filesystem/path.go:17-53 | from a preset root or the first root of the user, finds a folder exactly when the components lead to it |
| `FolderPaths.RoundTrip` | models/folder.go:51-68 | the path that tracing a folder yields leads back to that folder and to no other |
| `FolderPaths.EveryFolderHasPath` | models/folder.go:51-68 | in a file system that is in order this holds of every folder |
| `Directories.CreateDirectory` | pkg/filesystem/manage.go:392-447 | for every path: succeeds exactly when the last directory and all that are missing on the way have, without the spaces at their ends, legal names which no file beside them and no folder of somebody else has; then the path without these spaces leads to the folder returned, and the path itself exactly if there were none; nothing but missing directories of that path was added, and the folders are in order; a failure changes nothing |
| `Directories.TrimRightMeans` | pkg/filesystem/manage.go:411-412 | what is cut off a name is the spaces at its end, and all of them |
| `Directories.CreatedIsFound` | pkg/filesystem/manage.go:392-447 | a lookup of the path created finds exactly the folder returned |
| `Directories.ExistingIsFound` | pkg/filesystem/manage.go:419-446 | where the path created was there before, its folder is returned and nothing is created |
| `Directories.CreatableAbove` | pkg/filesystem/manage.go:412-434 | a directory can be created exactly if the one above it is there or can be created, and its own name is legal and free |
| `Directories.UnchangedIff` | pkg/filesystem/manage.go:411-412 | the path created is the path asked for exactly if neither a missing directory on it nor the last one has a space at its end |
| `Directories.NamesKeptIff` | pkg/filesystem/manage.go:435-440 | names stay proper path elements exactly if those of the path created are |
| `Directories.ElementsIff` | pkg/filesystem/manage.go:411-417 | those names are proper exactly if neither a missing directory nor the last one is "." or ".." without the spaces at its end |
| `Validator.LegalExtensionIff` | pkg/util/common.go:37-49 | a list of extensions lets through exactly the names that end in a dot and a listed extension, in any case; no list lets every name through |
| `Validator.ExtensionListedIff` | pkg/util/common.go:37-49 | the last dot decides: base, dot and extension pass exactly if the extension in lower case is listed |
| `Validator.ExtensionNotListed` | pkg/util/common.go:37-49 | a name without a dot passes no list |
| `Validator.LowerMeans` | pkg/util/common.go:37-49 | lower case maps the 26 capital letters to the small ones and nothing else |
| `Validator.LegalNameIff` | pkg/filesystem/validator.go:18-43 | a legal name has 1 to 255 characters, none of the nine reserved ones, and no space at its end |
| `Validator.AllowedIff` | pkg/filesystem/hooks.go:59-79 | a file is accepted exactly if it is within the maximum size, if there is one, and name and extension are |
| `FileSteps.RoomIff` | models/user.go:149-155 | a size has room exactly if it is 0 or the storage with it is within the quota |
| `FileSteps.WrittenIsReplaced` | pkg/filesystem/hooks.go:154-178 | an overwrite changes the size of the one record, and its path exactly if another record has its object; nothing else about it and nothing about others |
| `Accounts.ChargeKeepsLaw` | models/user.go:139-146 | charging a user the size that was added keeps storage equal to the sum of file sizes |
| `Accounts.DeleteKeepsLaw` | models/file.go:251-284 | deleting records and giving back their sizes keeps the law, and the storage given back was there |
| `Accounts.UnbilledKeepsLawIff` | models/file.go:251-284 | a deletion for user 0, who is given no storage back, keeps the law exactly when the files are empty or of unknown users |
| `Accounts.ResizeKeepsLawIff` | models/file.go:341-377 | a resize keeps the law exactly when the caller's size is fresh or does not change |
| `Database.DB.CreateFile` | models/file.go:57-74 | inserts a record and charges its owner, or does neither, exactly when the name or the upload session is taken; keeps the law |
| `Database.DB.DeleteFiles` | models/file.go:251-284 | all or none: commits exactly when all rows are the user's, distinct, and still have the size they were read with |
| `Database.DB.UpdateSize` | models/file.go:341-377 | changes the size of the one row, and only if it has the size the caller knows, and the storage in any case |
| `Database.DB.SumOfSizes` | models/scripts/storage.go:22-25 | the sum of the sizes of the user's files |
| `Database.DB.Calibrate` | models/scripts/storage.go:16-33 | establishes the law for every user, and changes nothing if it held |
| `Objects.CopyIsDeep` | models/folder.go:162-183 | copying records that share an object reads like copying the contents |
| `Objects.CreateIsDeep` | pkg/filesystem/upload.go:40-50 | a new record on a path no other record has reads its content and changes no other |
| `Objects.WriteIsDeepIff` | pkg/webdav/webdav.go:399-420 | an overwrite changes what other records read exactly unless every other record of the object reads this content already |
| `Objects.DeleteIsDeepIff` | pkg/filesystem/manage.go:159-194 | deleting records and objects changes nothing else exactly when no record that stays reads a removed object |
| `Objects.ReadsOn` | service/explorer/file.go:448-476 | if every record reads what was last written through it, or through the record it is a copy of until it was copied, it still does after one more event that the contents follow |
| `Deletion.RemoveFilesWithSoftLinks` | models/file.go:206-248 | keeps a file of a fresh list exactly when no other record has its policy and source |
| `Deletion.GroupFileByPolicy` | pkg/filesystem/file.go:226-241 | the files of each policy, in order, and no empty group |
| `Deletion.CommitIsDeep` | pkg/filesystem/manage.go:159-194 | when the records are deleted, every surviving record reads what it did |
| `Deletion.RollbackIsNothingIff` | pkg/filesystem/manage.go:168-194 | when they are not, nothing is lost exactly if there was no object to remove |
| `Deletion.RefusedIff` | pkg/filesystem/manage.go:143-194 | the records to be deleted are refused exactly when a file that is to go is named and also lies in a deleted folder |
| `Deletion.LeftBehindIff` | models/file.go:206-248 | an object is left without a record exactly when all its records, two at least, are deleted together |
| `FileSteps.DeletedIsRows` | pkg/filesystem/manage.go:135-229 | a deletion file by file, object by object and folder by folder: what goes, by whether it lies in a deleted folder or is named, shared, removable, forced or unlinked; without touching objects none goes; refused means nothing is deleted |
| `FileSteps.FoldersListedIff` | pkg/filesystem/manage.go:232-246 | where the user has one root, the folders to delete are those that names lead to, in 65535 steps at most, from the folders asked for, but not the root |
| `FileSteps.AfterTree` | pkg/filesystem/manage.go:77-96 | after a tree has been copied, the files chosen next, and whether they fit, are what they were before |
| `FileManager.FileSystem.DeleteGroupedFile` | pkg/filesystem/file.go:170-223 | removes exactly the objects that the drivers can delete, and reports the others under their policy |
| `FileManager.FileSystem.Delete` | pkg/filesystem/manage.go:135-229 | what goes, stays and is reported, row by row; refused exactly when a file that is to go is named and also lies in a deleted folder; a committed deletion is that of the contents of the dropped records alone, keeps the law (for user 0 exactly when nothing was to be given back) and orphans nothing; the roots stay |
| `FileManager.FileSystem.GenericAfterUpload` | pkg/filesystem/hooks.go:194-223 | records the file in its directory, found or created, exactly when the directory can be and no file in it has the name; otherwise nothing changes |
| `FileManager.FileSystem.CreateFile` | pkg/filesystem/upload.go:31-79 | a new upload succeeds exactly if the policy accepts size, name and extension, the storage with it is within the quota, nothing is at the path, all bytes arrive, the directory is there or can be created, and the name is free in it, all of it read off the state before; otherwise no folder, no record and no charge; keeps law, quota and forest |
| `FileManager.FileSystem.PutContent` | service/explorer/file.go:441-481 | copy on write: a shared record moves to the generated path, its own object is overwritten, and nothing else about any record changes; succeeds exactly if the policy accepts the new size, a larger one is within the quota, the path may be written and all bytes arrive; what then is read through every record; keeps law and quota |
| `FileManager.FileSystem.Copy` | pkg/filesystem/manage.go:60-99 | succeeds exactly when the tree and the files fit; what is copied in either part, by paths and row by row; reads like deep copies; keeps the law if all fits, or not even the tree, or nothing with bytes in it can be copied, and breaks it if the tree has bytes and the files after it do not fit |
| `FileManager.FileSystem.SaveTo` | pkg/filesystem/manage.go:450-479 | saving another user's folder or file: all of it exactly when it fits, otherwise no file; keeps the law even after an error |
| `FileManager.FileSystem.Move` | pkg/filesystem/manage.go:102-131 | folders, then files, row by row; changes no content and no storage; keeps everything in the forest exactly when the target is not inside a moved folder |
| `FileRuns.Clients.Perform` | pkg/filesystem/manage.go:60-229 | every request is a step whose effects and log are determined by the state before, up to the order in which the database returns rows: the success condition of each operation, what it writes, copies, moves and deletes; it keeps the invariant of runs: storage is the sum of sizes up to what copies left uncharged, and, as long as the steps met the conditions, records read what was last written through them, the law holds, the folders are in order under the same roots, and names are proper |
| `FileRuns.Clients.Execute` | pkg/filesystem/manage.go:60-229 | any sequence of requests is a run of such steps, and its conditions are read off the states before the steps |
| `FileRuns.Clients.Read` | service/explorer/file.go:448-476 | after any run whose generated paths were pointed at by no record, reading a record gives what was last written through it |
| `FileRuns.WriteIsRead` | service/explorer/file.go:448-476 | after an upload or overwrite whose success condition held, and any steps that do not touch the record, what was last written through it is the body |
| `FileRuns.MarksOfSteps` | pkg/filesystem/upload.go:40-50 | the marks of a run stand for a condition on every one of its steps |
| `FileRuns.NoDebtIsLaw` | models/scripts/storage.go:16-33 | the law holds exactly when no copy has left anything uncharged |
| `ChunkUpload.ChunkFits` | service/explorer/upload.go:157-162 | nothing wraps for an admitted chunk, whatever the sizes: the last chunk ends with the file and every other before it |
| `ChunkUpload.InOrder` | service/explorer/upload.go:112-120 | as long as no product wraps, no chunk is accepted beyond the next one |
| `ChunkUpload.AdmitsIff` | service/explorer/upload.go:110-166 | without wrapping, a request gets to the driver exactly if its chunk starts within what is recorded, has the length of a chunk or of the rest of the file, and is within the quota |
| `ChunkUpload.NextMeans` | service/explorer/upload.go:155-218 | and what becomes of object and record, in plain numbers, if it breaks off, if a later step fails, and if not |
| `ChunkUpload.Session.constructor` | pkg/filesystem/upload.go:130-193 | a session that fits the quota, a 64-bit number, starts with an empty record |
| `ChunkUpload.Session.Put` | pkg/filesystem/driver/local/handler.go:91-160 | appending at a start: refused, cut back, or extended by what arrives |
| `ChunkUpload.Session.LocalUpload` | service/explorer/upload.go:79-127 | the next state of the session for every request; record and object stay consistent; never above the quota |
| `ChunkUpload.Session.ProcessChunk` | service/explorer/upload.go:155-218 | the same once the session, the record and the start have been checked |
| `ChunkUpload.AnyRun` | service/explorer/upload.go:79-218 | after any requests the record is at most the session's size, and a finished upload has exactly that size; if no product wraps its object is what was sent |
| `ChunkUpload.StuckIff` | pkg/filesystem/driver/local/handler.go:96-102 | with room for a chunk, or for the file where there are no chunks, an unfinished upload can go on exactly when it is not the case that its object exists while nothing is recorded |
| `ChunkUpload.StuckRefuses` | pkg/filesystem/driver/local/handler.go:96-102 | a stuck upload refuses every chunk and stays as it is |
| `ChunkUpload.FirstFailureSticks` | service/explorer/upload.go:173-176 | a first chunk that reaches the disk gets the upload stuck exactly when it breaks off or a later step fails |
| `Mishaps.LostWithItsFolder` | pkg/filesystem/manage.go:143-194 | a folder and the file in it: the records are refused, and the file reads nothing any more |
| `Mishaps.DeleteWithItsFolder` | pkg/filesystem/manage.go:143-194 | that deletion keeps folder and record, and the content is lost |
| `Mishaps.LeftWithoutRecords` | models/file.go:206-248 | a folder with both records of an object: both can be deleted, and no object goes |
| `Mishaps.DeleteBothRecords` | models/file.go:206-248 | that deletion leaves no record, and the object |
| `Mishaps.CopiedButNotCharged` | pkg/filesystem/manage.go:77-96 | a folder with three bytes, then a file whose name is taken: the condition under which the law breaks |
| `Mishaps.CopyWithoutCharge` | pkg/filesystem/manage.go:77-96 | that copy breaks the law |
| `Mishaps.ChargedButNotResized` | models/file.go:341-377 | a caller who knows an old size: the law held, and does not any more |
| `Mishaps.OverwrittenThroughAnother` | pkg/webdav/webdav.go:399-420 | two records share an object and the generated path is that of a third: the third reads the new content |
| `Mishaps.PutThroughAnother` | pkg/webdav/webdav.go:399-420 | a WebDAV PUT does that |
| `Mishaps.CreatedElsewhere` | pkg/filesystem/manage.go:411-412 | "/a/x " can be created, as "/a/x" |
| `Mishaps.CreateWithSpace` | pkg/filesystem/manage.go:411-412 | a success after which "/a/x " does not lead to the folder returned |
| `Mishaps.CreatedDots` | pkg/filesystem/manage.go:411-417 | "/.. " can be created, as a folder called ".." |
| `Mishaps.CreateDots` | pkg/filesystem/manage.go:411-417 | names were proper path elements before, and are not after |
| `Mishaps.StuckAfterTwoBytes` | pkg/filesystem/driver/local/handler.go:96-102 | two of the four bytes of a first chunk arrive: the upload is stuck |

## Left out

- Confirm conditions: `Not` and `ETag` are ignored by the lookup, as in the source.
- LockSystem.MemLS.NextToken: the counter is unbounded; wrapping at 2^64 is not modelled.
- Times are integers; saturation of time arithmetic is not modelled, nor is the mutex: each call is one step.
- LockClients.Clients.Execute: `Clients` is not part of the repository; it stands for callers that run each release at most once.
- The locking calls of the WebDAV handlers, which are stubbed out there.
- IfHeader.ParseIfHeader: texts are sequences of characters; trimming looks at Unicode space characters, not at their UTF-8 bytes.
- EmbedFS.Lookup: the list is taken sorted, as bootstrap/fs.go sorts it; the sort itself is a library call.
- EmbedFS.OpenFile.Seek: offsets do not overflow; a negative offset in the file cannot occur and is not modelled.
- A database statement fails only for a unique index or a missing row; other database errors are not modelled, except as the faults of an upload.
- Database.DB.GetRecursiveChildFolder: the rows of one query come in any order.
- Soft deletion, time stamps, metadata, thumbnails and their sidecar files, share records.
- FileManager.FileSystem.Copy: which folders the two paths lead to is a parameter, here and in `SaveTo` and `Move`; `FileRuns.Clients` looks them up with `FolderPaths.IsPathExist`.
- FileManager.FileSystem.CreateFile: extensions are compared in lower case for ASCII letters only; lengths of names count characters, not bytes.
- FileManager.FileSystem.PutContent: the WebDAV flag stands for the two callers. A client that goes away is a body shorter than announced, which leaves what has arrived; the hooks that may then clear content and size run in a goroutine of their own and are not modelled, here and in `CreateFile`.
- FileRuns.Clients.Execute: `Clients` is not part of the repository. It starts with users who have their roots and no files, sends requests one after the other, and looks up paths without a preset root; registering users is not modelled.
- FileManager.FileSystem.Delete: upload sessions of deleted placeholders are not cancelled; the driver decides which objects it cannot delete.
- The hook tables of the file system are not a data structure here; each method runs its hooks in the order in which they are registered.
- ChunkUpload.Session.LocalUpload: a client that goes away while the upload runs is not modelled, because the hook that then truncates the object races with the request.
- ChunkUpload.Session.constructor: the second check of the quota in CreateUploadSession and the cache of sessions are one step.
- ChunkUpload.Session.AfterValidateFailed: the hook truncates the save path as it stands while Put resolves it against the executable's directory; here both mean the same object.
- Uploads to remote nodes and object stores; slave uploads without a record.
- HTTP, XML, permissions, the cache, background jobs, the front end: transport and libraries.
