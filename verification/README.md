# Boot loader and build tool, modelled in Dafny

This project models the stateful core of the NexNix boot loader (`nexboot`) and of its build driver
(`nnbuild`), and proves what their algorithms promise. Records that the C code rewrites in place are
classes or memories here, and each method is proved against a specification on values; the lemmas are
about those specifications, over every run and every input.

| component | files |
|---|---|
| Boot heap: boundary-tag, first-fit allocator | `HeapSizes`, `HeapView`, `HeapRuns`, `HeapMemory`, `BootHeap` |
| Object database: tree with paths and reference counts | `ObjectPaths`, `ObjectTree`, `ObjectCases` |
| Package builder: dependency graph from declarations, and the build run | `PackageGraph`, `PackageBuild`, `PackageTree` |
| Terminal over the text console | `VgaConsole`, `Terminal`, `TerminalPage`, `TerminalMoves`, `TerminalColors` |
| Framebuffer with a ring of scan lines, and mode choice | `Display`, `FbConsole`, `DisplayModes` |
| File reads and the ELF loader | `FileRead`, `ElfLoad` |
| Arithmetic of multiples and of pages, shared | `Multiples`, `Pages` |

`dafny verify dfyconfig.toml` checks everything.

## How the parts fit

- **Boot heap.** `HeapSizes` is the arithmetic of requests. `HeapView` describes one page as a map of blocks,
  with the two operations on it (take and release); `HeapRuns` describes the whole heap and runs of requests.
  `HeapMemory` is a memory of headers, end words and payload bytes in which every write destroys the records it
  overlaps. `BootHeap.Heap` is the C code on that memory; `Valid` says that the memory represents a heap that
  satisfies the invariant. The firmware's answer to a request for pages is a parameter: null, or that many fresh
  pages.
- **Object database.** `ObjectTree.ObjectDb` holds the objects with their C pointers and counts, and a ghost
  tree that they form. Counts start at 1, and releasing a reference returns what remains. Where the C code
  would fail an assertion, read through a null pointer, or call a service that is meant for something else, a
  method returns that it is not ok.
- **Package builder.** `PackageTree.Builder` turns declarations into objects; `PackageBuild.Run` builds.
  Whether the command of a step succeeds is a function of package and step, which is general because no
  step is taken twice. List searches return the first match.
- **Terminal.** `Terminal.Step` is the byte machine as a function; the class `Terminal.Terminal` is the
  driver. `TerminalPage` relates the screen to a page of text that never scrolls, and `TerminalMoves` and
  `TerminalColors` say what single bytes and whole escape sequences, written out in bytes, do to cursor and
  screen. The bytes behind the color table, which large attributes read, are a parameter.
- **Framebuffer.** `Display.Display` is the driver side (both drivers use the same code for the ring), and
  `FbConsole.Console` the console on it. Buffers are arrays of bytes, and pointers are positions in them.
- **Files.** `FileRead.File` is an open file over a block device given as a function; each read of a block may
  fail or not, independently of other reads of it. `ElfLoad.Machine` is memory and page table. The 32-bit and
  the 64-bit loader are the same algorithm and one model; segments may overlap, start inside a page, and wrap around
  the address space.

## What the code does that one might not expect

- The test at `source/nexboot/src/memmgr.c:348-349` is strict, so a free 64-byte block that ends a page is not
  merged with the block before it when that one is freed; the comment above it says otherwise. The coalescing
  results carry this exception, and `HeapRuns.TakeReleaseRestoresIff` shows where it matters.
- `source/nexboot/src/object.c:104-109` ignores that a parent may be no directory: the object is created, but
  nothing finds it (`ObjectCases.LookupOfLost`).
- `source/nexboot/src/object.c:199-205` compares the number of a service only with the length of the table, so a
  path through an object that is no directory calls whatever that object has there
  (`ObjectCases.LookupBelowDisplay`, `ObjectCases.CreationBelowLog`).
- Installing the services of a directory again forgets its children (`ObjectTree.ServicesConsistent`).
- An object that is no directory has no service table until one is installed, but
  `source/nexboot/src/object.c:178` and `source/nexboot/src/object.c:193` read one; `source/nexboot/src/vfs.c:66`
  releases such an object (`ObjectCases.ReleasedWithoutServices`).
- The help text at `source/hosttools/nnbuild/main.c:64-65` names an action `install`, which
  `source/hosttools/nnbuild/build.c:205-209` rejects; the model follows the code.
- In `source/nexboot/drivers/terminal.c:548-575` the state stays set after ESC D, ESC M and ESC H, so the next
  byte is taken for the letter of a sequence. Old parameters are not cleared by a new sequence.
- A read that ends exactly with the last block of a file still reads the block behind it
  (`source/nexboot/src/vfs.c:225-226`), and `source/nexboot/src/nexnix.c:53` takes the -1 of a failed read for
  success.
- A mode whose query fails is queried again without end at `source/nexboot/drivers/vbe.c:341-342`
  (`DisplayModes.SearchEndsIff`).
- `source/nexboot/src/nexnix.c:55` and `source/nexboot/src/elf.c:129-130` compute the position of a page in a
  signed number of 32 bits, which is right for 2 GiB (`Pages.PageOffsetsIff`).

## Model

| member | source | states |
|---|---|---|
| `HeapSizes.BlockCoversIff` | source/nexboot/src/memmgr.c:221-245 | The size computations of a request (header, end word, alignment, page count, all in machine words) give a block that holds it if and only if the request is at most the stated limit; above it they wrap or truncate |
| `HeapSizes.LargestRequestWraps` | source/nexboot/src/memmgr.c:221-233 | The largest 64-bit request is aligned to 80 bytes, which does not hold it |
| `HeapSizes.RequestSizes` | source/nexboot/src/memmgr.c:221-245 | In numbers: a request of sz bytes takes the least multiple of 16 that is at least sz + 64 + one word, is large if and only if that is above 4032, and then gets the fewest pages of 4096 bytes that hold it and the page header |
| `HeapSizes.AlignSizeMultiple` | source/nexboot/src/memmgr.c:227-232 | An aligned size is a multiple of 16, even one that wrapped |
| `HeapView.TilesPartition` | source/nexboot/src/memmgr.c:132-219 | Every byte between the page header and the end of a page lies in exactly one block |
| `HeapView.FreeBlockWithinSum` | source/nexboot/src/memmgr.c:276 | No free block is larger than the free bytes of its page, so the freeSize test never skips a page with a large enough block |
| `HeapView.TakeKeepsPage` | source/nexboot/src/memmgr.c:149-218 | Taking a block, whole, with slack below 64 bytes, or split in two, keeps the page tiled, aligned, coalesced, and its free list exact |
| `HeapView.TakeSum` | source/nexboot/src/memmgr.c:150-192 | The free bytes of the page shrink by the size of the block handed out, slack included |
| `HeapView.TakePlaces` | source/nexboot/src/memmgr.c:150-216 | The rest of a block that is cut takes the place of the block in the free list, a block used whole leaves it, and all others keep their order |
| `HeapView.ReleaseKeepsTiling` | source/nexboot/src/memmgr.c:340-420 | After a release, merged right, left, both ways or not at all, the blocks tile the page again and its free bytes grow by the released block |
| `HeapView.ReleaseKeepsCoalescing` | source/nexboot/src/memmgr.c:345-406 | A release leaves no two adjacent free blocks, except that the second may be the 64-byte block ending its page |
| `HeapView.ReleaseKeepsFreeList` | source/nexboot/src/memmgr.c:354-419 | After a release the list holds exactly the free blocks, each once, in each of the four ways of merging |
| `HeapView.ReleasePlaces` | source/nexboot/src/memmgr.c:354-419 | A freed block without free neighbours comes first in the list, one that absorbs the block right of it takes that one's place, and one absorbed by the block left of it gets none; all others keep their order |
| `HeapView.ReleaseKeepsPage` | source/nexboot/src/memmgr.c:340-420 | A release keeps all of the page invariant |
| `HeapRuns.TakeFromKeepsInv` | source/nexboot/src/memmgr.c:276-280 | Serving a request from a page keeps the heap invariant, and the pointer handed out was not live before and has room for the request and the end word |
| `HeapRuns.AddPageKeepsInv` | source/nexboot/src/memmgr.c:284-301 | Listing a fresh page, as one free block, keeps the heap invariant |
| `HeapRuns.AddPagesContents` | source/nexboot/src/memmgr.c:323-337 | Freeing n pages of a large block adds exactly n pages, each one free block, and leaves all others as they were |
| `HeapRuns.FreeListsPages` | source/nexboot/src/memmgr.c:318-421 | Freeing a large block lists its pages in front of the others, the last one first; freeing a small one changes its own page only |
| `HeapRuns.MallocKeepsInv` | source/nexboot/src/memmgr.c:235-304 | malloc returns null exactly for size 0 or when the firmware is asked and has no pages; otherwise a pointer that was not live, with pages owned growing by what was asked for |
| `HeapRuns.FreeKeepsInv` | source/nexboot/src/memmgr.c:306-421 | free keeps the heap invariant, ends one life and no other, and conserves pages |
| `HeapRuns.StepKeepsInv` | source/nexboot/src/memmgr.c:235-421 | One call of malloc or free keeps the invariant and the balance of pages |
| `HeapRuns.InitInv` | source/nexboot/src/memmgr.c:111-118 | The heap of one fresh page satisfies the invariant |
| `HeapRuns.RunKeepsInv` | source/nexboot/src/memmgr.c:235-421 | Every sequence of malloc and free keeps the invariant (tiling, free lists, live blocks, disjoint pages), and pages listed plus pages of live large blocks equal those obtained from the firmware |
| `HeapRuns.PayloadAvoidsMetadata` | source/nexboot/src/memmgr.c:132-304 | No byte of a live payload is part of a page header, block header or end word |
| `HeapRuns.PayloadsDisjoint` | source/nexboot/src/memmgr.c:132-304 | Payloads of two live pointers share no byte |
| `HeapRuns.PayloadAligned` | source/nexboot/src/memmgr.c:51-54 | Every live pointer is 16-byte aligned |
| `HeapRuns.EmptyPage` | source/nexboot/src/memmgr.c:340-420 | A page without live blocks is one free block of 4032 bytes, or 3968 followed by 64, with 4032 free bytes |
| `HeapRuns.AllFreeTiles` | source/nexboot/src/memmgr.c:345-406 | Those two are the only ways to tile a page with free blocks |
| `HeapRuns.NoRoomBySum` | source/nexboot/src/memmgr.c:276 | A page skipped by the freeSize test has no block that is large enough |
| `HeapRuns.SmallRequestAsksIff` | source/nexboot/src/memmgr.c:266-303 | A small request asks the firmware for a page if and only if no listed page has a free block large enough |
| `HeapRuns.AskedIs` | source/nexboot/src/memmgr.c:235-303 | In numbers: the firmware is asked for the fewest pages that hold a large block, for one page when no listed block has room for a small one, and otherwise for none |
| `HeapRuns.MallocServes` | source/nexboot/src/memmgr.c:246-304 | The block handed out is less than 64 bytes larger than the least one; with fresh pages the pointer is 128 bytes behind their start, and a fresh page of a small block comes first in the page list |
| `HeapRuns.MallocIsFirstFit` | source/nexboot/src/memmgr.c:136-146 | A block served from the listed pages is in one of them and on its free list; no earlier page in the page list has a block that fits, and no earlier place of that free list does |
| `HeapRuns.TakeReleaseRestoresIff` | source/nexboot/src/memmgr.c:150-216 | Taking a block and releasing it restores the tiling of the page if and only if the part split off was not the 64-byte block ending the page |
| `HeapRuns.EndBlockStaysApart` | source/nexboot/src/memmgr.c:348-349 | On a fresh heap, allocating 3896 bytes with words of 64 bits and freeing them leaves the free blocks of 3968 and 64 bytes side by side |
| `BootHeap.Heap.constructor` | source/nexboot/src/memmgr.c:111-118 | Start-up writes headers that represent the initial heap |
| `BootHeap.Heap.Unlink` | source/nexboot/src/memmgr.c:155-160 | The pointer updates remove one block from a doubly linked list of any length and leave all other records alone |
| `BootHeap.Heap.Substitute` | source/nexboot/src/memmgr.c:202-209 | The pointer updates replace one block of the list by another in its place |
| `BootHeap.Heap.TakeExact` | source/nexboot/src/memmgr.c:151-165 | A block of exactly the size leaves the list, and its end word becomes 0 |
| `BootHeap.Heap.TakeSlack` | source/nexboot/src/memmgr.c:181-196 | A block with less than 64 spare bytes is taken whole, with freeSize lowered by the slack |
| `BootHeap.Heap.TakeFront` | source/nexboot/src/memmgr.c:171-216 | A larger block is split, and the rest takes its place in the list with its size in the end word |
| `BootHeap.Heap.AllocBlockInPage` | source/nexboot/src/memmgr.c:132-219 | On the headers in memory: the first fitting block is taken as specified, or nothing is written |
| `BootHeap.Heap.MergeRight` | source/nexboot/src/memmgr.c:354-372 | Merging with the next block gives the headers, list and end word of the joined block |
| `BootHeap.Heap.MergeLeft` | source/nexboot/src/memmgr.c:378-405 | Merging into the block before, found through its end word, gives the joined block, off the list once, and marks the old header |
| `BootHeap.Heap.EnterList` | source/nexboot/src/memmgr.c:409-420 | An unmerged block becomes the head of the free list |
| `BootHeap.Heap.Malloc` | source/nexboot/src/memmgr.c:235-304 | The code returns the specified pointer, asks for the pages that the request needs in numbers, and leaves headers that represent the specified heap; bytes of all live payloads are unchanged |
| `BootHeap.Heap.Free` | source/nexboot/src/memmgr.c:306-421 | The code accepts null and every live pointer, leaves the specified heap and the bytes of other live payloads, and reports corruption without a write for a pointer that was freed |
| `BootHeap.Heap.FreeTwice` | source/nexboot/src/memmgr.c:312-316 | Freeing a live pointer twice in a row always reports corruption, whichever way the first call merged, and for large blocks |
| `BootHeap.Heap.Store` | source/nexboot/src/memmgr.c:164-177 | Writing into a live payload does not disturb the heap |
| `BootHeap.LiveHeader` | source/nexboot/src/memmgr.c:312-316 | The header before every live pointer passes the corruption test and tells large blocks from small ones |
| `ObjectPaths.ParsePart` | source/nexboot/src/object.c:43-60 | One parser step puts the next component, terminated, into the buffer and stops at the separator after it or at the end |
| `ObjectPaths.Basename` | source/nexboot/src/object.c:63-70 | The name of an object is the last component of its path |
| `ObjectPaths.ParseRendered` | source/nexboot/src/object.c:43-60 | Parsing a printed path gives back the components that were printed |
| `ObjectPaths.RenderParsed` | source/nexboot/src/object.c:228-248 | Printing the components of a path gives back the path |
| `ObjectTree.PathsDistinct` | source/nexboot/src/object.c:228-248 | No two objects of the tree have the same path |
| `ObjectTree.PrintedPathFinds` | source/nexboot/src/object.c:149-172 | The path printed for an object below the root can be looked up, and finds that object only |
| `ObjectTree.FoundPathPrints` | source/nexboot/src/object.c:228-248 | An object found by a canonical path prints as that path |
| `ObjectTree.AboveAreDirs` | source/nexboot/src/object.c:149-172 | The path of an object in the tree leads through directories only, so looking it up calls no service of another kind |
| `ObjectTree.NotAstray` | source/nexboot/src/object.c:158-171 | A lookup that ends at an object without such a child leaves no object of another kind further down the path |
| `ObjectTree.CreatedLookups` | source/nexboot/src/object.c:115-141 | A created object is found by its path if and only if the path above leads to a directory, and no other lookup changes |
| `ObjectTree.RemovedLookups` | source/nexboot/src/object.c:309-343 | A removed object is not found any more, and no other lookup changes |
| `ObjectTree.AddedOk` | source/nexboot/src/object.c:285-306 | Adding a child keeps the tree: distinct sibling names, parents that are directories, one path each |
| `ObjectTree.RemovedOk` | source/nexboot/src/object.c:309-343 | Removing a leaf keeps the tree |
| `ObjectTree.LinkedNodesOk` | source/nexboot/src/object.c:295-304 | Linking a child at the front keeps every child list linked both ways, counted, and every count equal to held references plus children |
| `ObjectTree.UnlinkedConsistent` | source/nexboot/src/object.c:333-341 | The pointer changes of a removal, with the parent's reference and child count lowered, keep the same |
| `ObjectTree.KidPlaces` | source/nexboot/src/object.c:295-339 | A new child comes first in its directory, and removing one leaves the others in their order |
| `ObjectTree.ObjectDb.constructor` | source/nexboot/src/object.c:143-147 | Start-up makes a tree of the root directory alone |
| `ObjectTree.ObjectDb.FindChild` | source/nexboot/src/object.c:199-205 | Calling the service that finds a child gives the child with the name, or null exactly when there is none, unless the object is no directory and has a service table of more than 7, which puts another service in its place |
| `ObjectTree.ObjectDb.Find` | source/nexboot/src/object.c:149-172 | Lookup returns the object with the path, or null exactly when there is none; it calls a service of another kind instead if and only if an object above the path is no directory and has a service table of more than 7, as displays, file systems and text consoles have (source/nexboot/drivers/vbe.c:581-589, source/nexboot/drivers/efigop.c:375-382, source/nexboot/src/vfs.c:292-303) |
| `ObjectTree.ObjectDb.GetPath` | source/nexboot/src/object.c:228-248 | The path is printed into the end of the buffer, terminated, or refused exactly when it does not fit |
| `ObjectTree.ObjectDb.AddChild` | source/nexboot/src/object.c:285-306 | A new object becomes the first child of a directory, which gets a reference |
| `ObjectTree.ObjectDb.FindParent` | source/nexboot/src/object.c:76-102 | The walk of an insertion finds what the path without its last component leads to |
| `ObjectTree.ObjectDb.Insert` | source/nexboot/src/object.c:73-113 | An insertion reports success exactly when the path above leads somewhere, and adds the object exactly when that is a directory; it calls a service of another kind instead if and only if the path leads to an object that is no directory and has a service table of more than 5 |
| `ObjectTree.ObjectDb.CallAddChild` | source/nexboot/src/object.c:104-108 | Adding a child to any object changes the tree exactly for a directory, nothing for an object with at most 5 services, and calls the service 5 of any other one |
| `ObjectTree.ObjectDb.Create` | source/nexboot/src/object.c:115-141 | Creation gives no object when the path is taken; a path whose parent is no directory gives an object outside of the tree; only directories have a service table at once. It fails exactly when lookup or insertion calls a service of another kind, or, for a free path, without memory, as calloc clears through the null pointer (source/nexboot/src/memmgr.c:423-429) |
| `ObjectTree.ObjectDb.InstallSvcs` | source/nexboot/src/object.c:207-216 | Installing a service table keeps the tree, except on a directory with children: its init service runs again and begins an empty child list. The assertion on the table reads behind it exactly when it has fewer than 5 services |
| `ObjectTree.ServicesConsistent` | source/nexboot/src/object.c:250-263 | The fields after installing a table describe the tree if and only if the object is no directory, is not in the tree, or has no children |
| `ObjectTree.ObjectDb.Ref` | source/nexboot/src/object.c:174-181 | Taking a reference keeps the tree and counts one more held reference; it fails exactly for an object without service table, or with one too short for the service |
| `ObjectTree.ObjectDb.RemoveChild` | source/nexboot/src/object.c:309-343 | A child without children leaves the list, the parent losing its reference before the child is counted out; an assertion fails exactly when that was the parent's last reference |
| `ObjectTree.ObjectDb.DropRef` | source/nexboot/src/object.c:183-197 | The last reference removes an object exactly when it has a parent, no children and a service table, and its parent has another reference; otherwise the program fails |
| `ObjectTree.ObjectDb.DeRef` | source/nexboot/src/object.c:183-197 | Releasing a held reference keeps the whole tree consistent and removes the object with the last one; it fails exactly for the last reference to an object without parent (the root, or one created outside of the tree), to a child that is all that keeps its parent, or to an object whose service table is absent or too short for the service that destroys it |
| `ObjectTree.ObjectDb.EnumDir` | source/nexboot/src/object.c:218-226 | Enumeration steps through the children in list order and then ends |
| `ObjectCases.RootReleased` | source/nexboot/src/object.c:189 | After start-up, releasing the only reference to the root fails |
| `ObjectCases.ReleasedWithoutServices` | source/nexboot/src/object.c:193 | Releasing the only reference to a new object that is no directory fails, as source/nexboot/src/vfs.c:59-66 does |
| `ObjectCases.ReleasedWithServices` | source/nexboot/src/object.c:193-195 | After its service table is installed it does not |
| `ObjectCases.LookupOfLost` | source/nexboot/src/object.c:104-109 | After creating /a, which is no directory, and /a/b, looking up /a/b finds nothing |
| `ObjectCases.LostReleased` | source/nexboot/src/object.c:189 | Releasing the only reference to that object fails |
| `ObjectCases.LookupBelowDisplay` | source/nexboot/src/object.c:199-205 | A lookup below an object with a table of 9 services, as displays have, calls one of them (source/nexboot/drivers/vbe.c:581-589) |
| `ObjectCases.CreationBelowLog` | source/nexboot/src/object.c:106-108 | Below an object with a table of 7 services, as the log has (source/nexboot/src/log.c:337-339), a lookup ends in null and a creation calls the one that writes to the log |
| `ObjectCases.ByServices` | source/nexboot/src/object.c:199-205 | A lookup of /a/b below the plain object /a goes to a service of another kind if and only if its table has more than 7 services, and a creation if and only if it has more than 5 |
| `ObjectCases.ListedLastFirst` | source/nexboot/src/object.c:370-382 | After creating /a and /b, the root lists b, then a, and then nothing |
| `PackageGraph.NeedsEarlier` | source/hosttools/nnbuild/build.c:156-239 | In a graph without self-edges everything needed was declared earlier, so the mutual recursion ends |
| `PackageGraph.RunOrdered` | source/hosttools/nnbuild/build.c:148-212 | In every run no step of a package is taken twice, each follows all steps of whatever the package needs directly or through groups and subgroups, and only the last step can have failed |
| `PackageGraph.RunComplete` | source/hosttools/nnbuild/build.c:148-212 | A run that succeeds has taken every step of the action for every package that was marked |
| `PackageGraph.ActionSteps` | source/hosttools/nnbuild/build.c:172-210 | In every run of all, finished or not, a package is configured after its own download and built after it was configured; confbuild builds after configuring; the other actions take only their own step, and an unknown one none |
| `PackageGraph.ActionComplete` | source/hosttools/nnbuild/build.c:172-210 | A run of all that succeeds has downloaded, configured and built every package of its order, and each other action has taken its own steps for every one |
| `PackageGraph.HaltReason` | source/hosttools/nnbuild/build.c:172-210 | A run of one of the six actions stops at a step that failed; with any other action nothing was started |
| `PackageGraph.PartWalk` | source/hosttools/nnbuild/build.c:148-239 | The depth-first walk in the part of the graph that a request reaches is the walk in the whole graph |
| `PackageGraph.FlatOnce` | source/hosttools/nnbuild/build.c:153-154 | Packages that are marked once have each step taken once |
| `PackageGraph.PartOkIff` | source/hosttools/nnbuild/build.c:156-239 | The part of a graph that a request reaches has only edges to earlier declarations if and only if nothing in it lists itself |
| `PackageGraph.PartNeeds` | source/hosttools/nnbuild/build.c:156-239 | Whatever is reached needs the same in that part as in the whole graph |
| `PackageBuild.ActOutcome` | source/hosttools/nnbuild/build.c:172-210 | The steps taken for one package are the whole action, or end with the only one that failed |
| `PackageBuild.Run.Act` | source/hosttools/nnbuild/build.c:172-211 | The package is marked and its steps taken, or with an unknown action nothing is done |
| `PackageBuild.Run.BuildPackage` | source/hosttools/nnbuild/build.c:148-212 | After success the package and everything it needs are built; nothing else is; after a failing step nothing else was started. The packages are built in the order of a depth-first walk, or the start of it |
| `PackageBuild.Run.BuildGroup` | source/hosttools/nnbuild/build.c:216-239 | The same for a group, its subgroups first |
| `PackageBuild.EdgesOrdered` | source/hosttools/nnbuild/build.c:156-170 | What a package lists is visited packages first, and what a group lists groups first |
| `PackageTree.FirstIs` | source/hosttools/nnbuild/package.c:170-181 | A name stands for the first declaration of its kind with it |
| `PackageTree.FoundIsFirst` | source/hosttools/nnbuild/package.c:150-181 | The first match in a list is the object of the first such declaration |
| `PackageTree.WantedNext` | source/hosttools/nnbuild/package.c:308-398 | One more value of a property adds exactly the object its name refers to, to the right list |
| `PackageTree.ListedAt` | source/hosttools/nnbuild/package.c:259-305 | What the values of a property refer to is listed in the order of the values |
| `PackageTree.OfKindOrder` | source/hosttools/nnbuild/package.c:259-286 | Packages and groups among dependencies each keep that order |
| `PackageTree.Builder.FindPackage` | source/hosttools/nnbuild/package.c:170-174 | The lookup returns the object of the first package declaration with the name, or null exactly when there is none |
| `PackageTree.Builder.FindGroup` | source/hosttools/nnbuild/package.c:177-181 | The lookup returns the object of the first group declaration with the name, or null exactly when there is none |
| `PackageTree.Builder.AddDependencyToPackage` | source/hosttools/nnbuild/package.c:259-286 | A dependency is a package before it is a group, and refused exactly when neither was declared |
| `PackageTree.Builder.AddPackageToGroup` | source/hosttools/nnbuild/package.c:235-256 | A member is refused exactly when no package of that name was declared |
| `PackageTree.Builder.AddGroupToGroup` | source/hosttools/nnbuild/package.c:289-305 | A subgroup is refused exactly when no group of that name was declared |
| `PackageTree.Builder.AddValue` | source/hosttools/nnbuild/package.c:308-398 | A value is accepted exactly when the property, its type and the name it gives are, and only the current object changes, by what the name refers to |
| `PackageTree.Builder.StartProperty` | source/hosttools/nnbuild/package.c:311-315 | Starting a property changes no object |
| `PackageTree.Builder.AddProperty` | source/hosttools/nnbuild/package.c:508-532 | A property is accepted exactly when all its values are, and what the object refers to is what the properties list |
| `PackageTree.Builder.AddBlock` | source/hosttools/nnbuild/package.c:471-534 | A declaration is accepted exactly when its kind, name and properties are |
| `PackageTree.Builder.BuildPackageTree` | source/hosttools/nnbuild/package.c:456-538 | The declarations are accepted or refused as specified, and then every object refers to what its declaration lists |
| `PackageTree.AcceptedNextIff` | source/hosttools/nnbuild/package.c:308-398 | A declaration is accepted after others if and only if it is a named package or group, its dependencies name packages or groups declared so far, usebuildpkg is true or false, commands are anything, and members and subgroups name packages and groups declared so far |
| `PackageTree.EdgesBackward` | source/hosttools/nnbuild/package.c:235-305 | Every edge leads to a declaration that is no later than the one that lists it |
| `PackageTree.SelfEdgeIff` | source/hosttools/nnbuild/package.c:259-305 | An object refers to itself if and only if its declaration lists its own name and no earlier declaration of its kind has it |
| `PackageTree.BuildableIff` | source/hosttools/nnbuild/package.c:456-538 | What a request reaches has only edges to earlier declarations if and only if no declaration that it reaches lists itself |
| `PackageTree.Builder.TreeAt` | source/hosttools/nnbuild/package.c:110-147 | The lists of every object in memory are its edges in the graph of the declarations |
| `PackageTree.Builder.StartRun` | source/hosttools/nnbuild/build.c:148-239 | When no declaration that the request reaches lists itself, its part of the tree is one that can be built, whatever other declarations list |
| `PackageTree.Builder.BuildPackages` | source/hosttools/nnbuild/package.c:406-453 | A request builds all it asks for in the whole graph when it succeeds, and nothing but that, in the order of depth-first walks from what it asks for, or the start of it when a step fails; an unknown name builds nothing |
| `VgaConsole.Console.WriteChar` | source/nexboot/drivers/vgaconsole.c:78-84 | One cell is written, in its place in the grid, or a place outside of the screen, which leaves it as it is |
| `VgaConsole.EntryShows` | source/nexboot/drivers/vgaconsole.c:40-41 | A written cell has the character in its low byte and foreground and background color in the next two groups of four bits |
| `VgaConsole.Console.ClearScreen` | source/nexboot/drivers/vgaconsole.c:119-130 | Every cell becomes a blank in the current colors |
| `VgaConsole.Console.ScrollDown` | source/nexboot/drivers/vgaconsole.c:208-223 | The rows move up by one, and the last one is blank |
| `Terminal.Terminal.SetAttributes` | source/nexboot/drivers/terminal.c:509-525 | The attributes set the colors in order, a number behind the color table to the byte that lies there |
| `Terminal.Terminal.ProcessLetter` | source/nexboot/drivers/terminal.c:397-527 | The letter that ends an escape sequence has the specified effect on cursor, screen and colors |
| `Terminal.Terminal.Escape` | source/nexboot/drivers/terminal.c:545-621 | A byte inside an escape sequence has the specified effect, and assertions fail exactly where specified |
| `Terminal.Terminal.Scroll` | source/nexboot/drivers/terminal.c:375-385 | The console is scrolled until the cursor is on the screen |
| `Terminal.Terminal.WriteChar` | source/nexboot/drivers/terminal.c:529-689 | From any column, one byte takes the terminal to the specified state, with the row on the screen; what each byte and sequence does is said by the lemmas of TerminalMoves and TerminalColors |
| `Terminal.Terminal.Write` | source/nexboot/drivers/terminal.c:805-816 | Any string takes the terminal through the specified run, up to the first byte that stops it |
| `Terminal.Step` | source/nexboot/drivers/terminal.c:529-689 | After every byte that does not stop the terminal the row is on the screen, on a screen of any size, from any column and with any parameters |
| `Terminal.RowStaysOnScreen` | source/nexboot/drivers/terminal.c:529-689 | Through every stream in which ESC is followed by '[', 'D', 'M' or 'H', on a screen of any size, the row stays on the screen, and no digit is taken before there is a parameter |
| `Terminal.StepColumnIff` | source/nexboot/drivers/terminal.c:397-527 | On a screen of at least 4 columns a byte keeps the column on the screen if and only if it is not a letter whose parameters reach past the side |
| `Terminal.ColumnStaysOnScreen` | source/nexboot/drivers/terminal.c:529-689 | A terminal of at least 4 columns that was just opened keeps the column on the screen through every stream whose escape sequences only have numbers below the number of columns; printed text may hold any numbers |
| `Terminal.ColumnStaysIff` | source/nexboot/drivers/terminal.c:529-689 | The column is on the screen after every byte of a stream if and only if no letter in the stream moves the cursor past the side |
| `Terminal.TextHasNone` | source/nexboot/drivers/terminal.c:577-621 | A stream without ESC has no numbers of escape sequences, whatever digits it prints |
| `Terminal.ColumnLeavesScreen` | source/nexboot/drivers/terminal.c:400-416 | ESC [ 5 ; 2 0 0 H moves the column of a terminal of 80 columns to 200, with the row on the screen |
| `Terminal.ColumnWithin` | source/nexboot/drivers/terminal.c:397-527 | After n bytes the column is at most 1000 * n before the first or behind the last one, so it stays a number of 32 bits for two million bytes |
| `Terminal.ReadByte` | source/nexboot/drivers/terminal.c:577-621 | Every parameter is 0 or a number that stands where an escape sequence has a parameter, the current one is the one being read, and the escape state is a function of the stream |
| `TerminalPage.TypedShows` | source/nexboot/drivers/terminal.c:622-681 | A plain byte does the same on the screen and on a page that never scrolls |
| `TerminalPage.ScrolledShows` | source/nexboot/drivers/terminal.c:375-385 | Scrolling shows the end of the page again |
| `TerminalPage.ScreenShowsPage` | source/nexboot/drivers/terminal.c:622-686 | For every plain text on a cleared screen of at least 4 columns, the cells are the last rows of the unbounded page, and the cursor is the page cursor less the rows scrolled |
| `TerminalPage.PrintableRunsOn` | source/nexboot/drivers/terminal.c:665-680 | On the page, printable text runs on from cell to cell, whatever the number of columns |
| `TerminalMoves.Backspace` | source/nexboot/drivers/terminal.c:641-657 | A backspace moves the cursor back by exactly one cell, or not at all in the top left corner, and changes nothing else |
| `TerminalMoves.PrintStep` | source/nexboot/drivers/terminal.c:664-686 | A printed byte goes to the cursor, which moves one cell on; behind the last cell the screen scrolls |
| `TerminalMoves.PrintThenBack` | source/nexboot/drivers/terminal.c:641-686 | A printed byte and a backspace bring the cursor back, unless the byte scrolled the screen |
| `TerminalMoves.NumbersRead` | source/nexboot/drivers/terminal.c:577-616 | The bytes ESC [ and up to 15 numbers of at most three digits with ; between them, written in decimal, are read back as those parameters |
| `TerminalMoves.SequenceRead` | source/nexboot/drivers/terminal.c:545-621 | A letter behind them takes effect with exactly these numbers |
| `TerminalMoves.FourDigits` | source/nexboot/drivers/terminal.c:590-597 | A fourth digit of a number fails an assertion |
| `TerminalMoves.SixteenNumbers` | source/nexboot/drivers/terminal.c:603-611 | A sixteenth number fails an assertion |
| `TerminalMoves.UpAndDown` | source/nexboot/drivers/terminal.c:421-450 | ESC [ n A moves the cursor up by n rows at most, and ESC [ n B down, in its column |
| `TerminalMoves.MovesOn` | source/nexboot/drivers/terminal.c:451-468 | ESC [ n C moves the cursor n cells on, also past the end of a row |
| `TerminalMoves.MovesBack` | source/nexboot/drivers/terminal.c:469-488 | ESC [ n D moves it n cells back, also past the start of a row |
| `TerminalMoves.Undone` | source/nexboot/drivers/terminal.c:421-488 | Inside of the screen, up undoes down and back undoes on |
| `TerminalMoves.Placed` | source/nexboot/drivers/terminal.c:400-420 | ESC [ r ; c H and f put the cursor into row r and column c |
| `TerminalMoves.PlacedFirst` | source/nexboot/drivers/terminal.c:400-420 | Without numbers, and without earlier ones, they put it into the top left corner |
| `TerminalMoves.Erased` | source/nexboot/drivers/terminal.c:489-508 | ESC [ 2 J fills the screen with spaces in the colors of before, homes the cursor, and goes on in white on black |
| `TerminalColors.Attribute` | source/nexboot/drivers/terminal.c:509-525 | ESC [ a m sets the foreground color from 30 on, the background color from 40 on, and white on black for 0 |
| `TerminalColors.OneByOne` | source/nexboot/drivers/terminal.c:509-525 | Several attributes in one sequence do what one sequence for each of them does, in order |
| `TerminalColors.ColoredText` | source/nexboot/drivers/terminal.c:509-525 | A character printed behind a color attribute shows that character in that color, with the other color as it was |
| `TerminalMoves.ShortEscapes` | source/nexboot/drivers/terminal.c:548-561 | ESC D moves down and ESC M up by one row, and the next byte is taken for a letter |
| `TerminalMoves.TabEscape` | source/nexboot/drivers/terminal.c:562-573 | ESC H moves like a tab |
| `TerminalColors.TextReads` | source/nexboot/drivers/terminal.c:622-686 | Text on a cleared screen can be read there in order, from its start if it is shorter than the screen and else its end, with spaces behind it |
| `Display.PartCopied` | source/nexboot/drivers/vbe.c:526 | Copying a part of a line changes that part of that line and nothing else |
| `Display.RingStart` | source/nexboot/drivers/vbe.c:501-514 | The wrapped position of a region is the line of the ring it starts on |
| `Display.Display.SetRender` | source/nexboot/drivers/vbe.c:559-573 | The ring start stays on a scan line inside the back buffer and moves to the next one, around the end |
| `Display.Display.Invalidate` | source/nexboot/drivers/vbe.c:488-532 | A region is refused exactly when it is not on the display; otherwise the front buffer takes what is drawn in it, read around the ring, and keeps the rest |
| `Display.Display.PlotLine` | source/nexboot/drivers/fbconsole.c:486-492 | All pixels of one line take one color, and no other line changes |
| `FbConsole.Console.ClearLines` | source/nexboot/drivers/fbconsole.c:474-500 | Lines of the screen become background, followed around the ring |
| `FbConsole.Console.MoveUp` | source/nexboot/drivers/fbconsole.c:463-465 | Moving the ring start by n lines is moving the picture up by n lines |
| `FbConsole.Console.Scroll` | source/nexboot/drivers/fbconsole.c:458-508 | Every line takes what was a character height below it, the last row is background, the text area is seen as drawn, and the rest of the front buffer is kept |
| `FbConsole.Console.ScrollText` | source/nexboot/drivers/fbconsole.c:458-508 | For the text area a scroll is a physical shift by one row, seen in the front buffer |
| `FbConsole.Console.ScrollRows` | source/nexboot/drivers/terminal.c:378-383 | After any number of scrolls the text is that of a plain screen shifted as often |
| `FbConsole.Console.ClearScreen` | source/nexboot/drivers/fbconsole.c:263-289 | The ring starts at the first line again, and all is background, drawn and seen |
| `DisplayModes.VbeQueryMode` | source/nexboot/drivers/vbe.c:327-387 | The search comes to an end exactly when no query that fails comes before the first usable 32-bit mode of the size; then a mode is found if and only if one with attribute bits 0, 3, 4 and 7, memory model 4 or 6 and 16 or 32 bits fits; no such mode covers the one found and is larger, the first exact 32-bit match wins, and otherwise the last of equal ones |
| `DisplayModes.UsableIs` | source/nexboot/drivers/vbe.c:344-358 | Usable modes are those with attribute bits 0, 3, 4 and 7 set, memory model 4 or 6, and 16 or 32 bits |
| `DisplayModes.ExactIs` | source/nexboot/drivers/vbe.c:360-361 | The modes that end the search at once are the usable ones of exactly the size with 32 bits |
| `DisplayModes.SearchEndsIff` | source/nexboot/drivers/vbe.c:337-385 | For all lists, some number of passes of the search loop ends it if and only if no query that fails comes before the first usable 32-bit mode of the size |
| `DisplayModes.FailingQueryNeverEnds` | source/nexboot/drivers/vbe.c:341-342 | With a list of one mode whose query fails, no number of passes ends the search |
| `DisplayModes.GopQueryMode` | source/nexboot/drivers/efigop.c:67-108 | The same for EFI: a mode that can be drawn to, fits and is not covered by a larger such one, the first exact match or else the last of equal ones, only an exact match when one is required, and a failing query ending the search; the requested size is compared as unsigned, so that a negative one is larger than every mode |
| `FileRead.File.ReadBlock` | source/nexboot/src/vfs.c:199-200 | The block that holds the position is in the buffer, or the read fails |
| `FileRead.File.ReadNext` | source/nexboot/src/vfs.c:198-223 | One block read copies the bytes of the file that are in the block, were asked for and exist |
| `FileRead.File.InBufferIff` | source/nexboot/src/vfs.c:202-220 | A block read copies from within the block buffer if and only if the request or the file ends within the block, or a whole block is asked for and the file goes on for one; then it copies what is asked for up to the end of block and file |
| `FileRead.File.Read` | source/nexboot/src/vfs.c:180-229 | What is copied is always a part of the file in order, and nothing else is written; it is all that was asked for and exists, from within a block up to its end, when no read of its blocks fails, also if the read then fails on what follows the end of the file |
| `FileRead.File.ReadFile` | source/nexboot/src/vfs.c:342-351 | The number of bytes read, as a signed number of 32 bits and so itself below 2 GiB, or -1 exactly when the read stopped at a block that cannot be read, with the same guarantee |
| `FileRead.BlockCount` | source/nexboot/src/vfs.c:195 | The number of blocks read covers the request exactly |
| `FileRead.OsReadFile` | source/nexboot/src/nexnix.c:38-64 | The result is never null, and the buffer holds the file up to the first block whose read failed, and so the whole file when none does |
| `Pages.PageOffsetsIff` | source/nexboot/src/nexnix.c:51-56 | The signed products of page number and page size are the positions of all pages of an area if and only if it has at most 2 GiB |
| `Pages.PageCountIs` | source/nexboot/src/elf.c:104-105 | The pages of an area are the fewest that hold it |
| `ElfLoad.Machine.Fill` | source/nexboot/src/elf.c:110-115 | Fresh pages hold the file data of a segment and then zeros, and other memory is kept |
| `ElfLoad.Machine.MapPages` | source/nexboot/src/elf.c:116-132 | Each page of a segment, also past the end of the address space, is mapped to its fresh page with its flags, and other mappings are kept |
| `ElfLoad.Machine.LoadSegments` | source/nexboot/src/elf.c:99-136 | All loadable segments are in memory at the end; each page is mapped for the last segment that has it, and as before when none has |
| `ElfLoad.OwnerIs` | source/nexboot/src/elf.c:99-136 | Which segment a page is mapped for: the last one that has the page |
| `ElfLoad.SegmentAsAsked` | source/nexboot/src/elf.c:162-199 | From the start of its first page on, each address of a segment in a page that no later segment has reads as the byte of the file at the offset of the segment, or 0 behind the file data; the page is writable (2) exactly with segment flag 2 and executable (not 8) exactly with segment flag 1 |
| `ElfLoad.AcceptedFor` | source/nexboot/src/elf.c:26-103 | The accepted files in numbers: little endian ELF files of class 1 and machine 3 on i386, and of class 2 and machine 62, 243 or 183 on the others |
| `ElfLoad.PageAtIs` | source/nexboot/src/elf.c:127-132 | Addresses of pages are computed in 32 bits on i386 and in 64 bits on the others |
| `ElfLoad.Machine.LoadFile` | source/nexboot/src/elf.c:67-204 | The entry point is returned exactly for a little endian file of the class and machine of the architecture; otherwise nothing is loaded |

## Left out

- BootHeap.Heap.Malloc: requests above `HeapSizes.RequestLimit` are excluded, because the size computations wrap there (`HeapSizes.BlockCoversIff`) and the block handed out does not hold the request; from 8 TiB on the firmware takes the count of pages for a negative number, which the model leaves to the firmware.
- BootHeap.Heap.Free: covers null, live pointers, and pointers whose header a release has marked; what happens with any other address depends on what lies there.
- HeapMemory.Frame: headers are records that are read and written as a whole, not their bytes; a page header that was never written counts 0 pages, and no page is the last one of the address space.
- ObjectTree.ObjectDb.Create: the data of a new directory is taken to get memory when the object does; the buffers of the parser (80) and of names (64) bound the components.
- ObjectTree.ObjectDb.InstallSvcs: a directory gets no other table than its own; the init, reference and destroy services of other objects are taken not to change the database.
- ObjectTree.ObjectDb.Find: what follows when a lookup calls a service of an object of another kind is not modelled.
- ObjectTree.ObjectDb.Insert: the same for a creation.
- ObjectTree.ObjectDb.DeRef: memory of a removed object is not modelled as reusable.
- PackageTree.Builder.AddProperty: command strings are not kept, and kinds and property names are enumerations of the strings the code compares with; a number as the value of a command, which the code reads as a pointer, counts as a command here.
- PackageBuild.Run.BuildPackage: the confhelp action, which skips the marks, and shell processes and signals.
- PackageTree.Builder.StartRun: requires that no declaration that the request reaches lists itself; what a run does that comes to such a declaration is not modelled.
- Terminal.Terminal.WriteChar: the serial output branch, the missing output end, the hardware cursor, and memory outside of the screen; the column is not bounded to 32 bits (`Terminal.ColumnWithin`), and a digit without a parameter, which the code writes before the table, stops the model.
- TerminalPage.ScreenShowsPage: backspace and escape sequences are excluded, since a backspace at the top of the screen cannot go back to a row that was scrolled off.
- VgaConsole.Console.WriteChar: port access to the cursor registers.
- FbConsole.Console.Scroll: a color is given as the bytes of a pixel; characters and the cursor are not drawn.
- FbConsole.Console.ClearScreen: uses the line loop of scrolling, which from the start of the buffer does not wrap.
- DisplayModes.VbeQueryMode: a query that fails is taken to fail again when it is repeated.
- Display.Display.constructor: setting a mode, which remaps the buffers.
- FileRead.File.Read: requests that make the code copy from behind the block buffer (`FileRead.File.InBufferIff`), and requests from the start of a block for more than a block that are not for whole blocks, for which it copies more than was asked for; files within 8192 bytes of 4 GiB.
- FileRead.OsReadFile: block sizes that do not divide the page size, files of more than 2 GiB, opening the file, and running out of memory, which stops the loader.
- ElfLoad.Machine.LoadFile: program headers come parsed; segments with more file data than memory or with more than 2 GiB are excluded, and so is a firmware without pages, which the code does not test for.
- ElfLoad.Machine.Map: the page table keeps the flags of each page; its directories, memory for them, and processors without execute protection are not modelled.
- Keyboard input, echo and line reading of the terminal, and changing its size.
- Partition tables, file systems, disk drivers, the shell, menus, logging and the kernel.
- The image tool of the build system.
