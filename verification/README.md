# Proofs about kube-on-macos

kube-on-macos runs Kubernetes pods on macOS, one microVM per pod. This project models the parts of it
whose correctness is not obvious from reading them, as Dafny values, state machines and classes, and
proves what they promise. `dafny verify dfyconfig.toml` checks everything.

## What is modelled

**The EROFS image writer** (`poc/agent/erofs/erofs.go`). `Bytes`, `Sorting`, `TarTree`, `TarInvariant`, `Walk`,
`DirFormat` and `Image` say what the image of a tar stream is; `Reader` is a reader of the format over bytes;
`RoundTrip` and `TreeRecovered` prove that the reader gets the stream's tree back. `NodeGraph`, `DirPacker`,
`InodePacker` and `ErofsWriter` hold the writer as it runs: node objects with parent, children and alias
pointers updated in place, byte buffers, an output that grows. Every method is tied to the functions above,
and `ErofsWriter.Convert` returns exactly `Image.Image`. A stream is a list of headers with contents; what a
flattened stream guarantees is `TarInvariant.WellFormed`: each cleaned path once, no `..`, no doubled
leading slash, no NUL, hardlinks to an earlier, different path that is no directory, and the root only as a
directory. Block numbers and counters are cut to the widths the code uses; the reader's theorem asks that
the finished image stays within them (`TreeRecovered.Converted`).

**The ClusterIP load balancer** (`poc/execd/services.go`, `poc/agent/services.go`). `FlowKey` parses packets and
makes cache keys, `ServiceLB` is the balancer as step functions and as a class, `PacketPath` the state machine
of packets, rules, queue and verdicts, `ServiceRange` which packets are for the range, `PacketLimits` how far its promise reaches whatever the kernel does,
`EndpointSlices` the host's answers, `ServiceTraffic` both ends together. How a flush ends is an input of every
step; that the kernel refuses to overwrite a map element is a condition on it (`ServiceLB.KernelRefuses`,
`PacketPath.RefusingRun`), named where it is used. nf_tables keeps it: adding an element for a key that is there with
other data fails.

**The supervisor and the host's reading of it** (`poc/execd/supervisor.go`, `poc/agent/status.go`). `Container`
has each locked section of a container's goroutine and the goroutine's loop, `Supervisor` all interleavings of
them with shutdown, `PodStatus` the statuses, phases and the agreement of both sides.

**The PKI reconciler** (`poc/pki/main.go`). `PkiStore` and `Pki` hold files, keys and certificates as values and one
reconcile; `PkiRun` whole runs and convergence; `PkiAnyOrder` runs in which CAs sort before their issuers;
`PkiForeign` a PKI that never settles; `PkiReconciler` the reconciler rewriting its store; `StringSets` the
order-blind comparison. A signature is the signer's key recorded in the certificate, verification compares it, and
reading back what was written is exact.

**Smaller pieces.** `ResolveInRoot` and `ResolveExact` (`poc/execd/blockroot.go`), `Frames` and `FrameSession` (`poc/execd/main.go`,
`poc/agent/streams.go`), `Probes` (`poc/agent/probes.go`), `DevicePlan` and `PodvmArgs` (`poc/agent/main.go`,
`poc/harness/podvm.c`).

Things the proofs brought out:

- `extKeyUsagesEqual` compares lengths and then contains one way. It is equality up to order for every
  certificate exactly when the spec lists no usage twice (`PkiStore.UsagesEqualExact`); for a list with a repeat
  there is always a different list it accepts (`PkiStore.UsagesEqualBlind`).
- The PKI converges exactly when no certificate comes due and no issuer's certificate is barred from certifying
  (`PkiRun.Convergence`). Only a CA certificate that was there before can be barred (`PkiRun.UnfitWasThere`);
  with one, every run completes and reissues what is below it, for ever (`PkiForeign.NeverConverges`).
- The passes put CAs before leaves but sort CAs by name. A CA that sorts before its issuer, or is its own, makes every
  run fail as long as the issuer's certificate does not exist (`PkiAnyOrder.NeverCompletes`). Once runs complete, one
  may be too few (`PkiAnyOrder.OneRunTooFew`); two always suffice, however long the chains are
  (`PkiAnyOrder.ThirdRun`), because a key once loaded is never replaced.
- Marks are 32-bit, and allocation number 2^32 yields mark 0, which the verdict callback takes for "no endpoints"
  (`ServiceLB.IdsWrap`). Beyond that it is the kernel that keeps marks right: the next id is 1 again, its element is
  refused, and the new endpoint gets no mark (`ServiceLB.IdReissued`). With a kernel that refuses so, marks and packets
  are right in every run of any length (`ServiceLB.MarkStable`, `PacketPath.PacketsServed`). A kernel that overwrote
  would keep them right in every run of n allocations exactly up to n = 2^32 (`ServiceLB.MarksStableExactly`,
  `PacketLimits.PacketsServedExactly`).
- `resolveInRoot` cleans a link's text before it walks it, so a `..` undoes whatever name stands before it, and a `.` or
  slash at the end is dropped. The text is resolved as an in-place walk would in every tree exactly when each `..`, and
  a `.` or empty component at its end, is taken in the link's own directory or one above it
  (`ResolveExact.TextExactly`): a link to `f/.` finds the file `f`, where in place "not a directory" comes back. In a
  given tree it is enough that each of them is taken in a real directory that no link leads to
  (`ResolveInRoot.ResolveIsWalk`).
- A session whose connection breaks before the whole exit frame has arrived ends cleanly whatever the exit code
  was (`FrameSession.CutSession`).
- A startup probe keeps probing after it has succeeded, and kills again exactly if the threshold's failures in a
  row come later (`Probes.StartupKeepsKilling`).
- A container that keeps crashing backs off up to 32 seconds (`Container.CrashesBackOff`), but one that can never be
  started is tried again every second for ever, because its run is measured from a start that never was
  (`Container.FailuresDoNot`).
- A writable share whose path ends in `:ro` is not the share the harness attaches (`PodvmArgs.ParsePrinted`).

## Model

| member | source | states |
|---|---|---|
| `ErofsWriter.Convert` | poc/agent/erofs/erofs.go:103-139 | the in-place writer returns the image that the stream determines, or fails where an entry fails; map order has no influence |
| `Image.ImageOutcome` | poc/agent/erofs/erofs.go:122-139 | an image is written exactly when every entry is accepted, and it is the one of the built graph |
| `TarInvariant.BuildOk` | poc/agent/erofs/erofs.go:143-237 | the tar loop gets through exactly when every entry fits: no listed non-directory above it or, for a non-directory, anything below it, names up to 255 bytes, full content, an existing link target |
| `TarInvariant.AddEntryOk` | poc/agent/erofs/erofs.go:174-237 | one entry is accepted exactly under those conditions |
| `TarInvariant.Build` | poc/agent/erofs/erofs.go:143-271 | after any accepted stream the graph satisfies the whole tree invariant, the layout invariant, and has a node for exactly the paths the stream implies |
| `TarInvariant.FillBuilt` | poc/agent/erofs/erofs.go:183-236 | describing, retyping, streaming or aliasing the entry's node keeps the invariant for the longer stream |
| `TarInvariant.CreateBuilt` | poc/agent/erofs/erofs.go:143-172 | looking a path up and creating its parents on demand keeps the invariant |
| `TarInvariant.RetypedLinks` | poc/agent/erofs/erofs.go:196-206 | turning a pre-created directory into something else keeps every link count right |
| `TarInvariant.RetypedNames` | poc/agent/erofs/erofs.go:221-231 | an alias adds exactly one to its target's count of names and takes none from any other |
| `TarInvariant.DataStep` | poc/agent/erofs/erofs.go:245-271 | streamed bytes land in fresh blocks; earlier data stays where and what it was |
| `TarTree.CleanSplit` | poc/agent/erofs/erofs.go:144-144 | cleaning a name: slashes only separate, what stands before one and what stands behind it are cleaned apart |
| `TarTree.CleanPlain` | poc/agent/erofs/erofs.go:144-144 | a name without a slash is its own only component, or none if it is empty or "." |
| `TarTree.CleanSpelled` | poc/agent/erofs/erofs.go:144-144 | however a path is spelled, with "/" or "./" in front or "/" behind, its name cleans to its components |
| `TreeRecovered.ReaderGetsTreeBack` | poc/agent/erofs/erofs.go:103-139 | a reader of the image resolves exactly the paths of the tar tree, finds type, mode, owner, time, device, link count and content of each, and two paths share an inode exactly when they are hardlinks of one entry |
| `TreeRecovered.FoundByName` | poc/agent/erofs/erofs.go:174-237 | an entry is found at the path its name spells, and the inode there has its type, permissions, owner, time, device numbers, content and count of links |
| `TreeRecovered.FoundAsTarget` | poc/agent/erofs/erofs.go:221-231 | a hardlink is found at the inode of the path its link name spells |
| `TreeRecovered.DotEntries` | poc/agent/erofs/erofs.go:332-342 | read back, '.' is the directory itself and '..' its parent, the root's being the root |
| `TreeRecovered.EntryTypes` | poc/agent/erofs/erofs.go:332-342 | every entry found in any directory points at a written inode whose mode has the entry's type |
| `TreeRecovered.LayoutSafe` | poc/agent/erofs/erofs.go:245-271 | extents of distinct non-empty inodes are disjoint and lie between block 1 and the meta area |
| `TreeRecovered.DeviceDecodes` | poc/agent/erofs/erofs.go:239-242 | the number or-ed together for any two integers is read back by Linux as those two exactly when they have 12 and 20 bits |
| `DirFormat.LookupDirOk` | poc/agent/erofs/erofs.go:344-393 | the kernel's two-level binary search over the packed blocks finds a name exactly when a scan of the entries does, with that entry's inode and type |
| `DirFormat.BlocksAreGroups` | poc/agent/erofs/erofs.go:344-391 | block b of the data holds exactly the b-th greedy group, and there are as many blocks as groups |
| `DirFormat.GroupIsSlice` | poc/agent/erofs/erofs.go:344-373 | the groups cut the sorted entries into consecutive non-empty slices |
| `Walk.RootFirst` | poc/agent/erofs/erofs.go:275-295 | the walk starts at the root |
| `Walk.WalkSteps` | poc/agent/erofs/erofs.go:275-295 | visiting one node and queueing its sorted, non-alias children keeps the queue the next stretch of the canonical order |
| `Walk.WalkEnds` | poc/agent/erofs/erofs.go:275-295 | when the queue is empty exactly the inodes have been visited, in the canonical order |
| `Walk.CanonicalInWalk` | poc/agent/erofs/erofs.go:275-307 | every path's canonical node is visited |
| `Image.WalkDistinct` | poc/agent/erofs/erofs.go:297-307 | no inode is visited twice |
| `Image.StagedPlan` | poc/agent/erofs/erofs.go:275-307 | numbering and placing leave the walk of every later pass unchanged |
| `Image.NidInjective` | poc/agent/erofs/erofs.go:297-307 | different inodes get different slots |
| `Image.DirsGrow` | poc/agent/erofs/erofs.go:310-319 | writing directories only appends whole blocks |
| `Image.EntriesPack` | poc/agent/erofs/erofs.go:344-362 | no dirent of an accepted tree is too long for a block |
| `Image.ListingUnique` | poc/agent/erofs/erofs.go:327-342 | any collection order of the children sorts to the one listing of the directory |
| `Image.PlacedAt` | poc/agent/erofs/erofs.go:297-319 | numbers, blocks and sizes of every inode after all passes |
| `RoundTrip.SuperReadsBack` | poc/agent/erofs/erofs.go:443-459 | the superblock's fields read back from the finished image |
| `RoundTrip.InodeReadsBack` | poc/agent/erofs/erofs.go:397-441 | inode k reads back from slot 2 + 2k of the meta area |
| `RoundTrip.SuperRest` | poc/agent/erofs/erofs.go:443-459 | the rest of the superblock is the fixed id and name, and zeros: no checksum and no feature to know about |
| `RoundTrip.InodeRest` | poc/agent/erofs/erofs.go:414-433 | the rest of an inode is zero: no extended attributes, no nanoseconds |
| `NodeGraph.AddedLinked` | poc/agent/erofs/erofs.go:158-171 | a new node leaves byPath, parents, children and aliases agreeing |
| `NodeGraph.DetachedLinked` | poc/agent/erofs/erofs.go:196-206 | detaching a node's directory role leaves them agreeing |
| `NodeGraph.LinkedAlias` | poc/agent/erofs/erofs.go:221-231 | so does making a node an alias; alias chains have one link |
| `ErofsWriter.Writer.CanonicalOf` | poc/agent/erofs/erofs.go:85-90 | following alias pointers ends at the node that is none |
| `ErofsWriter.Writer.Find` | poc/agent/erofs/erofs.go:143-152 | lookup without creation finds exactly the existing paths |
| `ErofsWriter.Writer.Lookup` | poc/agent/erofs/erofs.go:143-172 | lookup with creation makes the missing parents and the node, or fails on a non-directory or a long name |
| `ErofsWriter.Writer.AddEntry` | poc/agent/erofs/erofs.go:174-237 | one header changes the node objects and the output as specified, or fails |
| `ErofsWriter.Writer.StreamData` | poc/agent/erofs/erofs.go:245-260 | content goes to the current block, padded; an empty one takes none; short content fails |
| `ErofsWriter.Writer.PadToBlock` | poc/agent/erofs/erofs.go:262-271 | output ends on a block boundary and nextBlk counts its blocks |
| `ErofsWriter.Writer.WalkTree` | poc/agent/erofs/erofs.go:275-295 | the breadth-first loop over the objects yields the canonical order |
| `ErofsWriter.Writer.AssignNids` | poc/agent/erofs/erofs.go:297-307 | numbers and slots in walk order, nothing else changed |
| `ErofsWriter.Writer.WriteDirBlocks` | poc/agent/erofs/erofs.go:310-319 | all directories written and placed, in walk order |
| `ErofsWriter.Writer.ListDir` | poc/agent/erofs/erofs.go:327-342 | the collected dirents are the directory's, whichever order the map yields its children in |
| `ErofsWriter.Writer.WriteOneDir` | poc/agent/erofs/erofs.go:327-394 | a directory's packed entries are appended, padded, and its node records where |
| `ErofsWriter.Writer.WriteBlocks` | poc/agent/erofs/erofs.go:375-393 | all but the last block are padded to full size and counted in full |
| `ErofsWriter.Writer.WriteInodes` | poc/agent/erofs/erofs.go:397-441 | two empty slots, every inode's 64 bytes, padding; returns first block and count |
| `ErofsWriter.Writer.WriteSuperblock` | poc/agent/erofs/erofs.go:443-459 | bytes 1024 to 1151 become the superblock, nothing else changes |
| `DirPacker.PackDir` | poc/agent/erofs/erofs.go:344-373 | the packing loop fills exactly the greedy blocks, or fails exactly when a single entry does not fit |
| `DirPacker.PackBlock` | poc/agent/erofs/erofs.go:357-371 | one buffer holds headers with name offsets, then names |
| `InodePacker.PutInode` | poc/agent/erofs/erofs.go:414-433 | the reused buffer holds the inode's fields at their offsets and zeros elsewhere |
| `Sorting.SortUnique` | poc/agent/erofs/erofs.go:336-342 | sorting a set of names has one result |
| `Bytes.LtIs` | poc/agent/erofs/erofs.go:336-342 | the order of directory entries is that of the first differing byte, a name before its continuations |
| `FlowKey.ParseFlowReads` | poc/execd/services.go:337-352 | of packets laid out as in section 3 of RFC 8200, exactly those with TCP or UDP first are accepted, with their own destination and port |
| `FlowKey.ParseFlowSound` | poc/execd/services.go:337-352 | everything accepted is such a packet |
| `FlowKey.KeyInjective` | poc/execd/services.go:229-229 | two flows share a cache key only if they are one, colons in addresses notwithstanding |
| `FlowKey.KeyIs` | poc/execd/services.go:229-229 | the key is address, port in decimal and protocol with colons between |
| `FlowKey.DecimalValue` | poc/execd/services.go:229-229 | a number is printed in decimal digits that stand for it, without leading zeros |
| `ServiceLB.MarkStable` | poc/execd/services.go:206-224 | through every run of any length in which the kernel refuses to overwrite an element, failed and half-failed flushes included, a mark ever issued keeps denoting the endpoint it was issued for, in epID and in the kernel |
| `ServiceLB.PickExtends` | poc/execd/services.go:206-224 | a pick loses nothing given out before exactly if the kernel does not overwrite in it |
| `ServiceLB.FewAllocations` | poc/execd/services.go:212-213 | up to 2^32 allocations there is nothing to refuse |
| `ServiceLB.MarksStableExactly` | poc/execd/services.go:206-224 | whatever the kernel does with keys it has, marks keep their meaning in every run of n allocations exactly up to n = 2^32 |
| `ServiceLB.RunMarks` | poc/execd/services.go:206-224 | in every run of up to 2^32 allocations epID is injective into the ids handed out and the kernel's map agrees with it |
| `ServiceLB.IdKeeps` | poc/execd/services.go:208-224 | one allocation, however its flush ends, keeps that and reissues no id |
| `ServiceLB.FreshWhile` | poc/execd/services.go:212-213 | the next id is nonzero and was never allocated before exactly while fewer than 2^32 - 1 were |
| `ServiceLB.IdsWrap` | poc/execd/services.go:212-213 | the allocation after 2^32 - 1 others yields mark 0 |
| `ServiceLB.IdReissued` | poc/execd/services.go:212-223 | the one after it comes to mark 1 again: it keeps its meaning exactly if the kernel refuses, and then the new endpoint gets none; otherwise two endpoints share it |
| `ServiceLB.ElementIs` | poc/execd/services.go:214-216 | the map element is the endpoint's address and its port, as far as 16 bits hold it |
| `ServiceLB.KnownMark` | poc/execd/services.go:209-211 | an endpoint that has its mark gets it again, whatever the kernel says |
| `ServiceLB.NewMark` | poc/execd/services.go:212-223 | a new one gets the next id exactly if its element is added and committed and the caller sees it |
| `ServiceLB.OthersUntouched` | poc/execd/services.go:228-264 | a pick leaves other flows' entries alone; a failed query changes nothing |
| `ServiceLB.CoherentStep` | poc/execd/services.go:233-257 | the cache holds under each flow's key the latest successful answer for that flow |
| `ServiceLB.CacheAnswers` | poc/execd/services.go:233-234 | while its entry lasts a pick does not depend on what the host would answer |
| `ServiceLB.Unanswered` | poc/execd/services.go:235-241 | a failed query, or an answer that names an error, makes the pick fail and changes nothing |
| `ServiceLB.AnswerLasts` | poc/execd/services.go:242-257 | an answer lasts as long as it says from when it came, or 10 seconds |
| `ServiceLB.NoEndpoint` | poc/execd/services.go:258-260 | a flow without endpoints gets mark 0 and costs no id |
| `ServiceLB.RoundRobin` | poc/execd/services.go:247-262 | picks over an unchanged list rotate, across refreshes, failures and other flows' picks |
| `ServiceLB.FairShare` | poc/execd/services.go:261-262 | n*k picks over n endpoints choose each position exactly k times |
| `ServiceLB.SvcLB.IdFor` | poc/execd/services.go:208-224 | idFor in place does what the step function says, result and state |
| `ServiceLB.SvcLB.ReconcileEndpoints` | poc/execd/services.go:269-285 | connections are reset for exactly the addresses of endpoints that are gone |
| `ServiceLB.SvcLB.Fetch` | poc/execd/services.go:234-257 | a refresh replaces the entry, keeps the cursor and defaults the time to live |
| `ServiceLB.SvcLB.Pick` | poc/execd/services.go:228-264 | pick in place does what the step function says, result and state |
| `PacketPath.PacketsServed` | poc/execd/services.go:169-188 | in every run of any length whose kernel refuses to overwrite, a packet crosses the chain at most twice, is queued at most once, never leaves the range untranslated, and goes to the address and 16-bit port of the endpoint its mark stands for, which its own flow was told of |
| `PacketPath.Diverted` | poc/execd/services.go:169-188 | an unmarked packet is queued exactly if it is for the service range |
| `PacketPath.DroppedExactly` | poc/execd/services.go:302-315 | a packet is dropped at its verdict exactly if it is none of a flow, or its pick fails or finds no endpoint |
| `PacketPath.GetsThrough` | poc/execd/services.go:316-320 | any other packet in the range is translated the next time it meets the chain, to the endpoint its pick chose |
| `ServiceRange.InRangeExactly` | poc/execd/services.go:192-198 | a packet is for the range exactly if its destination, as a 128-bit number, agrees with the range in the leading bits of the prefix |
| `ServiceRange.DestinationAt` | poc/execd/services.go:192-198 | bytes 24 to 39 are where a packet's destination address is |
| `PacketLimits.PacketsServedExactly` | poc/execd/services.go:169-188 | whatever the kernel does with keys it has, that promise holds in every run of n allocations exactly up to n = 2^32 |
| `PacketPath.ToldIsLatest` | poc/execd/services.go:296-320 | what the flow was told is its latest successful answer when the verdict is given |
| `PacketPath.ChoiceFinal` | poc/execd/services.go:169-188 | a decided packet's mark and choice are never revised |
| `PacketPath.NextKeeps` | poc/execd/services.go:295-333 | every step of the packet machine keeps all packets right |
| `PacketPath.LatestAnswer` | poc/execd/services.go:233-257 | what a flow is known to be told is the host's latest successful answer for it |
| `PacketPath.ChosenFromLatest` | poc/execd/services.go:296-320 | a marked packet's endpoint was in the host's latest answer for the packet's own flow when the packet got its one verdict |
| `EndpointSlices.ResolveSound` | poc/agent/services.go:94-207 | an answer names only what serves: the running static pod of a bootstrap address at the port asked for, or serving addresses of usable IPv6 slices of a service with that address and port; the port is the slice's when slices agree |
| `EndpointSlices.ResolveComplete` | poc/agent/services.go:161-207 | and it names all of them |
| `EndpointSlices.BootstrapAnswers` | poc/agent/services.go:101-110 | a bootstrap address answers with its static pod exactly while that runs, whatever the caches say |
| `EndpointSlices.RefusedExactly` | poc/agent/services.go:111-155 | any other query is refused exactly if the caches are not there or hold no such service, port or usable slice |
| `EndpointSlices.ProtosAre` | poc/agent/services.go:118-121 | the guest's protocols are upper-cased to the services' and none means TCP |
| `EndpointSlices.UpperIs` | poc/agent/services.go:118-118 | small letters become large ones and nothing else changes |
| `EndpointSlices.SlicesInOrder` | poc/agent/services.go:141-155 | the service's slices are taken in the lister's order |
| `EndpointSlices.InAllAddresses` | poc/agent/services.go:169-202 | the address list holds exactly the serving addresses of the usable slices |
| `EndpointSlices.EndpointsFor` | poc/agent/services.go:161-207 | the loop over slices computes list and port, and fails exactly when no slice is usable |
| `EndpointSlices.SlicePortLoop` | poc/agent/services.go:173-189 | the first port entry with the name and protocol decides |
| `EndpointSlices.ResolveService` | poc/agent/services.go:94-155 | the handler's order of cases and errors |
| `ServiceTraffic.TrafficReachesBackends` | poc/agent/services.go:94-207 | every translated packet of every run goes to what served its own address and port when the host was last asked about them before the packet's verdict, with that slice's port if slices agree |
| `Container.InitPolicy` | poc/execd/supervisor.go:318-323 | a known policy never restarts a succeeded init; failures are treated as the pod's policy says |
| `Container.ApplyTallied` | poc/execd/supervisor.go:201-241 | every section keeps starts, restarts, place and reported state in step |
| `Container.SuperviseEnds` | poc/execd/supervisor.go:201-241 | supervision ends with the first turn that is stopped or not to be restarted, with its code and one restart per earlier turn |
| `Container.SuperviseLoops` | poc/execd/supervisor.go:201-241 | without such a turn it never ends |
| `Container.FailedIsRetried` | poc/execd/supervisor.go:98-133 | a start that fails counts as exit 128, so only Never or a stop makes it the last |
| `Container.ExitedIsJudged` | poc/execd/supervisor.go:186-195 | a process that ran is judged by its own code |
| `Container.TurnIsActs` | poc/execd/supervisor.go:201-241 | a turn of the loop is its locked sections one after the other, each ready when its turn comes |
| `Container.Process.Supervise` | poc/execd/supervisor.go:201-241 | the loop over a container's fields does exactly that |
| `Container.Process.StartOnce` | poc/execd/supervisor.go:98-162 | a start fails with 128 and its reason, or runs and ends with its exit code and no reason; both are recorded |
| `Container.PauseDoubles` | poc/execd/supervisor.go:227-227 | the back-off is 1 second at attempt 0 and doubles with each attempt up to the fifth |
| `Container.PauseReasons` | poc/execd/supervisor.go:227-230 | a backing-off container says how many seconds it waits |
| `Container.CrashesBackOff` | poc/execd/supervisor.go:224-233 | a container that keeps crashing quickly waits 1, 2, 4, 8, 16 and then always 32 seconds |
| `Container.FailuresDoNot` | poc/execd/supervisor.go:224-233 | one that can never be started waits a second each time, because nothing ever ran |
| `Container.BacksOff` | poc/execd/supervisor.go:224-233 | after any script of turns the last pause is what the quick turns at its end make it |
| `Supervisor.StartOrder` | poc/execd/supervisor.go:276-304 | in every interleaving inits start in order, each after the one before exited 0, and mains only after all inits did |
| `Supervisor.StartsCounted` | poc/execd/supervisor.go:201-241 | starts are restarts + 1 at every exit, and equal exactly when the end came on waking from a back-off during shutdown |
| `Supervisor.PolicyObeyed` | poc/execd/supervisor.go:186-195 | Never starts once; unstopped, OnFailure and inits end only on 0, and an Always main never ends |
| `Supervisor.OneMoreStart` | poc/execd/supervisor.go:219-240 | once shutdown is requested each container starts at most once more |
| `Supervisor.RunOutcome` | poc/execd/supervisor.go:276-314 | run returns 0 exactly when every init and main is Terminated with code 0 |
| `Supervisor.RecordsOutcome` | poc/execd/supervisor.go:201-217 | in every run each record's code is how the latest finished start came out, 128 if it failed |
| `Supervisor.RunMeans` | poc/execd/supervisor.go:276-314 | so run returns 0 exactly when every container is through and its latest start came out with 0 |
| `Supervisor.InitEnds` | poc/execd/supervisor.go:282-295 | an init that ended with another code than 0 ends the pod with it; after 0 the next one, or the mains, may start |
| `Supervisor.StopsOnShutdown` | poc/execd/supervisor.go:327-330 | the pod is stopping exactly from the first shutdown on |
| `Supervisor.NeverStuck` | poc/execd/supervisor.go:276-314 | until run has returned some container, or run itself, can go on, in every interleaving |
| `Supervisor.Completes` | poc/execd/supervisor.go:276-314 | a pod that need not go on for ever can return 0, whatever the numbers of its inits and mains |
| `Supervisor.ReturnedIsFinal` | poc/execd/main.go:265-268 | after run has returned no status changes |
| `Supervisor.NextKeeps` | poc/execd/supervisor.go:201-348 | every step of every goroutine and every shutdown keeps the invariant |
| `Supervisor.PodCode` | poc/execd/supervisor.go:306-314 | the last loop returns the last nonzero code, 0 exactly if there is none |
| `PodStatus.GuestAndHostAgree` | poc/agent/status.go:120-191 | with distinct names the guest returns 0 exactly when the host derives Succeeded |
| `PodStatus.LivePhase` | poc/agent/status.go:173-179 | in every run the phase shown is Running exactly when all inits have exited 0, so once any main has started, and Pending before |
| `PodStatus.ReadsOwn` | poc/agent/status.go:121-124 | with distinct names each container is shown its own record |
| `PodStatus.ShownAsIs` | poc/agent/status.go:120-165 | in every run with distinct names each container is shown as what it is: running, ended with its code, backing off or being created, with its restarts and its readiness |
| `PodStatus.Unreported` | poc/agent/status.go:125-132 | one that was not reported is being created |
| `PodStatus.TranslateStatuses` | poc/agent/status.go:120-180 | statuses in spec order; Running exactly when all inits ended with 0 |
| `PodStatus.FinalPhase` | poc/agent/status.go:184-191 | Succeeded exactly when every container ended with 0 |
| `PkiRun.SilentExactly` | poc/pki/main.go:91-108 | from any store a run completes without writing exactly when every spec is settled, no certificate is due and no issuer barred |
| `PkiRun.Convergence` | poc/pki/main.go:91-108 | after a completed run another writes nothing exactly when no certificate has come due and no issuer is barred from certifying |
| `PkiRun.ConvergesComfortably` | poc/pki/main.go:91-108 | it writes nothing if old certificates stay valid, old CAs may certify, and lifetimes exceed 30 days by the time between the runs and a second |
| `PkiRun.SilentUntilDue` | poc/pki/main.go:91-108 | if no CA certificate in the store was barred before, the next run is silent exactly until a certificate is due |
| `PkiRun.PassesConverge` | poc/pki/main.go:91-108 | both, for the four passes over specs with distinct names in which CAs sort after their issuers |
| `PkiRun.UnfitWasThere` | poc/pki/main.go:202-263 | wherever CAs sort, a CA certificate barred from certifying after a completed run was there before it |
| `PkiRun.ForeignIntermediate` | poc/pki/main.go:315-320 | under an issuer that may not certify a certificate is never left alone |
| `PkiForeign.NeverConverges` | poc/pki/main.go:91-108 | with an imported intermediate so barred, however many runs went before, the next one completes and rewrites the leaf |
| `PkiAnyOrder.SecondRun` | poc/pki/main.go:91-108 | with CAs in any order, the run after a completed one is silent exactly when, besides, every certificate is signed by the key in its issuer's certificate as it is now |
| `PkiAnyOrder.KeyedSettles` | poc/pki/main.go:202-263 | if every certificate was for its key beforehand, one completed run settles everything in any order |
| `PkiAnyOrder.ThirdRun` | poc/pki/main.go:91-108 | in any order, after two completed runs a third is silent exactly when nothing is due and no issuer barred, whatever the depth of the chains |
| `PkiAnyOrder.OneRunTooFew` | poc/pki/main.go:315-320 | a CA that sorts before an issuer with a new key: the second run writes although nothing is due and nobody barred |
| `PkiAnyOrder.NeverCompletes` | poc/pki/main.go:206-223 | while a CA waits for the certificate of one behind it, or of itself, every run fails, however many went before |
| `PkiRun.SettledSoFar` | poc/pki/main.go:91-108 | later reconciles never undo earlier ones |
| `PkiRun.CascadeCertificates` | poc/pki/main.go:202-263 | a completed run leaves every certificate for its own present key and signed by its issuer's present key |
| `PkiRun.CascadeKubeconfigs` | poc/pki/main.go:409-462 | wherever CAs sort, a completed run leaves in every kubeconfig the CA, client certificate and client key that are present at the end, the spec's server, its name as context and the certificate's common name as user |
| `PkiRun.KeysKept` | poc/pki/main.go:227-236 | no run, finished or failed, replaces a private key that can be loaded |
| `PkiRun.OthersFiles` | poc/pki/main.go:158-168 | files that belong to no reconciled spec are as before |
| `PkiRun.OrderOk` | poc/pki/main.go:91-108 | the four passes process every spec once, lower passes first |
| `PkiRun.KindsInOrder` | poc/pki/main.go:91-97 | key pairs come before CAs, CAs before other certificates, and those before kubeconfigs |
| `PkiRun.PassKeepsOrder` | poc/pki/main.go:98-105 | within a pass specs keep the order they were loaded in |
| `PkiRun.IssuerBefore` | poc/pki/main.go:91-108 | an issuer is always processed before what it issues, if CAs sort after their own issuers |
| `Pki.OnlyOwn` | poc/pki/main.go:172-263 | each reconcile writes only its own spec's files |
| `Pki.KeyKept` | poc/pki/main.go:172-263 | and never a private key that could be loaded |
| `Pki.Settles` | poc/pki/main.go:172-263 | a finished reconcile leaves nothing to drift but the calendar and the issuer's standing |
| `Pki.LeftAlone` | poc/pki/main.go:225-230 | a reconcile writes nothing exactly when its spec is settled, its certificate not due, and its issuer may certify |
| `Pki.DriftMeans` | poc/pki/main.go:275-326 | no drift means: key, names, addresses, usages and signature as specified, and not due |
| `Pki.IssuedMatches` | poc/pki/main.go:328-369 | an issued certificate is what its spec asks for |
| `Pki.IssuedLasts` | poc/pki/main.go:322-324 | whether an issued certificate is due at a later time, to the second |
| `Pki.IssuedExactly` | poc/pki/main.go:328-369 | nothing is issued exactly for a malformed duration, an unparsable address, or an issuer whose key is not its certificate's |
| `Pki.TimesAre` | poc/pki/main.go:322-331 | due means less than 30 days; the default lifetime is ten years |
| `Pki.WantIPsAre` | poc/pki/main.go:299-304 | the addresses asked for are those that parse, each as often as it is listed |
| `Pki.IssuerFound` | poc/pki/main.go:205-223 | an issuer is found exactly if none is needed or a CA's certificate and key can be loaded |
| `Pki.KeyPairFails` | poc/pki/main.go:172-198 | a key pair's reconcile fails exactly if there is no key to load and its algorithm is unknown |
| `Pki.ConfigWanted` | poc/pki/main.go:409-440 | a kubeconfig can be made exactly if server, CA and client are named and their files are there |
| `PkiStore.UsagesEqualExact` | poc/pki/main.go:390-405 | the usage comparison is equality up to order for every certificate exactly when the spec repeats none |
| `PkiStore.UsagesEqualBlind` | poc/pki/main.go:390-405 | for every list with a repeated usage there is an unequal one it takes for equal |
| `PkiStore.ExtKeyUsagesEqual` | poc/pki/main.go:390-405 | the loops compute that comparison |
| `PkiStore.UsagesAre` | poc/pki/main.go:371-388 | known usages are asked for as often as they are listed, and no others |
| `StringSets.StringSetEqual` | poc/pki/main.go:540-553 | sorting and comparing is equality as multisets |
| `StringSets.SortedDetermined` | poc/pki/main.go:540-553 | equal contents sort to equal lists |
| `PkiReconciler.Reconciler.RunPasses` | poc/pki/main.go:91-108 | the pass loops over the store do what the run function says, writes included |
| `PkiReconciler.Reconciler.ReconcileCertificate` | poc/pki/main.go:202-263 | one certificate's reconcile in place, writes included |
| `PkiReconciler.Reconciler.ReconcileKeyPair` | poc/pki/main.go:172-198 | one key pair's |
| `PkiReconciler.Reconciler.ReconcileKubeconfig` | poc/pki/main.go:409-462 | one kubeconfig's |
| `PkiReconciler.Reconciler.CertDrift` | poc/pki/main.go:275-326 | the drift check with its loops gives the specified reason |
| `ResolveInRoot.ResolveIsWalk` | poc/execd/blockroot.go:161-186 | restarting after each link finds what an in-place walk (section 4.13 of POSIX.1-2017) that may expand 32 links finds, and fails when it fails, if every '..' of a reachable link, and a '.' or empty component at its end, is taken in a real directory no link leads to |
| `ResolveInRoot.TidyIsBacked` | poc/execd/blockroot.go:161-186 | links with '..' only in front, and no '.' or slash at the end, meet that condition |
| `ResolveExact.TextExactly` | poc/execd/blockroot.go:161-186 | a link's text is resolved as in place for every path of every tree with otherwise tidy links exactly when its every '..', and a '.' or empty component at its end, is taken in the link's directory or one above it |
| `ResolveInRoot.ResolveFindsStraight` | poc/execd/blockroot.go:161-186 | what is found lies below real directories only and is no link itself; its path has no '..' |
| `ResolveExact.Diverges` | poc/execd/blockroot.go:175-182 | for every other text there is a tree in which the link is resolved otherwise than in place |
| `ResolveExact.DotTells` | poc/execd/blockroot.go:165-182 | for a text that ends in such a '.' behind a name: the code finds a file where the in-place walk fails |
| `ResolveInRoot.ResolvePath` | poc/execd/blockroot.go:161-186 | the loop with its bounded recursion computes the resolution |
| `ResolveInRoot.CleanOne` | poc/execd/blockroot.go:165-166 | one component of a path: "" and "." stay, ".." goes up but not above the root, anything else goes down |
| `ResolveInRoot.WalkOne` | poc/execd/blockroot.go:161-186 | in place it does the same from a directory, if what it names is there |
| `ResolveInRoot.LookPath` | poc/execd/blockroot.go:131-156 | the first PATH entry whose candidate an in-place walk would run, or an error if there is none |
| `Frames.ReadAllThen` | poc/execd/main.go:277-300 | whole frames read back in order, whatever follows |
| `Frames.ReadTruncated` | poc/agent/streams.go:53-64 | a cut stream yields exactly its whole frames and then an error |
| `Frames.ReadEncoded` | poc/execd/main.go:277-300 | one frame with a payload below 2^32 bytes reads back |
| `Frames.EncodedAs` | poc/execd/main.go:277-287 | on the wire: the type, four bytes of length with the most significant first, the payload |
| `Frames.Conn.WriteFrame` | poc/execd/main.go:277-287 | a whole frame goes out, or an error and a stream cut inside it |
| `Frames.Reader.ReadNext` | poc/execd/main.go:289-300 | two full reads give the next frame or an error |
| `FrameSession.ReaderSeesWriters` | poc/execd/main.go:277-313 | under every schedule the reader finds the frames in lock order, and under each type what its writer wrote |
| `FrameSession.AllDelivered` | poc/execd/main.go:303-313 | when the writers are done the reader has all of each one's bytes |
| `FrameSession.NeverStuck` | poc/execd/main.go:277-313 | as long as a writer is not done some writer can go on |
| `FrameSession.Finishes` | poc/execd/main.go:277-313 | from any state reached all writers can finish, in exactly as many steps as they have left |
| `FrameSession.EndingIs` | poc/agent/streams.go:175-188 | exit code 0 is the only clean end; any other is reported with its message or one made up for it |
| `FrameSession.SessionDelivers` | poc/execd/handlers.go:284-325 | end to end, under every schedule: a session reading the writers' stream and the exit frame behind it delivers what each writer sent and ends as the exit frame says |
| `FrameSession.Session` | poc/agent/streams.go:159-190 | the loop delivers the payloads of each stream up to the exit frame and its outcome |
| `FrameSession.CutSession` | poc/agent/streams.go:159-165 | a cut stream delivers its whole frames up to the exit frame, and ends as the whole one would exactly if the exit frame is whole or that ending is clean |
| `Probes.ReadyIsVerdict` | poc/agent/probes.go:125-149 | readiness is at every moment the verdict of the latest run of outcomes that reached its threshold |
| `Probes.ThresholdsAre` | poc/agent/probes.go:97-104 | a threshold that is given counts, otherwise one success and three failures do |
| `Probes.KillJustified` | poc/agent/probes.go:132-142 | each kill comes on failureThreshold failures in a row with no other kill among them |
| `Probes.KillsDisjoint` | poc/agent/probes.go:139-142 | the failures of two kills are disjoint |
| `Probes.KillComes` | poc/agent/probes.go:132-142 | that many failures in a row never pass without a kill |
| `Probes.StartupKeepsKilling` | poc/agent/probes.go:27-47 | after a success a startup probe kills again exactly if the threshold's failures in a row come later |
| `Probes.PodVM.ProbeReadiness` | poc/agent/probes.go:49-57 | the loop and callback set readiness to that verdict and push once per change |
| `Probes.PodVM.ProbeLiveness` | poc/agent/probes.go:59-66 | the loop kills exactly at the specified outcomes |
| `Probes.PodVM.SetContainerReady` | poc/agent/main.go:99-108 | the value is set and a change reported |
| `DevicePlan.AssignDisks` | poc/agent/main.go:1054-1077 | the distinct images in first-use order; each container's root device is named after its image's place among them |
| `DevicePlan.DeviceLetters` | poc/agent/main.go:1071-1071 | the devices are /dev/vda to /dev/vdz |
| `DevicePlan.DisksShared` | poc/agent/main.go:1068-1076 | containers share a root device exactly if they share an image, up to 26 images |
| `DevicePlan.DeviceNamesDiffer` | poc/agent/main.go:1071-1071 | for up to 26 images device names are distinct |
| `DevicePlan.ResolveVolumes` | poc/agent/main.go:1174-1285 | a plan exactly when every mount is acceptable: one device per mounted volume, every mount under its volume's tag |
| `DevicePlan.SharesMeanVolumes` | poc/agent/main.go:1264-1276 | tags and volumes correspond one to one; read-only exactly when forced or nobody mounts it writable |
| `DevicePlan.MountsFindShares` | poc/agent/main.go:1264-1281 | every mount finds its volume's share under its tag |
| `DevicePlan.MountsAre` | poc/agent/main.go:1252-1281 | the guest gets one mount for every mount that is not skipped, in order: in its container, at its path, from its volume's share, and read-only exactly if it asks for that or the volume is a configMap or secret |
| `DevicePlan.SharesAreDirs` | poc/agent/main.go:1190-1250 | a share is the directory of its volume: the host's own or the one the agent keeps for it |
| `DevicePlan.AcceptableIs` | poc/agent/main.go:1252-1266 | a mount can be set up exactly if it is no sub-path and its volume is there, of a known kind, and usable |
| `DevicePlan.TagsAre` | poc/agent/main.go:1271-1271 | tags are "vol" and a number in decimal |
| `DevicePlan.WritableStaysWritable` | poc/agent/main.go:1270-1281 | a writable guest mount is never on a read-only share |
| `DevicePlan.PlanReachesHarness` | poc/harness/podvm.c:104-132 | the harness attaches exactly the planned shares and disks, in order, exactly when there are at most 32 and 26 and no writable path ends in ':ro' |
| `DevicePlan.RootIsOwnImage` | poc/agent/main.go:751-755 | end to end: of the disks the harness attaches exactly one has the name in a container's rootDev, and it is the file of that container's image |
| `PodvmArgs.ParsePrinted` | poc/harness/podvm.c:104-125 | a printed share is recovered exactly if it is read-only or its path does not end in ':ro' |
| `PodvmArgs.ParseVolume` | poc/harness/podvm.c:104-125 | cutting the argument in place leaves tag and path as C strings of the specified share |
| `PodvmArgs.HarnessAgrees` | poc/harness/podvm.c:104-132 | the option loop with its fixed arrays gives back the printed devices under those conditions |

## Left out

- Tar parsing: the stream is a list of headers with contents; a read error or a full disk aborts the conversion. `Clean` is the path cleaning for names without `..` and without a doubled leading slash.
- The writer's output is a byte sequence; seeking past the superblock's block at the start is writing 4096 zeros, and the superblock overwrites bytes 1024 to 1151 of them. Block numbers, sizes and counters are cut to their widths; the reader's theorem is about images in which nothing was cut.
- `ErofsWriter.Writer.WalkTree`: returns the order in which the source's walk would call its callback; each pass then loops over that order. The callbacks change nothing the walk looks at, which `Image.StagedPlan` proves.
- `ErofsWriter.Writer.Find`, `ErofsWriter.Writer.Lookup`: the source's one lookup with its create flag, split in two.
- Node pointers: parent, children, alias and byPath are objects and pointers; the inode's fields are compared with a value record per node.
- `ServiceLB.SvcLB.Pick`: cache entries are values in the map, not shared pointers. The clock, the host's answer, the kernel's reply and the canonical text of an address are inputs; the round-robin cursor does not wrap; ports are cut to 16 bits as the map element does.
- `ServiceLB.MarksStableExactly`, `PacketLimits.PacketsServedExactly`: their failing runs beyond 2^32 allocations need a kernel that overwrites an element it has, which nf_tables does not.
- `PacketPath.PacketsServed`, `ServiceLB.MarkStable`: for kernels that refuse to overwrite a map element, which is how nf_tables behaves and not something this code enforces; nothing is said about who goes without a mark after 2^32 allocations. The range's mask is the prefix mask that parsing a CIDR yields, applied as arithmetic on bytes (`ServiceRange.InRangeExactly` says which packets that lets in). The packet enters unmarked; connection tracking after the first packet, resets of tracked connections and the library's own queue limits are not modelled.
- `EndpointSlices.ResolveSound`: the lister's selection by namespace is by service name alone; DNS name queries are left out.
- Container processes are starts and exits with arbitrary codes at arbitrary times: signals and the escalation to SIGKILL after the grace period (terminate, shutdownAll) only make exits happen and change no field. Logs, ptys, attach and exec are left out.
- `Container.Process.Supervise`: the endless loop is run over a finite script of turns; `Supervisor` covers all interleavings of all lengths.
- Cryptography and X.509 encoding: a key is its own public key, a signature names the signing key, parsing inverts writing, and organizations come back in some order. Failing disks are left out, and so is issuer-name freshness, because the drift check looks only at the signature. `filepath.Join` of a spec's name and extension is the pair of both.
- `Pki.DriftMeans`: the reasons come in the code's order; their wording, which only the log shows, is left out.
- Paths in `ResolveInRoot` are component lists; lstat below a path free of links is a map lookup, and everything that is neither a link nor a directory is a file. Permission to search a directory is not modelled.
- `ResolveInRoot.ResolveIsWalk`: one way for a given tree; the exact condition is on the text of one link, over all trees (`ResolveExact.TextExactly`). The in-place walk may expand 32 links, as the code does, where Linux expands 40.
- `ResolveInRoot.LookPath`: under the same condition as `ResolveInRoot.ResolveIsWalk`, for a bare name and PATH entries already split; a name with a slash is returned as it is.
- Frames: deadlines, the request and resize frames, and the JSON of the exit frame, whose decoding is an input.
- Probes: the periods, the gate that holds readiness and liveness back until startup succeeded, and what a probe does. `Probes.PodVM.ProbeLiveness` and `Probes.PodVM.ProbeReadiness` run over a finite list of outcomes.
- `DevicePlan.RootIsOwnImage`: the guest names the attached disks by letter in the order of attachment; a pod whose images are not block devices has no root devices.
- `DevicePlan.ResolveVolumes`: mounts are given container by container in one list, volumes by name; whether a directory exists or an object can be fetched is part of the volume.
- Mounting, chroot, overlays, netlink, gvproxy and vmnet processes, libkrun, image pulling, Kubernetes clients and informers, pod lifecycle in runPod and staticPodLoop: foreign calls and timing.
- Small helpers such as mergeEnv, podIP6, DNS replies and log tailing: only easy members.
