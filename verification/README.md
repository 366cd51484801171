# Marooned Pods: a verified model

Marooned Pods runs a Kubernetes Pod inside a virtual machine of its own. This
project models the parts of it that change state in ways that are hard to get
right, and proves what those parts promise. It is written in Dafny 4.11; check
it with `dafny verify dfyconfig.toml`.

- **The fake IOMMU** (`Iommu`, `IommuDomain`). A list of address ranges, trimmed
  and split in place while it is walked. Every run of map and unmap calls on the
  list does what the same run does to a plain byte-to-byte map, conserves bytes,
  and neither leaks a node nor frees one twice.
- **The fake PCI devices** (`Pci`). After any sequence of configuration writes a
  device is determined by its last Command write and its last power-state write.
- **Root filesystem shipping** (`RootfsTree`, `TreeWalk`, `Framing`, `Wire`,
  `RootfsStream`, `Unpack`, `UnpackEffects`, `RoundTrip`, `Shipping`). A host tree
  is walked into an archive, sent in framed chunks, reassembled and unpacked. The
  round trip rebuilds directories, file bytes, symbolic links and hard-link
  classes, unpacking changes nothing outside its destination, and the second walk
  that sizes the disk agrees with the archive.
- **Volume strip and restore** (`Pods`, `Volumes`, `Admission`, `AdmittedPods`,
  `RoundTripVolumes`). Admission takes workload volumes out of a Pod; later code
  puts them back, more than once.
- **Pod to VMI translation** (`Mounts`, `MountTables`, `Capacity`, `Translate`,
  `VmiBuilder`, `VmiFields`). Disks, volumes, interfaces and networks correspond
  and are given on the Pod's own fields; two independently written mount tables
  agree; sizing and hugepage arithmetic.
- **The adaptor** (`Resize`, `Finalizers`). Resizing by delete and recreate has a
  cause and follows every growth; the sandbox finalizer leaves a Pod only after a
  delete request for its VMI, never returns, and takes no other finalizer along.
- **The exit-code relay** (`Relay`, `RelayProcesses`). Four processes and any
  number of status requests, interleaved in any order; the processes' own code
  is proved to take only steps of that state machine.
- **Guest statistics** (`Stats`). What integer division loses over a whole run.
- `Options`, `Words`, `Strings` and `Sequences` hold an option type, machine words,
  small string functions, and filtering and flattening of sequences.

Code that changes things in place is modelled by classes, arrays and loops,
proved against functions on values; the lemmas are about those functions. Inputs
and results that several functions share are also stated once in plain numbers,
names and fields. Induction is always written out: automatic induction is turned
off wherever Dafny would use it.

Where a promise fails, a lemma says exactly when it holds:

- An exit code can be lost: a status request answered before the exit was
  recorded may overwrite the shared container record after the helper stored
  the real code in it (`Relay.RelayIsSafeExactly`, `Relay.StaleCodeIsReachable`).
- The disk size wraps for image sizes within 128 MiB of 2^63, and a smaller size
  then forces a resize (`Capacity.BuiltIsEnoughExactly`,
  `Resize.NeverTooSmallExactly`, `Resize.ResizesHaveCauseExactly`).
- A volume annotation that is already there, blank, unreadable or holding another
  snapshot, makes admission strip volumes without recording them
  (`RoundTripVolumes.RoundTripExactly`).
- A `state` command that read state.json before the exit was recorded in it can
  write its old copy back, without the code (`Relay.CodeIsKeptExactly`).
- A container ID whose escaped form is near 16 MiB does not fit a frame
  (`RootfsStream.FitsAlwaysExactly`), and volumes whose names agree in their first
  19 letters and digits share a disk serial
  (`Translate.MountFindsOnlyItsDiskExactly`).
- The mount tables differ on a volume that is both a PVC and an emptyDir
  (`Mounts.TablesAgreeExactly`), and an ephemeral volume gets a guest mount whose
  serial is on no disk unless an attached PVC's name collides
  (`Translate.SerialOnDiskExactly`).
- The fallback VMI name is the planned one only for UIDs without upper-case
  letters (`Finalizers.ImpliedIsPlannedExactly`).
- A root that is itself a file is sized but not archived
  (`RootfsTree.SizeMatchesArchiveExactly`).
- Hard links are recognised by inode number alone, so bytes survive exactly when
  equal numbers mean equal files (`RoundTrip.BytesSurviveExactly`).
- An unpacker that stops before the stream ends leaves its job behind
  (`RootfsStream.Client.PutRootfs`).

## Model

| member | source | states |
|---|---|---|
| Iommu.GuardIsExact | cluster-up/cluster/vfio-gpu/fake-iommu/fake-iommu.c:109-114 | the division guard refuses exactly the zero arguments and the products that do not fit 64 bits |
| Iommu.LookupAnyOrder | cluster-up/cluster/vfio-gpu/fake-iommu/fake-iommu.c:212-230 | in a list of disjoint ranges first-match lookup gives the translation of any range that covers the byte, whatever the order |
| Iommu.OverlapIsTaken | cluster-up/cluster/vfio-gpu/fake-iommu/fake-iommu.c:97-138 | the overlap test fires exactly when some requested byte is already mapped |
| Iommu.MapAddsBytes | cluster-up/cluster/vfio-gpu/fake-iommu/fake-iommu.c:97-138 | appending a free range keeps the list disjoint and adds exactly its bytes to the byte map |
| Iommu.CutLookup | cluster-up/cluster/vfio-gpu/fake-iommu/fake-iommu.c:165-200 | through every delete, trim and split each byte outside the request keeps its translation in exactly one piece, and each byte inside loses it |
| Iommu.OneSplit | cluster-up/cluster/vfio-gpu/fake-iommu/fake-iommu.c:162-200 | one unmap splits at most one range, and exactly one when a range strictly contains the request |
| Iommu.SharedCounts | cluster-up/cluster/vfio-gpu/fake-iommu/fake-iommu.c:154-209 | the accumulated answer is the number of mapped bytes in the request |
| Iommu.UnmapCuts | cluster-up/cluster/vfio-gpu/fake-iommu/fake-iommu.c:140-210 | unmap removes exactly the request from the byte map, leaves non-empty disjoint non-wrapping ranges, and shrinks the map by its answer |
| Iommu.MapRefines | cluster-up/cluster/vfio-gpu/fake-iommu/fake-iommu.c:97-138 | a map call does to the byte map and answers what the specification does, which is written with `pgsize * pgcount` and byte addresses alone, in every error case too |
| Iommu.UnmapRefines | cluster-up/cluster/vfio-gpu/fake-iommu/fake-iommu.c:140-210 | so does an unmap call, unless the split node it needs could not be allocated; then it answers 0 and changes nothing |
| Iommu.StepRefines | cluster-up/cluster/vfio-gpu/fake-iommu/fake-iommu.c:97-210 | every call keeps the list well formed, refines the byte map unless starved of a split node, and accounts for every byte |
| Iommu.MapEveryByte | cluster-up/cluster/vfio-gpu/fake-iommu/fake-iommu.c:97-138 | a map call that succeeds reports `pgsize * pgcount` bytes; none was mapped before, byte `k` of them now translates to `(paddr + k) mod 2^64`, and no other byte changes |
| Iommu.UnmapEveryByte | cluster-up/cluster/vfio-gpu/fake-iommu/fake-iommu.c:140-210 | an unmap call that is not starved leaves none of its `pgsize * pgcount` bytes, changes no other, and reports how many were mapped |
| Iommu.RunRefinesByteMap | cluster-up/cluster/vfio-gpu/fake-iommu/fake-iommu.c:97-210 | over every run with its split nodes available, the list and all answers are those of the byte map, each call covering `pgsize * pgcount` bytes |
| Iommu.BytesConserved | cluster-up/cluster/vfio-gpu/fake-iommu/fake-iommu.c:97-210 | over every run, live bytes are bytes reported mapped minus bytes reported unmapped |
| IommuDomain.InteriorIsAlone | cluster-up/cluster/vfio-gpu/fake-iommu/fake-iommu.c:165-200 | when the walk meets a range to split, it has changed and counted nothing yet |
| IommuDomain.WalkOn | cluster-up/cluster/vfio-gpu/fake-iommu/fake-iommu.c:165-200 | one turn of the walk turns the layout before a node into the layout after it |
| IommuDomain.TurnIsSound | cluster-up/cluster/vfio-gpu/fake-iommu/fake-iommu.c:165-200 | the counter cannot wrap, the cursor stays on the list, and the appended split node is passed unaltered |
| IommuDomain.WalkDone | cluster-up/cluster/vfio-gpu/fake-iommu/fake-iommu.c:165-209 | a finished walk has produced the list and count of the range-removal function |
| IommuDomain.WalkStarved | cluster-up/cluster/vfio-gpu/fake-iommu/fake-iommu.c:188-197 | a walk that lacks its split node stops with the list as it was and the count 0 |
| IommuDomain.Domain.MapPages | cluster-up/cluster/vfio-gpu/fake-iommu/fake-iommu.c:97-138 | the in-place call matches the list function, reports `pgsize * pgcount` bytes on success and 0 otherwise, and nodes in hand stay exactly the nodes on the list |
| IommuDomain.Domain.Visit | cluster-up/cluster/vfio-gpu/fake-iommu/fake-iommu.c:165-200 | one node is unlinked, trimmed in front or behind, or split in place, as its overlap demands; without a spare node a split changes nothing |
| IommuDomain.Domain.WalkRange | cluster-up/cluster/vfio-gpu/fake-iommu/fake-iommu.c:164-200 | the whole walk with deletion while iterating equals the range-removal function, and every node is on the list, to be freed, or spare |
| IommuDomain.Domain.UnmapPages | cluster-up/cluster/vfio-gpu/fake-iommu/fake-iommu.c:140-210 | the in-place call matches the list function and gives back every removed node and an unused spare |
| IommuDomain.Domain.IovaToPhys | cluster-up/cluster/vfio-gpu/fake-iommu/fake-iommu.c:212-230 | the byte map's entry, 0 where it has none |
| IommuDomain.Domain.Free | cluster-up/cluster/vfio-gpu/fake-iommu/fake-iommu.c:232-249 | afterwards allocations equal frees and no node is in hand |
| IommuDomain.Domain.MapLegacy | cluster-up/cluster/vfio-gpu/fake-iommu/fake-iommu.c:252-265 | the legacy callback is a one-page map and its short-map error cannot occur |
| IommuDomain.Domain.UnmapLegacy | cluster-up/cluster/vfio-gpu/fake-iommu/fake-iommu.c:267-272 | the legacy callback is a one-page unmap |
| IommuDomain.Perform | cluster-up/cluster/vfio-gpu/fake-iommu/fake-iommu.c:97-210 | any sequence of calls on a new domain object gives the list and replies of the run the refinement theorem is about |
| Pci.WriteKeepsLayout | cluster-up/cluster/vfio-gpu/fake-pci/fake-pci.c:262-333 | a write at any offset and width changes nothing but the Command register and the two power-state bits |
| Pci.LastWriteWins | cluster-up/cluster/vfio-gpu/fake-pci/fake-pci.c:262-333 | after any history a device is the fresh layout with its last accepted Command and power-state values |
| Pci.OthersDoNotMatter | cluster-up/cluster/vfio-gpu/fake-pci/fake-pci.c:209-219 | writes that do not address a device never change it |
| Pci.ChainIsUnique | cluster-up/cluster/vfio-gpu/fake-pci/fake-pci.c:150-205 | a capability walk from a pointer has one outcome and ends (section 6.7 of the PCI Local Bus Specification 3.0) |
| Pci.ChainOf | cluster-up/cluster/vfio-gpu/fake-pci/fake-pci.c:150-205 | the walk from 0x34 visits 0x60, 0x68 and 0x78 and finds the three capability IDs |
| Pci.DeviceStaysItself | cluster-up/cluster/vfio-gpu/fake-pci/fake-pci.c:150-333 | after any history IDs, class, header type and capability list are intact, BARs read 0 at every width and alignment (section 6.2.5.1 of the PCI Local Bus Specification 3.0), and PMCSR holds only its power-state bits |
| Pci.RegistersAre | cluster-up/cluster/vfio-gpu/fake-pci/fake-pci.c:150-333 | after any history every aligned 4-byte read of the 256 bytes gives the register named by its offset, low byte first |
| Pci.WritesAreReadBack | cluster-up/cluster/vfio-gpu/fake-pci/fake-pci.c:262-333 | a Command write is read back in 16 bits and a power-state write in its two low bits, and neither disturbs the other |
| Pci.InitConfig | cluster-up/cluster/vfio-gpu/fake-pci/fake-pci.c:150-205 | the byte-by-byte initialisation gives exactly the declared layout, whatever the buffer held |
| Pci.Bus.Read | cluster-up/cluster/vfio-gpu/fake-pci/fake-pci.c:221-260 | little-endian value at each width, all ones for absent devices, the error for bad offsets and widths |
| Pci.Bus.Write | cluster-up/cluster/vfio-gpu/fake-pci/fake-pci.c:262-333 | the whole set of devices becomes what the value-level write says, with the right status |
| Pci.LoadModule | cluster-up/cluster/vfio-gpu/fake-pci/fake-pci.c:424-459 | refuses exactly the counts outside 1 to 32, a failed allocation and a bus that does not come up, each with its own error; else all devices are fresh |
| RootfsTree.FirstLinkedIsFirst | pkg/sandbox/tartree.go:110-118 | a hard-linked file is resolved to a link at or before it |
| RootfsTree.LinkMapIsFirst | pkg/sandbox/tartree.go:81-118 | the map kept by the walk holds, for each inode number, the path of its first hard-linked file |
| RootfsTree.SizeIsPayload | pkg/sandbox/tartree.go:30-140 | for every list of walked nodes the size counted equals the file bytes archived |
| RootfsTree.SkipsByFirstName | pkg/sandbox/tartree.go:13-20 | the skip test on the relative path string decides by the first name on the path |
| RootfsTree.SizeMatchesArchiveExactly | pkg/sandbox/tartree.go:30-140 | the size and the archived bytes of the kept nodes agree exactly when the root is not itself a non-empty file |
| RootfsTree.DiskHoldsArchive | pkg/sandbox/rootfs.go:27-37 | the disk sized from the walk exceeds the archive's file bytes by at least 128 MiB, for directories exactly when the sum fits 64 bits |
| RootfsTree.TarWriter.Write | pkg/sandbox/tartree.go:105-138 | one callback appends the node's entry, a link for a repeated inode, and keeps the link map |
| RootfsTree.TarWriter.Walk | pkg/sandbox/tartree.go:82-104 | the walk with TarTree's own checks, root and skips and device cut, visits the kept nodes in order |
| RootfsTree.TarTree | pkg/sandbox/tartree.go:72-140 | the walk with its mutable maps writes exactly the archive of the kept nodes, parents first; which nodes these are is `TreeWalk.KeptExactly`, and which entries `TreeWalk.FileEntryIs` |
| RootfsTree.Sizer.Walk | pkg/sandbox/tartree.go:39-67 | the walk with DirSize's own checks visits the same nodes in the same order |
| RootfsTree.DirSize | pkg/sandbox/tartree.go:30-69 | the second walk, with its own checks, set and total, computes the size of the kept nodes (`TreeWalk.TreeSizeIs`) |
| Framing.FrameRoundTripExactly | pkg/sandbox/agentproto/proto.go:138-171 | a frame is read back, leaving the rest of the stream, exactly when its body has 1 byte to 16 MiB |
| Framing.ArrivesExactly | pkg/sandbox/agentproto/proto.go:138-171 | an envelope written as a frame is read back exactly when its text fits, whatever follows it |
| Framing.EnvelopesInOrder | pkg/sandbox/agentproto/proto.go:138-171 | envelopes written to a stream are read back in order up to the first that does not fit a frame, so all of them exactly when all fit |
| Wire.JsonIsReliable | pkg/sandbox/agentproto/proto.go:190-218 | the answer to a request that succeeded always fits a frame |
| Wire.MessageFits | pkg/sandbox/agentproto/proto.go:225-249 | a chunk or end-of-file request fits a frame when the escaped container ID is within bounds |
| Wire.FullChunkLength | pkg/sandbox/agentproto/proto.go:225-249 | a full chunk with a 20-digit number fits exactly when the escaped container ID is within bounds |
| Wire.RequestsArriveExactly | pkg/sandbox/agentproto/proto.go:138-171 | the requests of a transfer are read back, all and in order, exactly when every one fits |
| RootfsStream.SplitIsFaithful | pkg/sandbox/agentproto/proto.go:228-249 | the pieces concatenate to the stream and all but the last are full |
| RootfsStream.PieceAt | pkg/sandbox/agentproto/proto.go:234-240 | the k-th read of the loop gives the k-th piece, and is the last exactly when it reaches the end |
| RootfsStream.Agent.Rootfs | cmd/marooned-agent/rootfs.go:28-73 | a request opens, feeds or closes the container's job, and its failures leave the job as the code does |
| RootfsStream.Agent.Serve | cmd/marooned-agent/main.go:89-113 | a frame that can be read is handled and answered; one that cannot closes the connection and changes nothing |
| RootfsStream.Client.Call | pkg/sandbox/agentproto/proto.go:190-218 | a request is numbered, framed, read by the agent and answered; it has its effect exactly when the connection is open and its frame fits, and succeeds when the agent did |
| RootfsStream.Client.SendData | pkg/sandbox/agentproto/proto.go:228-249 | the loop sends the pieces in order and gets through exactly when the connection is open, every frame fits and the unpacker reads on |
| RootfsStream.Client.PutRootfs | pkg/sandbox/agentproto/proto.go:228-249 | succeeds exactly when the container is named, the connection open, every request fits a frame, the stream ends, is read whole and unpacks; then the agent unpacked the same bytes and dropped the job, and one EOF was sent; otherwise the job is left behind from the first piece that arrived |
| RootfsStream.FitsAlwaysExactly | pkg/sandbox/agentproto/proto.go:225-249 | every transfer of a container fits its frames, for all streams and request numbers, exactly when the escaped container ID is within bounds |
| Unpack.Guest.UnpackTar | cmd/marooned-agent/rootfs.go:79-132 | the loop over entries has the effect of applying them in order and fails exactly when one of them fails |
| Unpack.ResolvePlain | cmd/marooned-agent/rootfs.go:90-93 | cleaning a path of plain names changes nothing |
| UnpackEffects.CleaningRules | cmd/marooned-agent/rootfs.go:81-92 | anywhere in a path empty names and single dots do nothing, a double dot undoes the name before it, and at the top it does nothing |
| UnpackEffects.ResolveAgain | cmd/marooned-agent/rootfs.go:81-92 | cleaning a clean path changes nothing |
| UnpackEffects.MkdirAllIs | cmd/marooned-agent/rootfs.go:104-107 | the missing directories on the way are made, and nothing else changes |
| UnpackEffects.RegularFileIs | cmd/marooned-agent/rootfs.go:108-120 | the content is at the path afterwards, an existing file keeps its inode so that its other links see it, and no other file changes |
| UnpackEffects.SymlinkSucceedsExactly | cmd/marooned-agent/rootfs.go:121-125 | a symbolic link is made exactly where its directory is and nothing but a file, a link or an empty directory is in the way |
| UnpackEffects.SymlinkIs | cmd/marooned-agent/rootfs.go:121-125 | it then has its text unchanged, and nothing else changes |
| UnpackEffects.LinkSucceedsExactly | cmd/marooned-agent/rootfs.go:126-130 | a hard link is made exactly under that condition when its target is another path with a file or symbolic link |
| UnpackEffects.LinkIs | cmd/marooned-agent/rootfs.go:126-130 | it then names the very file at its target, and nothing else changes |
| UnpackEffects.WhiteoutIs | cmd/marooned-agent/rootfs.go:94-101 | a whiteout removes the sibling it names and all below it and nothing else; the opaque marker does nothing |
| UnpackEffects.UnpackStaysBelow | cmd/marooned-agent/rootfs.go:79-132 | unpacking a whole archive, whiteouts of plain names included, changes nothing outside its destination but the directories that lead to it |
| TreeWalk.KeptChildrenListing | pkg/sandbox/tartree.go:82-104 | the nodes kept below a directory have plain distinct paths and come after their parent directories |
| TreeWalk.KeptExactly | pkg/sandbox/tartree.go:82-104 | a node is kept exactly when it is at its path in the tree, the path starts outside the five mount points, and every node on the way has the device number of the root, unless one of the two numbers is 0 |
| TreeWalk.KeptIsListing | pkg/sandbox/tartree.go:82-104 | the walk lists exactly those nodes, each once, after its parent |
| TreeWalk.FileEntryIs | pkg/sandbox/tartree.go:105-138 | a kept file is archived with its bytes unless an earlier kept file with two or more links has its inode number; then it is a link to the first of these |
| TreeWalk.TreeSizeIs | pkg/sandbox/tartree.go:30-69 | the size is the sum over the kept files, each counted once, at its first link |
| RoundTrip.SameRepExactly | pkg/sandbox/tartree.go:110-118 | two files are archived as one exactly when both are hard links with one inode number |
| RoundTrip.Step | cmd/marooned-agent/rootfs.go:79-132 | unpacking the next entry succeeds, puts its node in place, and disturbs nothing placed before |
| RoundTrip.UnpackRebuildsTheTree | cmd/marooned-agent/rootfs.go:79-132 | for every tree without whiteout names, unpacking its archive into an empty directory succeeds; every node outside the mount points and on the root's device is in its place by path, device nodes are not, two files are one exactly when they were hard links, nothing else is added and nothing that was there changes |
| RoundTrip.BytesSurviveExactly | pkg/sandbox/tartree.go:72-140 | every such file gets back its own bytes exactly when hard links with one inode number have the same content |
| Shipping.PutHostRootfs | pkg/cri/runtime.go:469-489 | sends the archive of a directory or a file as it is; succeeds exactly when the path is there and opens, the walk does not break off, every request fits a frame and the unpacker reads it all and succeeds; then the agent got the same bytes |
| Shipping.CopyTree | pkg/cri/runtime.go:469-489 | end to end over frames: for every tree without whiteout names, every lossless codec and every container ID within the frame bound the copy succeeds, the guest holds the tree as rebuilt from the bytes the agent received, no job is left, and bytes survive exactly when inode numbers are unambiguous |
| Pods.PickOrDrop | pkg/webhook/sandbox.go:193-219 | every mount is either kept or taken, by its volume's name |
| Volumes.TakenOrKept | pkg/webhook/sandbox.go:176-191 | every volume is either kept or taken, and taken exactly when it is a claim, ephemeral or an emptyDir |
| Volumes.TestsAgree | pkg/webhook/sandbox.go:155-167 | the webhook's test for a workload volume and the capture's test for a stripped one agree on every volume |
| Volumes.AdmitThenRestore | pkg/webhook/sandbox.go:32-62 | admission then restoration gives back the multiset of volumes and, per app and init container, of mounts and devices |
| RoundTripVolumes.PutBackAdds | pkg/sandbox/volumes.go:147-171 | what the entries put back into a container is, list by list, what it does not mention yet |
| RoundTripVolumes.RoundTripExactly | pkg/webhook/sandbox.go:124-139 | for every annotation: the workload comes back exactly when the annotation was absent, or holds a snapshot that adds to each list just what was stripped from it, or is unreadable and nothing was stripped |
| RoundTripVolumes.EmptySnapshotLosesVolume | pkg/webhook/sandbox.go:124-139 | a Pod that arrives with an empty snapshot loses its claim |
| Volumes.RestoreTwice | pkg/sandbox/volumes.go:118-171 | restoration is idempotent for every Pod and every snapshot |
| Volumes.AdmitTwice | pkg/webhook/sandbox.go:32-62 | admitting an admitted Pod again changes nothing |
| Admission.FilterVolumes | pkg/webhook/sandbox.go:176-191 | the loop keeps, in order, the volumes that are neither claim, ephemeral nor emptyDir, and drops the names of the others |
| Admission.FilterRefs | pkg/webhook/sandbox.go:193-219 | the loop keeps the references to kept volumes, in order |
| Admission.CaptureContainers | pkg/sandbox/volumes.go:27-66 | the loop records, per container with something to lose, all its mounts and devices of dropped volumes |
| Admission.PodObject.CaptureStripped | pkg/sandbox/volumes.go:27-48 | the snapshot of a Pod object is the captured value |
| Admission.PodObject.Mutate | pkg/webhook/sandbox.go:32-62 | the in-place mutation ends in the admitted Pod, or fails having added only the finalizer; it fails exactly for a live Pod without an annotation whose snapshot is over 256 KiB |
| AdmittedPods.AdmitOnFields | pkg/webhook/sandbox.go:32-62 | an admitted live Pod has, in order, exactly the volumes that are neither claim, ephemeral nor emptyDir; each container exactly its references to no other volume; the other finalizers; and, without an annotation before, a snapshot whose volumes are exactly the rest |
| AdmittedPods.EntryOnFields | pkg/sandbox/volumes.go:50-66 | the snapshot's entry of a container is, in order, its references to removed volumes |
| AdmittedPods.AdmitsExactly | pkg/webhook/sandbox.go:32-62 | a Pod is refused exactly when it is live, has no annotation and its snapshot is over 256 KiB; a deleting Pod is unchanged |
| Admission.PodObject.RestoreMounts | pkg/sandbox/volumes.go:147-171 | every container gets back the mounts and devices whose volume it does not mention |
| Admission.PodObject.RestoreVolumes | pkg/sandbox/volumes.go:118-145 | a new object with the restored value; the original is untouched |
| Mounts.ComputeSerial | pkg/sandbox/guestmounts.go:17-30 | the loop with its early stop computes the serial |
| Mounts.SerialShape | pkg/sandbox/guestmounts.go:17-30 | at most 20 characters, all alphanumeric, never the user-rootfs serial |
| Mounts.SerialsCollideExactly | pkg/sandbox/guestmounts.go:17-30 | two names share a serial exactly when their first 19 letters and digits agree, or one has none and the other's are "disk" |
| Mounts.IgnoredCharacter | pkg/sandbox/guestmounts.go:17-30 | names that differ in one other character collide |
| Mounts.IgnoredTail | pkg/sandbox/guestmounts.go:17-30 | names that agree up to the nineteenth letter or digit collide |
| Mounts.SerialInjective | pkg/sandbox/guestmounts.go:17-30 | serials are unique on non-empty alphanumeric names of at most 19 characters |
| Mounts.SerialOfShortName | pkg/sandbox/guestmounts.go:17-30 | an alphanumeric name of 1 to 19 characters gets the serial "v" and the name, a name without letters and digits gets "vdisk" |
| Mounts.AlnumIs | pkg/sandbox/guestmounts.go:17-30 | the characters that count are the ASCII digits, capitals and small letters, by code |
| Mounts.TableRowsAreShares | pkg/sandbox/translate/translate.go:515-592 | the table grouped by volume is the sum of what each use contributes |
| Mounts.GuestRowsAreShares | pkg/sandbox/guestmounts.go:51-122 | so is the table grouped by container |
| Mounts.TablesAgreeExactly | pkg/sandbox/guestmounts.go:51-122 | the two tables are the same multiset of volume, path, kind and PVC read-only flag, exactly when no used volume is both PVC and emptyDir |
| Mounts.PodTablesAgreeExactly | pkg/sandbox/translate/translate.go:515-592 | the same for the app containers of a restored Pod |
| MountTables.ShimTableIs | pkg/sandbox/guestmounts.go:51-122 | for distinct volume names the shim's table is, in order, one row for each mount of a claim, ephemeral volume or emptyDir and each device of the first two in the chosen containers, other than the root filesystem's, with the reference's own path, its kind and serial, read-only when the reference or the claim is (a device: the claim) |
| MountTables.TranslatorTableIs | pkg/sandbox/translate/translate.go:515-592 | for distinct volume names the translator's table is, as a multiset, one such row for each mount of a claim, emptyDir or file-like volume and each device of a claim, with the reference's own path |
| Capacity.BuiltIsEnoughExactly | pkg/sandbox/rootfs.go:27-37 | a disk built for a size suffices for every smaller size exactly when size plus slack fits 64 bits |
| Capacity.CapacityIs | pkg/sandbox/rootfs.go:27-37 | in range, the larger of 256 MiB per container, at least one, and the image plus 128 MiB |
| Capacity.WrappedCapacityIs | pkg/sandbox/rootfs.go:27-37 | past the range the sum wraps and 256 MiB per container is left |
| Strings.ItoaInjective | pkg/sandbox/translate/translate.go:484-485 | interface numbers render to distinct names |
| Strings.ItoaIsDecimal | pkg/sandbox/translate/translate.go:484-485 | a number renders to decimal digits whose value is the number |
| Translate.RestoredDistinct | pkg/sandbox/volumes.go:118-145 | restoration keeps volume names distinct |
| Translate.DisksMatchVolumes | pkg/sandbox/translate/translate.go:136-161 | disks and volumes correspond by name, position by position, without duplicates, also when the user root filesystem is in error |
| Translate.OneDiskPerClaim | pkg/sandbox/translate/translate.go:528-554 | every PVC but the root filesystem's becomes exactly one disk with its serial, backed by its claim |
| Translate.RestoredTranslatesTheSame | pkg/sandbox/translate/translate.go:159 | translating an already restored Pod gives the same disks and volumes |
| Translate.SerialOnDiskExactly | pkg/sandbox/guestmounts.go:91-122 | a guest mount's serial is on a disk exactly when some attached PVC's name collides with the volume's |
| Translate.ClaimMountFindsDisk | pkg/sandbox/guestmounts.go:51-122 | every guest mount of a PVC, init containers included, names a serial on a disk |
| Translate.MountFindsOnlyItsDiskExactly | pkg/sandbox/guestmounts.go:51-122 | that serial is on the volume's own disk and on no other exactly when no other attached PVC's name collides |
| Translate.NetworksDistinct | pkg/sandbox/translate/translate.go:460-499 | interfaces and networks have the same names, position by position, and no name occurs twice |
| Translate.BackedExactly | pkg/sandbox/translate/translate.go:405-458 | a guest is backed with a page size exactly when the containers ask for that size and no other, and for at least the guest's memory |
| VmiFields.RootfsClaimIs | pkg/sandbox/rootfs.go:48-60 | the root filesystem is the claim of the first volume of the annotated name that is a claim; there is none exactly when no volume of that name is |
| VmiFields.UserRootfsIs | pkg/sandbox/translate/translate.go:367-403 | the root filesystem is on that claim, or without an annotation on a new disk of the stated size, and is in error exactly when a name is given that is no claim |
| VmiFields.DisksAre | pkg/sandbox/translate/translate.go:344-554 | the disks are, in order, the boot disk, the user root filesystem unless in error, and one named and numbered for each other claim |
| VmiFields.VolumesAre | pkg/sandbox/translate/translate.go:344-554 | the volumes behind them are, in the same order, the container disk, the root filesystem's source and the claims |
| VmiFields.NetworksAre | pkg/sandbox/translate/translate.go:460-499 | there are as many SR-IOV networks as devices requested under `intel.com/`, numbered from 0, on the Pod's attachment definition or else the default one; none without a definition or with a TEE |
| VmiFields.SumAllIs | pkg/sandbox/translate/translate.go:222-234 | the sums over nested loops are the sums of the amounts requested, in all containers, under the wanted names |
| VmiFields.MemoryIs | pkg/sandbox/translate/translate.go:244-253 | 512 MiB or what is needed, and 256 MiB on top for the two memory-encrypting TEEs alone |
| VmiFields.ManySizesExactly | pkg/sandbox/translate/translate.go:419-434 | hugepages are in error exactly when two different sizes are asked for and the last request is for a named one |
| VmiFields.FailuresAre | pkg/sandbox/translate/translate.go:59-165 | one error for a root filesystem that is no claim, for several hugepage sizes, for SR-IOV that cannot be had, and for resource claims |
| VmiBuilder.ListGuestMounts | pkg/sandbox/guestmounts.go:51-89 | the loops over volumes and containers build the shim's table: for distinct volume names exactly the rows of the containers' own references, in order |
| VmiBuilder.CollectUses | pkg/sandbox/translate/translate.go:518-526 | the first loop groups every use under its volume, in order |
| VmiBuilder.HasHostDevice | pkg/sandbox/translate/translate.go:209-220 | found exactly when some container requests a resource whose name starts with `intel.com/`, `nvidia.com/` or `gpu` or contains `sriov` |
| VmiBuilder.GuestCompute | pkg/sandbox/translate/translate.go:222-254 | the cores are the least whole number, at least one, covering all requests plus overhead, exactly when that number fits 32 bits (negative totals as the machine converts them); memory covers requests, overhead and the floor, with the TEE slop on top |
| VmiBuilder.Vmi.ApplyUserRootfs | pkg/sandbox/translate/translate.go:367-403 | adds disk and volume together, or neither on error |
| VmiBuilder.Vmi.ApplySriov | pkg/sandbox/translate/translate.go:460-499 | adds as many interfaces as networks under the same names, or none on error |
| VmiBuilder.Vmi.ApplyVolumes | pkg/sandbox/translate/translate.go:515-592 | appends one disk and one volume per attached PVC and returns the translator's table: for distinct volume names exactly the rows of the containers' own references |
| VmiBuilder.Vmi.ApplyHugepages | pkg/sandbox/translate/translate.go:419-458 | sets page size, request and limit to the guest's memory when backed, else touches nothing |
| VmiBuilder.Build | pkg/sandbox/translate/translate.go:59-165 | no VMI exactly for a TEE together with resource claims or a requested host device; otherwise, whatever errors the passes report, the listed devices, the sizing, request equal to limit equal to guest memory when hugepage-backed, and one error per failing pass |
| Resize.BuiltShowsCapacity | pkg/sandbox/translate/translate.go:395-401 | a VMI shows the capacity it was built with, unless its root filesystem is a claim |
| Resize.NeverTooSmallExactly | pkg/sandbox/adaptor/adaptor.go:422-442 | a VMI built for a size is never judged too small for a smaller one, exactly when its root filesystem is a claim or the sum fits 64 bits |
| Resize.TooSmallIs | pkg/sandbox/adaptor/adaptor.go:422-442 | in range, a disk built for one size is too small for another exactly when that is positive and larger and, with 128 MiB, more than 256 MiB per container, and the root filesystem is no claim |
| Resize.ResizesHaveCause | pkg/sandbox/adaptor/adaptor.go:214-282 | over every reconcile run with sizes in range, or for a Pod that is backed by a claim or cannot be built, resize deletes are at most the strict increases of the size annotation |
| Resize.ResizesHaveCauseExactly | pkg/sandbox/adaptor/adaptor.go:214-282 | that holds over all runs with sizes up to a bound exactly when the Pod cannot be built, is backed by a claim, or the bound plus slack fits 64 bits |
| Resize.WrappedSizeForcesResize | pkg/sandbox/adaptor/adaptor.go:214-234 | for every size out of range and any number of containers, a smaller annotation causes a resize |
| Resize.GrowthsAreRises | pkg/sandbox/adaptor/adaptor.go:214-282 | the growths counted over a run are the strict increases in the sequence of annotated sizes |
| Resize.GrowthIsFollowed | pkg/sandbox/adaptor/adaptor.go:214-282 | after every run in range, two more reconciles leave the Pod a disk with room for its size and 128 MiB more |
| Resize.Store.EnsureVmi | pkg/sandbox/adaptor/adaptor.go:214-282 | the store after one reconcile is the one the transition function gives |
| Finalizers.SplitRefRoundTrip | pkg/sandbox/adaptor/adaptor.go:580-587 | a reference reads back as the namespace and name it was made of, exactly when the namespace has no slash |
| Finalizers.PlainRefIsInfra | pkg/sandbox/adaptor/adaptor.go:580-587 | a reference without a slash is a name in `marooned-system` |
| Finalizers.ImpliedIsPlannedExactly | pkg/sandbox/placement.go:33-49 | the name the delete path falls back to is the planned one exactly for UIDs without upper-case letters |
| Finalizers.WithoutKeepsOrder | pkg/sandbox/adaptor/adaptor.go:459-467 | the finalizers left are those at exactly the positions without the sandbox finalizer, in order |
| Finalizers.WithoutIsClean | pkg/sandbox/adaptor/adaptor.go:459-467 | the sandbox finalizer is gone, and a list without it is unchanged |
| Finalizers.WithoutIsFilter | pkg/sandbox/adaptor/adaptor.go:459-467 | exactly the entries equal to `maroonedpods.io/sandbox-cleanup` go |
| Finalizers.StripInPlace | pkg/sandbox/adaptor/adaptor.go:459-467 | compaction in the same slice leaves the stripped list at its front |
| Finalizers.NextKeepsSound | pkg/sandbox/adaptor/adaptor.go:383-420 | every step of webhook, API server, other clients and adaptor keeps copies consistent with the Pod and every logged strip justified |
| Finalizers.AfterKeepsSound | pkg/sandbox/adaptor/adaptor.go:383-420 | so does every interleaving |
| Finalizers.StripFollowsDelete | pkg/sandbox/adaptor/adaptor.go:383-420 | in every interleaving each accepted strip directly follows a delete request for the cached annotated VMI or else the implied one, and removes only the sandbox finalizer |
| Finalizers.FinalizerNeverReturns | pkg/webhook/sandbox.go:33-45 | once a deleting Pod is without the sandbox finalizer, no interleaving brings it back |
| Finalizers.WebhookKeepsOthers | pkg/webhook/sandbox.go:33-45 | a deleting Pod is left alone, a live one has the sandbox finalizer afterwards, and all finalizers there were stay in front, in order |
| Finalizers.OtherFinalizersSurvive | pkg/sandbox/adaptor/adaptor.go:383-420 | over every run of webhook and adaptor no other finalizer is lost, added or moved |
| Finalizers.GoneOnlyByStrip | pkg/sandbox/adaptor/adaptor.go:383-420 | when the sandbox finalizer is gone at the end of a run in which no other client took it, the run stripped it right after a delete request |
| Finalizers.CanRelease | pkg/sandbox/adaptor/adaptor.go:383-420 | from every reachable state with the Pod being deleted the adaptor can release it by its own steps, whatever old copies it holds |
| Relay.AfterKeepsOrdered | cmd/marooned-oci/wait.go:40-77 | in every interleaving the code is recorded before the channel closes, read after the wait returns, and filed before the signal |
| Relay.PauseRelaysTheAnswer | cmd/marooned-oci/wait.go:102-115 | pause is gone only with the code the helper was answered, which both files hold |
| Relay.StoppedIsFinal | cmd/marooned-oci/main.go:182-211 | the OCI state is stopped only after the guest exited, and stays stopped |
| Relay.AfterKeepsClean | pkg/cri/runtime.go:545-566 | over undisturbed runs the shared record and everything derived from it hold the recorded code from the helper's store on |
| Relay.PauseRelaysTheExitCode | cmd/marooned-agent/main.go:246-260 | over every undisturbed run pause terminates only after the guest was reaped, with the status of a failed exit, 0 for a clean one and 1 for any other error |
| Relay.ReapDecides | cmd/marooned-agent/main.go:246-260 | over every run the result the waiter holds is that of the one reap in the run |
| Relay.AloneIsUndisturbed | cmd/marooned-oci/wait.go:40-54 | every run of the four processes without other status requests is undisturbed |
| Relay.CanFinish | cmd/marooned-oci/main.go:75-87 | from every state the invariant allows, pause can still terminate |
| Relay.RelayIsSafeExactly | pkg/cri/runtime.go:512-566 | from the recording of the exit to the helper's store, all continuations relay the recorded code exactly when no other status request holds a different one |
| Relay.CodeIsKeptExactly | cmd/marooned-oci/main.go:195-211 | state.json keeps the exit code the helper writes, over all continuations, exactly when the code is 0 or no state command has an old copy in hand |
| Relay.StaleCodeIsReachable | pkg/cri/server.go:224-236 | a reachable state in which another status request does hold a different code |
| RelayProcesses.World.AwaitExit | cmd/marooned-agent/main.go:246-260 | the waiter's statements are steps of the state machine and leave a closed channel and, recorded, the status of a failed exit, 0 for a clean one and 1 for any other error |
| RelayProcesses.World.Status | cmd/marooned-agent/main.go:278-306 | the agent's answer in every reachable state, 255 between the guest's death and its recording |
| RelayProcesses.World.ContainerStatus | pkg/cri/runtime.go:512-566 | a status request fetches, stores and answers, and changes only the shared record |
| RelayProcesses.World.StopOci | cmd/marooned-oci/wait.go:65-73 | state.json is read, marked stopped with the code and written back, as two steps |
| RelayProcesses.World.FinishContainer | cmd/marooned-oci/wait.go:59-77 | marker, exit code and CRI-O files and state.json all hold the code before pause is signalled |
| RelayProcesses.World.GuestWait | cmd/marooned-oci/wait.go:40-54 | after the wait returned, the helper files the agent's recorded code |
| RelayProcesses.World.PauseExit | cmd/marooned-oci/main.go:75-87 | pause exits with the code that both files hold and the helper delivered |
| RelayProcesses.World.ApplyStopped | cmd/marooned-oci/main.go:195-211 | the copy that was read is written back as stopped when pause is gone or the guest exited, and only then |
| RelayProcesses.World.QueryState | cmd/marooned-oci/main.go:182-193 | a state command reports and records stopped exactly when it was recorded, the guest exited, or pause is gone, and touches nothing else |
| RelayProcesses.RelayAlone | cmd/marooned-oci/wait.go:40-77 | the processes one after the other make pause exit with the status of a failed exit, 0 for a clean one and 1 for any other error |
| Stats.SampleRoundsDownExactly | pkg/sandbox/gueststats.go:31-50 | a sample is the true usage rounded down exactly when neither the product nor the conversion wraps |
| Stats.MergeIs | pkg/sandbox/gueststats.go:31-50 | a first sample has no rate, and a counter that went back or time that did not pass keeps the rate there was |
| Stats.FlooringLosesLessThanOne | pkg/sandbox/gueststats.go:31-50 | over every regular run of samples the millicores charged never exceed the CPU used and fall short by less than one millicore over the elapsed time |

## Left out

- JSON, base64 and tar byte formats: envelopes pass through an abstract lossless codec of which no proper prefix of an encoding decodes, text lengths are computed from the JSON text, and an archive is its sequence of entries.
- Kubernetes, KubeVirt and HTTP plumbing, informers and work queues: the API server is a store with versions, caches are copies that may be old.
- Mounts, mkfs, chroot, namespaces, exec, terminals and sockets: system calls without logic to prove.
- Image pulling, the warm pool (switched off in the source), operator resources, certificates and logging.
- Kernel registration in the two kernel modules and bridge bring-up: kernel calls; each spinlock section is one atomic step and each allocation's outcome is a parameter.
- Command-line scanning, file modes, ownership and wall-clock values.
- Probe rewriting, size classes, boot options, labels and endpoint slices: each is a field set from a constant or a lookup, and nothing modelled here depends on it.
- Admission.PodObject.Mutate: does not write the labels, the placement annotation or the rewritten probes, which neither stripping nor restoring reads.
- Relay: kill, restart and transport errors, and a guest that never starts, are not in the runs; exit codes are not cut to 8 bits. RelayProcesses: each method takes its steps without interruption; interleavings are the subject of Relay.
- Finalizers: the webhook, the API server and the adaptor's delete path are one state machine on values, since the copies and caches they exchange are values.
- Finalizers: a Pod's finalizers may only shrink once it is being deleted, as the API server demands of its clients; names are lower-cased as ASCII.
- Resize.Store.EnsureVmi: the store is synchronous, the Pod's spec fixed during a run, and the VMI is found by its planned name; the lookup by the Pod's annotation and the delete of a VMI in the wrong namespace are not modelled.
- VmiBuilder.GuestCompute: does not model 64-bit wrap of the sums or rounding of the float division; what the machine makes of a number outside 32 bits is a parameter.
- VmiBuilder.Build: the order in which Go visits a resource map is the given order of requests; VMI labels, owner references and boot settings are not built.
- Capacity: at most 2^35 - 1 containers, past which the per-container minimum itself would wrap.
- RootfsTree.DirSize: totals are unbounded; errors during a walk, sockets (which the tar writer refuses) and a root that is a symbolic link are not modelled (Shipping takes a walk that breaks off as given).
- UnpackEffects.UnpackStaysBelow: whiteouts whose name after the prefix is empty, a dot name or contains a slash, and a destination itself named like a whiteout, are excluded.
- Finalizers.GoneOnlyByStrip: another client may remove the sandbox finalizer itself; such runs are excluded.
- RoundTrip.UnpackRebuildsTheTree: trees with names starting with `.wh.` are excluded, since the unpacker reads those as whiteouts (section "Whiteouts" of the OCI Image Specification's layer format).
- RelayProcesses.World.ContainerStatus: of the shared container record only the exit code is modelled, not its state, readiness or timestamps.
- Unpack.Guest.UnpackTar: a symbolic link in the middle of a path is not followed but fails, file writes are atomic, and the state after a failed entry is that before it.
- RootfsStream: the unpacker's own progress is a parameter (how much it reads, whether it succeeds); requests are handled one at a time.
- Shipping.CopyTree: the unpacker works on the whole delivered stream instead of piece by piece, and timeouts are not modelled.
