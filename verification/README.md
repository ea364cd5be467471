# Verification of the acceptance suite's infrastructure lifecycle

This project models, in Dafny, the infrastructure side of the liquidmetal acceptance suite and
proves what that code is relied on for:

- **Base image publication** (`BaseImage`, `BaseImageLimits`, `EnsureBaseImage`,
  `TeardownSteps`, `ProvisionSteps`). Any number of runs execute `ensure_base_image` one command at a time on a
  shared storage pool. Commands fail with or without effect, runs die in mid-upload, teardowns
  and sweeps interleave without the lock. An interleaving is a sequence of steps; the theorems
  quantify over all of them.
- **Ownership by name** (`Names`, `Text`): the string matchers that separate runs.
- **Teardown** (`Teardown`, `Hypervisor`), **network choice** (`Network`), **provisioning and its
  clean-up** (`Provision`) and **the fixture around them** (`Lifecycle`), on a `Hypervisor` class
  whose commands follow the state semantics of the suite's own `FakeVirsh`. How commands fare is
  either a parameter (`Fates`, `Course`, `Script`) or nondeterministic, so every contract covers
  every failure pattern. An interrupt may end any part: provisioning, either collection of
  evidence, either teardown. Waits for a VM are commands too. Commands leave a record on the hypervisor, which the order of
  events is stated about, and every exception raised while provisioning is noted there.
- **The DigitalOcean sweep** (`Cloud`, `CloudVolumes`), **polling** (`Waiter`, `Clients`), **shell quoting**
  (`Shell`), **event order** (`Events`), **placement** (`Placement`), **guest addresses**
  (`Addressing`) and **derived identifiers** (`Identifiers`).

`dafny verify dfyconfig.toml` checks the whole project.

Assumptions. The digest is an arbitrary function of an image's bytes. A base volume's name
determines its checksum: it tells the date and the first eight digits (`BaseVolumeNameExact`), and no
two images in use agree in both. A command that is in flight when its run dies has either taken effect
(an upload: in part) or not by the time the lock is released. `os.replace` is atomic.

## Where the code does not do what is said of it

- `docs/libvirt-backend.md:92-93` tells the user to remove an old base image with a `vol-delete`
  of the volume. That leaves the marker, and with the marker there the next run's half-finished
  upload counts as complete; so does one beside a marker that a run creates after the volume
  was taken from under it. `HandDeleteExact`: at any moment of any schedule, deleting by hand a
  base volume that some run pins is safe for all later schedules exactly when the volume has no
  marker and no run is about to create it.
- The file lock lives in the user's own cache directory, while the pool is the system's. Two users
  hold two locks. `OneLockExact`: every schedule is safe exactly when runs that pin the same
  unpublished image share a home.
- Run ids such as `a` and `a-host1` are both legal, and the teardown of the second takes node 1 of
  the first (`IsolationFailsForLegalIds`). `IsolationExact` gives the exact condition.
- `wait_state` raises as soon as a VM is FAILED, but inside a predicate whose exceptions
  `wait_until` tolerates: only the target state, the deadline or an interrupt ends the wait
  (`WaitState`).
- `provisioned_infra` has no `finally`: an exception thrown in at its `yield` or raised by
  `failed()`, or an interrupt while logs or consoles are collected, ends it before any teardown.
  `SurvivesExactly` and `ProvisionedInfra` say exactly when something of the run survives. In the
  same way an interrupt during the clean-up of a failed provision takes the place of the error
  that failed it, and ends that clean-up (`ProvisionRun`).
- `tests/test_placement.py:71` asks for microVMs on all hosts. The per-host capacity forces that
  exactly when there are at most two (`AllHostsExact`).
- On DigitalOcean volumes are matched by substring, so the teardown of one run can take the volumes
  of another: those of a run whose id begins with its own, but also those of "a" for "a-host1" and
  those of "xlm-acceptance-a" for "a" (`VolumesOfUnrelatedIdsMatch`). `VolumesIsolatedExact` gives
  the exact condition on the two ids.

## Model

| member | source | states |
|---|---|---|
| BaseImage.EveryStateSound | liquidmetal_at/infra/libvirt.py:155-213 | in every state any interleaving of runs, crashes, teardowns and sweeps can reach, a base volume beside its marker holds the whole pinned image, and every overlay has its published, whole backing volume |
| BaseImage.ReadyMeansBootable | liquidmetal_at/infra/libvirt.py:183-213 | as long as a run is past ensure_base_image its base volume is published and whole, whatever the others do |
| BaseImage.PublishedStays | liquidmetal_at/infra/libvirt.py:197-213 | no later step of any run, teardown or sweep deletes a marked base volume or its marker, or changes the volume |
| BaseImage.RunKeepsInv | liquidmetal_at/infra/libvirt.py:183-213 | the protocol invariant (markers imply whole images, lock holders are alone on their image, each knows what its program point promises) survives every schedule |
| BaseImage.DiscardRemoves | liquidmetal_at/infra/libvirt.py:207-211 | a run whose upload failed removes its volume from disk and from the listing |
| BaseImage.AnyPartMayBeLeft | liquidmetal_at/infra/libvirt.py:186-190 | a run that dies in mid-upload may leave any part of the image in the volume |
| BaseImage.PoolChangesMeanwhile | tests/test_libvirt.py:468-476 | beside the commands, parts of an upload, overlays of runs that are ready, and console logs libvirt does not list appear in the pool |
| BaseImage.CacheKeyExact | liquidmetal_at/infra/libvirt.py:157-158 | two runs share a cached file if and only if they share a home and the first sixteen digits of the checksum |
| BaseImageLimits.OneLockExact | liquidmetal_at/infra/libvirt.py:194-196 | every schedule stays sound if and only if runs that pin the same unpublished image share a cache directory and so a lock file |
| BaseImageLimits.TwoLocksDefeatIt | liquidmetal_at/infra/libvirt.py:194-202 | the schedule by which two runs with two lock files leave an empty volume marked |
| BaseImageLimits.HandDeleteExact | docs/libvirt-backend.md:92-93 | in every reachable state, deleting by hand a base volume that some run pins is safe for every later schedule if and only if it has no marker and no run is about to create one |
| EnsureBaseImage.Ensure | liquidmetal_at/infra/libvirt.py:183-213 | the code's own sequence of commands, with arbitrary interference before each, is an execution of the protocol; a name it returns is that of a published, whole image; it waits only for a held lock, gives the lock up however it ends, and raises only when a command of its own failed or the image served was not the pinned one; after a failed upload the partial volume is gone unless its deletion failed too |
| EnsureBaseImage.Inspect | liquidmetal_at/infra/libvirt.py:197-202 | listing and decision: trust only a volume with its marker, replace one without, create a missing one |
| EnsureBaseImage.Machine.DownloadBase | liquidmetal_at/infra/libvirt.py:155-180 | the cache is replaced only by verified bytes, and success means verified bytes are cached |
| TeardownSteps.TeardownIsSteps | liquidmetal_at/infra/libvirt.py:433-437 | whatever a teardown matches and however it fares, its effect on the pool is a sequence of the protocol's unlocked steps |
| TeardownSteps.TeardownSparesPublished | liquidmetal_at/infra/libvirt.py:35-36 | so no teardown or sweep touches a marked base image, and each keeps the protocol invariant |
| ProvisionSteps.ProvisionKeepsInv | liquidmetal_at/infra/libvirt.py:304-312 | whatever a provision of a run past ensure_base_image does to the pool, and however it ends, keeps the protocol invariant |
| ProvisionSteps.NodesOnWholeImage | liquidmetal_at/infra/libvirt.py:365-384 | every node of a provisioned run has its overlay on a published, whole image |
| Names.IsolationExact | liquidmetal_at/infra/libvirt.py:446-448 | no name that either of two runs gives to an object is accepted by both matchers, if and only if the ids differ and neither begins with the other followed by "-host" |
| Names.RunIsolation | liquidmetal_at/infra/libvirt.py:446-448 | the matcher of one isolated run accepts no domain, network, overlay or console log of the other |
| Names.IsolationFailsForLegalIds | liquidmetal_at/config.py:264-274 | two ids configuration accepts whose runs are not isolated |
| Names.OwnNamesMatched | liquidmetal_at/infra/libvirt.py:219-220 | both matchers accept every name a run gives to its objects |
| Names.BaseClashExact | liquidmetal_at/config.py:270-274 | a run's matcher accepts a base-image name if and only if the id is "base" or begins with "base-" |
| Names.OwnVolumesAreNotBase | liquidmetal_at/infra/libvirt.py:436 | for a legal id the base-image filter of teardown skips nothing of the run |
| Names.MarkersDistinct | liquidmetal_at/infra/libvirt.py:192-193 | no marker is named like a base volume, and a marker belongs to one volume |
| Names.Spelling | tests/test_libvirt.py:236-242 | the names of a base volume, its marker, a run's network, node, overlay and console log, as spelled |
| Names.BaseVolumeNameIsBase | liquidmetal_at/infra/libvirt.py:140-144 | the name given to the pinned image is one the protocol takes for a base volume |
| Names.BaseVolumeNameExact | liquidmetal_at/infra/libvirt.py:140-144 | two images share a base volume name if and only if they agree in the date and in the first eight digits of the checksum |
| Teardown.TeardownExact | liquidmetal_at/infra/libvirt.py:413-443 | for any failure pattern of listings, refresh and removals, and whether or not the pool is active, teardown leaves exactly the objects that it did not get to list, that were not matched, are base images, or whose removal had no effect, unlisted files included, all with their contents; of an inactive pool it changes nothing |
| Teardown.ReportExact | liquidmetal_at/infra/libvirt.py:413-443 | it raises exactly when a listing it makes or a removal failed: with the set of failed removals, or at the first listing that failed |
| Teardown.Idempotent | liquidmetal_at/infra/libvirt.py:451-454 | a second teardown changes nothing and reports nothing |
| Teardown.IsolatedTeardownsCommute | liquidmetal_at/infra/libvirt.py:451-454 | teardowns of isolated runs commute, whatever fails in either, and do not change what the other reports |
| Teardown.SweepAbsorbs | liquidmetal_at/infra/libvirt.py:457-460 | a sweep makes up for any earlier teardown of a run |
| Teardown.SweepConverges | liquidmetal_at/infra/libvirt.py:457-460 | after any history of failed teardowns a smooth sweep leaves exactly the base images and the objects outside the prefix, and of an inactive pool every file |
| Hypervisor.DestroyMatching | liquidmetal_at/infra/libvirt.py:413-443 | the loops over listings in any order compute that teardown, and report each failed removal once |
| Hypervisor.CollectConsoles | liquidmetal_at/infra/libvirt.py:466-486 | changes nothing but libvirt's listing and raises nothing but an interrupt; when nothing fails the console log of every node of the run is saved as host<i>-console.log; nothing else is saved or lost |
| Hypervisor.OwnConsoles | liquidmetal_at/infra/libvirt.py:479-482 | of a node's files its console log is taken, and its overlay is not |
| Hypervisor.DestroyRun | liquidmetal_at/infra/libvirt.py:451-454 | applies that teardown to the run's objects and raises exactly when it reports a failure or is interrupted |
| Hypervisor.SavedApart | liquidmetal_at/infra/libvirt.py:479-483 | two console logs of a run are never saved to the same file |
| Network.CreateNetwork | liquidmetal_at/infra/libvirt.py:273-298 | the network is on a range that no other listed network has its address in; without faults it succeeds exactly when a least free range exists with fewer than SUBNET_ATTEMPTS unlisted busy ones below it, on that range, and otherwise leaves no definition; other networks are never touched |
| Network.PickSubnet | liquidmetal_at/infra/libvirt.py:263-270 | the first <prefix>.n in which no listed address lies and that is not skipped, or an error when there is none among the 256 |
| Network.UsedExact | liquidmetal_at/infra/libvirt.py:254-260 | a range is taken for used if and only if some listed address is that range, a dot and one more octet |
| Network.NoChoice | liquidmetal_at/infra/libvirt.py:282-298 | when the search gives up, no range met the condition |
| Network.RangeOfGateway | liquidmetal_at/infra/libvirt.py:244-260 | the range read back from a network's address is the one it was defined on |
| Provision.ProvisionRun | liquidmetal_at/infra/libvirt.py:375-399 | succeeds whenever the pool, the base image and a free range are there, no object has one of the run's names and no command fails of itself; wherever it stops, with whatever partial effects, a failed provision raises the exception that left the try block, whatever the clean-up reports (only an interrupt of the clean-up itself replaces it), has touched only its own objects, collects consoles before it removes anything, and after a working clean-up leaves what a smooth teardown would leave of the state before |
| Provision.CreateVm | liquidmetal_at/infra/libvirt.py:304-334 | success means domain and overlay on the base exist; a failure at any point has touched only the run's own objects |
| Provision.Build | liquidmetal_at/infra/libvirt.py:376-384 | success means the network is there with its gateway at .1, each node with its overlay at octet 10 + k of that range, and each was seen with a lease and over SSH; it succeeds under the same conditions |
| Provision.NodeAddressExact | liquidmetal_at/infra/libvirt.py:223-224 | a node's address is never the gateway's, is one octet long up to node 245, and lies in the network's dynamic range exactly for nodes 90 to 190 |
| Provision.FailedProvisionLeavesNoTrace | liquidmetal_at/infra/libvirt.py:385-398 | if no object of the run existed before, that state has every object it had before and no other |
| Provision.FailedProvisionLeavesNothingOfTheRun | liquidmetal_at/infra/libvirt.py:385-398 | in any case it has no object of the run |
| Lifecycle.ProvisionedInfra | liquidmetal_at/infra/backend.py:38-68 | the record shows a failed run's logs, then its consoles, then any removal; log collection errors skip nothing; consoles are saved as they were before any removal; which error it raises in each case; when it returns without raising, something of the run survives if and only if the run failed and is kept; an error at the yield or an interrupt of a collection leaves it all behind; it yields whenever provisioning can succeed |
| Lifecycle.SurvivesExactly | liquidmetal_at/infra/backend.py:44-68 | short of a teardown that raises, something of a provisioned run survives if and only if teardown was skipped: the run failed and is kept, or the body, failed() or an interrupt during either collection cut the generator short |
| Cloud.DestroyTag | liquidmetal_at/infra/do.py:218-280 | success means no firewall, droplet or volume of the tag is left and any VPC of that name is an undeletable default; a failure has removed only what the tag matches, and in order: no droplet while a firewall is left, no volume while a droplet is, no VPC while anything else is |
| Cloud.ReapTag | liquidmetal_at/infra/reaper.py:22-39 | the tag disappears only after everything it leads to |
| Cloud.Sweep | liquidmetal_at/infra/reaper.py:42-63 | only resources that bear one of the suite's listed tags go; whatever fails, every listed tag gets its turn: one that is still there had a request of its own fail in this sweep, any other was torn down; every remaining resource still has a tag to find it by; without failures only default VPCs are left |
| Cloud.Sweeps | liquidmetal_at/infra/reaper.py:42-63 | over n sweeps, a tag that outlasts them had a failure of its own in each, and all else holds as of one |
| CloudVolumes.VolumeTakenExact | liquidmetal_at/infra/do.py:252-255 | the tag of r is found in the name of s's volume if and only if r begins it behind the prefix, or the whole tag occurs behind the prefix |
| CloudVolumes.VolumesIsolatedExact | liquidmetal_at/infra/do.py:252-255 | the teardown of r takes by name no volume of s, whatever its node, if and only if the tag of r neither occurs in what s's volume names begin with nor reaches from there through a number into "-pool" |
| CloudVolumes.VolumesOfUnrelatedIdsMatch | liquidmetal_at/infra/do.py:252-255 | two teardowns that take volumes of a run whose id does not begin with their own |
| Waiter.WaitUntil | liquidmetal_at/waiter.py:31-58 | polls as long as the next poll would begin before the deadline, at most ceil(timeout/interval) times; returns only what the last poll gave, begun before the deadline; times out only when the next poll would begin at the deadline or later, with every poll falsy or a tolerated error, and reports the last error |
| Waiter.PollLimitExact | liquidmetal_at/waiter.py:41-54 | that limit is the least number of intervals that cover the timeout |
| Clients.WaitDeleted | liquidmetal_at/flintlock/client.py:132-138 | both wait_deleted methods return only on a real NOT_FOUND; a failed RPC neither counts as one nor ends the wait: only NOT_FOUND, the deadline or an interrupt does |
| Clients.WaitState | liquidmetal_at/flintlock/client.py:115-130 | returns only a VM observed in the target state; a FAILED VM does not end the wait: only the target state, the deadline or an interrupt does |
| Clients.WaitAvailable | liquidmetal_at/battery/client.py:189-201 | returns only a pool seen with enough VMs |
| Clients.WaitClaimable | liquidmetal_at/battery/client.py:203-217 | never asks again after a granted claim; a timeout means no claim was granted |
| Shell.QuoteRoundTrip | liquidmetal_at/remote/ssh.py:117-118 | for every text the shell reads the quoted form as exactly one word, the text |
| Shell.SudoRunsTheCommand | liquidmetal_at/remote/ssh.py:91-92 | sudo always runs the four words sudo, bash, -c and the command |
| Shell.QuoteInjective | liquidmetal_at/remote/ssh.py:117-118 | different texts never quote alike |
| Events.SubsequencePresent | tests/battery/test_events.py:54-56 | consuming one iterator greedily finds the needle if and only if increasing positions spelling it exist |
| Events.StaysPresent | tests/battery/test_events.py:91-95 | once present, present in every longer stream |
| Events.Watch.Poll | tests/battery/test_events.py:91-95 | a poll appends what was drained and, once true, stays true |
| Placement.MustSpread | liquidmetal_at/bootstrap/host.py:30-39 | any placement of all microVMs within the capacities uses two hosts at least |
| Placement.FitsExact | liquidmetal_at/bootstrap/host.py:30-39 | a host tops out at one microVM less than the test creates, but one at least, by its vCPUs and by its memory each alone |
| Placement.NeverStuck | liquidmetal_at/bootstrap/host.py:30-39 | with two hosts or more some host has room until all are placed |
| Placement.SchedulerCompletes | liquidmetal_at/bootstrap/host.py:30-39 | any scheduler that picks hosts with room places all microVMs, on two hosts at least |
| Placement.AllHostsExact | tests/test_placement.py:70-74 | every placement of all microVMs within the capacities uses every host if and only if there are at most two hosts |
| Addressing.ValidationExact | liquidmetal_at/config.py:188-201 | looking at host 0 accepts exactly when there is a host and every host's block has at least 8 addresses |
| Addressing.NetworkExact | liquidmetal_at/config.py:181 | the network address is the greatest multiple of the subnet's size not above the address as written |
| Addressing.DhcpPartition | liquidmetal_at/config.py:168-186 | then the blocks are equal, ordered, disjoint, start at the midpoint, end before the subnet's last address, and leave fewer addresses over than there are hosts |
| Addressing.BlocksCover | liquidmetal_at/config.py:168-186 | and they cover an unbroken stretch from the midpoint |
| Addressing.StaticAddressesApart | liquidmetal_at/config.py:162-166 | static addresses below the midpoint are in the subnet, distinct, not the gateway, and in no host's block, nor is the gateway, the subnet's first address |
| Addressing.StaticClashExact | liquidmetal_at/config.py:162-186 | an index has a static address that DHCP hands out too exactly when 10 + index fits an octet and lies in the stretch the blocks take |
| Identifiers.NodeNamesNeverCollide | liquidmetal_at/infra/libvirt.py:219-220 | node names of all runs and indices are distinct |
| Identifiers.MacsNeverCollide | liquidmetal_at/infra/libvirt.py:227-230 | hypervisor MACs carry the range's octet and the node's, and so tell apart all ranges and all nodes up to index 245 |
| Identifiers.GuestMacsExact | liquidmetal_at/flintlock/spec.py:100 | guest MACs end in the low sixteen bits of the index, and coincide exactly for indices equal modulo 65536 |
| Identifiers.GuestMacsApart | liquidmetal_at/flintlock/spec.py:95-100 | no guest MAC is the metadata interface's or a hypervisor MAC |
| Identifiers.NodeIndexRoundTrip | liquidmetal_at/battery/guest.py:27-29 | node_index gives back the index in the name bootstrap gave the host |
| Identifiers.NodeAddressesDistinct | liquidmetal_at/infra/libvirt.py:223-224 | nodes of a run have distinct addresses |

## Left out

- `preflight`, `ensure_pool` and `pool_path` run before provisioning touches any object of the run; the hypervisor's pool is active or not as a parameter of its state.
- Stopping domains and networks (`destroy`, `net-destroy`): as in `FakeVirsh` they have no effect on what is listed and their failures are ignored, so a domain that keeps running after it was undefined is not modelled.
- A network has one address in the model; several `ip` elements, XML parsing and masks wider than /24 are left out.
- Provision.Build: the waits for a lease and for sshd are commands that may fail or be interrupted, not the polling loop itself, which `Waiter` models.
- Cloud.Sweep: tags are visited in an arbitrary order rather than sorted; listings that succeed are complete, nothing is created meanwhile, and at most one VPC bears a name. A failure to list the tags, or an interrupt, ends the source's sweep early; the model covers sweeps that run to their end.
- Cloud.DestroyTag: whether a VPC is its region's default is fixed during a teardown, and a retried operation is repeated any number of times instead of for a time.
- DigitalOcean provisioning (`do.provision`) and the SSH-key, firewall-rule and volume bodies it sends.
- CloudVolumes.VolumesIsolatedExact: volumes are matched by name or by tag; the match by tag, which is exact, is left aside.
- Shell.QuoteRoundTrip: the shell's reading stops at plain word lists; operators and expansions outside quotes are refused by the model's reader, not interpreted.
- Subprocess execution, SSH and gRPC transport, templates, cloud-init text, log collection and the tolerant status parsers, which carry no deep invariant.
- brigade, flintlockd and poolmgrd are not part of this model.
