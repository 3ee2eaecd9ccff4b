# Cloudless: a verified model

Cloudless is a container platform written in Go. This project models the parts of it that decide something: where
replicas go, in which order a rollout replaces them, what the replicated store answers, which key a secret is under,
which address a service gets, which endpoint or peer is chosen, when a container is restarted and whether a workload
is admitted. It proves what those parts promise, for all inputs and over whole runs.

`dafny verify dfyconfig.toml` checks everything (Dafny 4.11).

| file | models | main results |
|---|---|---|
| `Capacity.dfy`, `BinPack.dfy` | the bin packers | `Pack` places as many replicas as any assignment within the nodes' capacities and usages; neither packer over-commits; exactly when both place equally many |
| `Spread.dfy`, `Scheduler.dfy` | spreading, filtering, `Schedule`, `Reschedule` | success under "binpack" is exactly joint capacity of the eligible nodes; widest spread in every map order |
| `Rollout.dfy` | rollout plans | exact condition, over all integers, for keeping the minimum at every step; conservation of replicas |
| `Fsm.dfy` | the Raft state machine | maintenance is unobservable; exact condition for replicas to agree when entries expire |
| `Envelope.dfy`, `Secrets.dfy` | envelope encryption and the secrets manager | a read after any run returns what its successful operations last wrote; key rotation is invisible |
| `IPPool.dfy`, `Registry.dfy` | virtual addresses and the service registry | first free address in cyclic order without overflow; names and addresses stay one-to-one; conservation of addresses |
| `LoadBalancer.dfy` | endpoint selection | exact fairness, by weight and in turn |
| `Connections.dfy` | connection counting | conservation under every interleaving; exactly when the registered object carries the count |
| `Health.dfy` | probe counters and the restart limiter | sliding-window bound on restarts over every run, and every restart that is due is made; exactly when the counters are those since the last clear |
| `Policy.dfy` | admission policies and their result cache | order-independent decision; stored results are current for all workloads with their key exactly if the key determines the workload |
| `Mesh.dfy` | the partial mesh | in-place exchange sort, best and worst peers, exactly when two rounds overstep the limit |

`Common.dfy` holds what they share: sums, permutations, images of sequences, texts joined by a separator and `sort.Slice`.

Conventions. Clock readings, probe outcomes, scores and random bytes are inputs, or come from methods that promise
nothing but a range, so the results hold for all of them. The order of Go's map iteration and how `sort.Slice` breaks
ties are left open in the same way. Error returns are `Option` values or a `bool`. Machine integers are unbounded
unless a wrap-around is written out: it is for the waste sum (int64), the address arithmetic (uint32), the selection
counter and the secret version (uint64), and the connection and probe counters and the item IDs (int32). A method is
one critical section of its mutex. Where the source lets go of a lock in the middle, the model is cut there: a probe
into `BeginProbe` and `FinishProbe`, an evaluation into `CachedResult`, `Judge` and `CacheResult`. The stats objects of
the load balancer, which no mutex protects, are modelled step by step.

The cipher is any pair of functions in which opening undoes sealing (`Sound`). That a ciphertext opens under at most one
key (`OneKey`) is assumed only where a contract says so. The bytes of a new master key are inputs.

## Where the code does not do what is said of it

Each of these is a lemma with a concrete input, or a contract with both cases, and the exact condition next to it.

- A rolling update does not always keep `minAvailable`: the batch size is clamped to one even when nothing may be
  missing (`Rollout.ClampBreaksMinimum`, `Rollout.RollingKeepsIff`).
- A rolling update that scales up by more than one surge step does not reach the desired size (`Rollout.RollingTotals`).
- Best-fit never uses a bin whose waste is the largest int64, so it can place fewer replicas than first-fit
  (`Capacity.BestFitCanStall`, `Capacity.SameCountIff`).
- `Reschedule` refuses to act when fewer than `minAvailable` replicas are ready, which is when replacements are most
  needed (`Scheduler.Reschedule`).
- With expiring entries, replicas that apply the same log at different times can disagree for good: a value that was
  overwritten by an expiring one comes back (`Fsm.OverwrittenValueReturns`, `Fsm.ReplicasAgreeIff`).
- The object metadata of different buckets can share an entry: object "c" of bucket "a:b", and "b:c" of "a"
  (`Fsm.ObjectsCollide`, `Fsm.ObjectKeysIff`).
- Registering a name again takes a new address and leaves the old one taken but unreachable
  (`Registry.FreshStrands`, `Registry.ServiceRegistry.RegisterService`).
- Clearing the probe results of a container also clears those of containers whose IDs extend its ID (`Probes.ClearsIff`).
- A clear that falls inside a probe is undone: the probe stores counters that include what was cleared
  (`Probes.ClearedInFlight`, `Probes.ProbeExecutor.SinceClearIff`).
- Restarts that fail are never limited, and a restart that works leaves the failures that caused it in place
  (`HealthMonitors.RestartLimiter.RetryFailing`, `HealthMonitors.RestartLimiter.RestartAgain`).
- Two first uses of an endpoint can create two stats objects, and connections counted on one of them are lost
  (`Connections.LostIncrement`, `Connections.AlwaysCarriedIff`).
- With more than 55297 replicas the item IDs of the packers repeat (`BinPack.DistinctRunesIff`).
- A denied request can carry the reason that a policy allowed it (`Policies.DeniedAsAllowed`,
  `Policies.MisleadingReasonIff`).
- The policy cache returns one workload's result for another that shares namespace, name and image, or whose names
  only join to the same text: namespace "a" with name "b/c", and "a/b" with "c" (`Policies.WrongHit`,
  `Policies.HitsCurrentIff`, `Policies.KeyCollidesIff`).
- A policy added while an evaluation is under way can be missed by the cache for as long as the entry lives
  (`Policies.StaleHit`, `Policies.Engine.CacheResult`).
- A condition with operator Exists on a label holds for every workload (`Policies.ExistsIff`,
  `Policies.MissingLabelExists`).
- A mesh round does not count dials in progress, and two rounds in a row can overstep the peer limit
  (`Mesh.DialsBoth`, `Mesh.MeshManager.TwoRounds`, `Mesh.OverstepsIff`).

## Model

| member | source | states |
|---|---|---|
| `Capacity.RoomIsLargest` | pkg/scheduler/binpack.go:79-107 | the number of replicas a bin accepts one at a time is the largest number it can take, under either packer |
| `Capacity.HostsClosedForm` | pkg/scheduler/binpack.go:272-276 | for a non-negative request, taking k replicas one by one is the same as k times the request fitting in all three dimensions |
| `Capacity.TakenNeverOvercommits` | pkg/scheduler/binpack.go:79-107 | whatever the sign of the request, k replicas taken one by one never exceed the bin in any dimension |
| `Capacity.NoAssignmentBeats` | pkg/scheduler/binpack.go:49-119 | no feasible assignment of at most `replicas` replicas exceeds the smaller of `replicas` and the total room |
| `Capacity.JointlyHostIff` | pkg/scheduler/binpack.go:49-119 | the bins can host k replicas between them exactly if their rooms add up to k |
| `Capacity.TakenIsCovered` | pkg/scheduler/binpack.go:272-276 | k > 0 replicas taken one by one are covered: usage plus k times the request is within capacity in every dimension |
| `Capacity.HostsIffCovers` | pkg/scheduler/binpack.go:253-276 | for a non-negative request, a node takes k > 0 replicas one by one exactly if its capacity covers usage plus k times the request |
| `Capacity.FeasibleIffCanHost` | pkg/scheduler/binpack.go:253-276 | an assignment is feasible exactly if the capacities and usages of the nodes allow it |
| `Capacity.JointlyHostIffCanHost` | pkg/scheduler/binpack.go:49-119 | the nodes jointly host k replicas exactly if some assignment of k is within their capacities and usages |
| `Capacity.TotalRoomPermutes` | pkg/scheduler/binpack.go:53-56 | the total room does not depend on the order of the bins |
| `Capacity.RoomUntilStall` | pkg/scheduler/binpack.go:214-226 | best-fit takes exactly the replicas first-fit would take before the first one whose waste is the int64 maximum |
| `Capacity.SameCountIff` | pkg/scheduler/binpack.go:201-250 | first-fit and best-fit place equally many replicas exactly if no bin reaches the maximal waste while first-fit would still use it, or the bins hold all replicas before they do |
| `Capacity.SameCount` | pkg/scheduler/binpack.go:201-286 | they do on every input whose waste sums stay below the int64 maximum |
| `Capacity.BestFitCanStall` | pkg/scheduler/binpack.go:214-231 | a node whose waste is the int64 maximum is used by first-fit and refused by best-fit |
| `Capacity.MaximalWasteExists` | pkg/scheduler/binpack.go:279-286 | such a node exists |
| `Capacity.WasteIs` | pkg/scheduler/binpack.go:279-286 | where the sum does not overflow, the waste is the millicores, megabytes and gigabytes the node has left after the replica |
| `BinPack.RunState` | pkg/scheduler/binpack.go:79-107 | in every packing run each bin has shrunk by exactly the replicas recorded on it, and took them one at a time |
| `BinPack.CompleteRunLength` | pkg/scheduler/binpack.go:79-107 | any rule that stops only when stuck places min(replicas, total room), whichever bins it prefers |
| `BinPack.FirstFitSaturates` | pkg/scheduler/binpack.go:79-107 | once first-fit uses a bin, every earlier bin is full and stays full |
| `BinPack.RunPacksNodes` | pkg/scheduler/binpack.go:49-119 | a complete run over the rearranged bins gives each node no more than it has free and places the maximum |
| `BinPack.FirstFitIsGreedy` | pkg/scheduler/binpack.go:53-107 | if a node receives a replica, every strictly higher-scored node cannot take one more |
| `BinPack.DistinctRunesIff` | pkg/scheduler/binpack.go:58-67 | the IDs string(rune(i)) of n replicas are all different exactly if n is at most 0xD801 |
| `BinPack.ShuffledItems` | pkg/scheduler/binpack.go:58-74 | sorting the items, all equal to the comparison, keeps their requests, and their IDs are different exactly up to 0xD801 items |
| `BinPack.HostedAreCovered` | pkg/scheduler/binpack.go:253-276 | placements that over-commit no bin are within every node's capacity on top of its usage |
| `BinPack.MostPlaced` | pkg/scheduler/binpack.go:49-119 | min(replicas, total room) is at least what any assignment within capacities and usages places |
| `BinPack.CreateBins` | pkg/scheduler/binpack.go:253-269 | one bin per node with its ID, name and score, and capacity minus usage in each of the three dimensions |
| `BinPack.FillBins` | pkg/scheduler/binpack.go:79-107 | the in-place loops perform a complete first-fit run and record each choice |
| `BinPack.Pack` | pkg/scheduler/binpack.go:49-119 | no assignment within the nodes' capacities and usages places more of the replicas; usage plus what was placed stays within every capacity; filled by score; item IDs different for up to 0xD801 replicas, and not when more are all placed |
| `BinPack.LeastWaste` | pkg/scheduler/binpack.go:214-231 | the first bin of least waste among those accepted, or -1 exactly if none accepts |
| `BinPack.FillLeastWaste` | pkg/scheduler/binpack.go:205-247 | the in-place loop performs a complete best-fit run, records each choice and labels the k-th placement string(rune(k)) |
| `BinPack.PackBestFit` | pkg/scheduler/binpack.go:201-250 | a complete best-fit run: every replica at least waste, usage plus what was placed within every capacity, count equal to the best-fit room, item IDs different exactly up to 0xD801 placements |
| `Spread.FirstPassSpreads` | pkg/scheduler/binpack.go:122-198 | the groups used after both passes are those of the first pass: min(replicas, capable groups) |
| `Spread.PassesSpread` | pkg/scheduler/binpack.go:122-198 | the two passes use each node at most once, min(replicas, capable nodes) nodes and min(replicas, capable groups) groups, with the best node of each used group |
| `Spread.GroupsIff` | pkg/scheduler/binpack.go:289-316 | two nodes share a group exactly if they have the same zone, region or ID, whichever the policy names; any other policy has one group |
| `Spread.CapableIff` | pkg/scheduler/binpack.go:319-326 | a node is capable exactly if its capacity covers its usage and one more replica |
| `Spread.SpreadsByPlace` | pkg/scheduler/binpack.go:122-198 | a widest spread over groups reaches min(replicas, number of zones) zones of capable nodes, or regions, or nodes |
| `Spread.GroupNodes` | pkg/scheduler/binpack.go:289-316 | every node is in its group's list and nowhere else, each list sorted by score |
| `Spread.SelectBestNode` | pkg/scheduler/binpack.go:319-326 | a best-scored capable node of the group, or none exactly if no node is capable |
| `Spread.OnePerGroup` | pkg/scheduler/binpack.go:126-155 | one best node from each of as many groups as there are replicas for, in any group order |
| `Spread.FillRest` | pkg/scheduler/binpack.go:157-197 | keeps the first choices and adds every unused capable node while replicas remain |
| `Spread.PackWithSpread` | pkg/scheduler/binpack.go:122-198 | min(replicas, capable nodes) nodes and min(replicas, their zones, regions or nodes) places, told by the nodes' own fields; item IDs different exactly up to 0xD801 placements |
| `Spread.SpreadSchedule` | pkg/scheduler/scheduler.go:478-538 | the same over all given nodes, without a capacity check |
| `Scheduler.FilterNodes` | pkg/scheduler/scheduler.go:270-316 | in order, exactly the eligible nodes whose capacity covers their usage and one replica |
| `Scheduler.IneligibleIff` | pkg/scheduler/scheduler.go:270-434 | all reasons to leave a node out: not ready, region or zone not listed, a selector or required affinity unmet, a required anti-affinity met, or a NoSchedule taint that no toleration matches |
| `Scheduler.FilterFailedNodes` | pkg/scheduler/scheduler.go:732-762 | in order, exactly the nodes not listed as failed and not in state failed or offline |
| `Scheduler.FilteredRoom` | pkg/scheduler/scheduler.go:284-289 | nodes filtered out for lack of resources had no room to offer |
| `Scheduler.BinPackSchedule` | pkg/scheduler/scheduler.go:449-475 | as many decisions as Pack's maximum, on nodes of the input, without over-commitment and filled by score |
| `Scheduler.RenumberedPacks` | pkg/scheduler/scheduler.go:449-475 | numbering the placements again changes nothing about where replicas are |
| `Scheduler.DefaultSchedule` | pkg/scheduler/scheduler.go:541-558 | one replica on each of the best-ranked nodes |
| `Scheduler.DefaultTakesBest` | pkg/scheduler/scheduler.go:541-558 | over nodes sorted by score that is one replica on each of min(replicas, nodes) nodes, none scored below one left out |
| `Scheduler.PackedDecisions` | pkg/scheduler/scheduler.go:449-475 | packing the ranked candidates places all replicas exactly if all eligible nodes together can host them |
| `Scheduler.OnceCovered` | pkg/scheduler/scheduler.go:284-289 | one replica on each of different candidates stays within their capacities |
| `Scheduler.PackedCovered` | pkg/scheduler/scheduler.go:449-475 | packed decisions stay within the capacities of all nodes |
| `Scheduler.EligibleCanHost` | pkg/scheduler/scheduler.go:319-327 | the free resources of the eligible nodes host all replicas exactly if their capacities and usages allow it |
| `Scheduler.NoCandidates` | pkg/scheduler/scheduler.go:211-219 | without a candidate, no replica can be hosted |
| `Scheduler.Place` | pkg/scheduler/scheduler.go:221-266 | the strategy switch: decisions and unscheduled replicas add up, success means none is left, every decision is on an eligible node within its capacity, binpack succeeds exactly on joint capacity and fills by score, spread is widest, anything else takes the best nodes once each |
| `Scheduler.Schedule` | pkg/scheduler/scheduler.go:195-267 | for at least one replica, "binpack" succeeds exactly if some assignment of all replicas to eligible nodes keeps usage plus requests within every capacity; under every strategy no node is over-committed; failure without candidates |
| `Scheduler.Reschedule` | pkg/scheduler/scheduler.go:606-729 | refuses exactly if ready replicas are below a positive minAvailable; otherwise promises over the healthy nodes all that Place does, fails without candidates and never uses a failed node |
| `Rollout.PlanBatches` | pkg/scheduler/rollout.go:160-185 | the loop over ceil(n/b) batches gives the batches obtained by taking up to b from what is left |
| `Rollout.PlanRollingUpdate` | pkg/scheduler/rollout.go:109-200 | the plan is the reference plan: surge, batches, scale down |
| `Rollout.PlanRecreate` | pkg/scheduler/rollout.go:203-250 | for all integers: which minimum the plan keeps at every prefix (for a running fleet none above zero), how many replicas exist at most, and where it ends |
| `Rollout.PlanBlueGreen` | pkg/scheduler/rollout.go:253-294 | for all integers: which minimum the plan keeps at every prefix, that it peaks at both fleets together and pauses there exactly if asked to, and where it ends |
| `Rollout.PlanRollout` | pkg/scheduler/rollout.go:51-87 | error exactly for an unknown strategy; the minimum is minAvailable capped at desired and never negative; if that is unset, desired minus maxUnavailable; if both are, one below desired; with at least one replica, a reachable minimum and no negative surge, a rolling plan keeps it unless minAvailable = current = desired; recreate keeps only zero, blue-green exactly what the old fleet met |
| `Rollout.RollingEffect` | pkg/scheduler/rollout.go:109-200 | where a rolling plan ends, and exactly which lower and upper bounds all its prefixes respect |
| `Rollout.RollingKeepsIff` | pkg/scheduler/rollout.go:109-200 | for all integers, ready replicas stay at the minimum at every prefix exactly under a condition on the plan's inputs |
| `Rollout.ClampBreaksMinimum` | pkg/scheduler/rollout.go:153-158 | with minAvailable = current = desired the clamped batch breaks the minimum |
| `Rollout.RollingTotals` | pkg/scheduler/rollout.go:122-197 | the fleet never exceeds current plus the surge step, and ends at the desired size exactly if that is within one surge step |
| `Rollout.RollingReplacesAll` | pkg/scheduler/rollout.go:146-186 | the batches stop exactly `current` replicas and start as many, each batch between 1 and the batch size |
| `Rollout.RecreateKeepsIff` | pkg/scheduler/rollout.go:203-250 | over all integers, the exact condition for recreate to keep a minimum, its peak and its end |
| `Rollout.BlueGreenKeepsIff` | pkg/scheduler/rollout.go:253-294 | over all integers, the exact condition for blue-green to keep a minimum, its peak and its end |
| `Rollout.BlueGreenPauses` | pkg/scheduler/rollout.go:261-291 | the plan pauses exactly if a pause is set, while both fleets are up and before anything stops |
| `Rollout.CalculateMaxReplicasToStop` | pkg/scheduler/rollout.go:313-325 | stopping that many ready replicas keeps the minimum and one more would not; none when already below; all when no minimum is set |
| `Fsm.FSM.DoBatch` | pkg/raft/fsm.go:118-142 | a batch acts as its commands one by one, and fails exactly if some operation is unknown |
| `Fsm.FSM.DoSet` | pkg/raft/fsm.go:145-178 | an entry that has expired already changes nothing; any other is stored with its value and expiry, keeping the time of creation; no other key changes |
| `Fsm.FSM.DoMetadata` | pkg/raft/fsm.go:342-415 | creates and deletes act on "bucket:" and the name, object metadata on "object:", bucket and key; any other operation fails and changes nothing |
| `Fsm.FSM.DoMetadataBatch` | pkg/raft/fsm.go:361-391 | the same for metadata commands, as sets without expiry and deletes on derived keys |
| `Fsm.FSM.Apply` | pkg/raft/fsm.go:68-101 | every payload, whichever of the four shapes it decodes to, acts as its flat list of commands; an undecodable one changes nothing |
| `Fsm.ShapesRecognized` | pkg/raft/fsm.go:68-101 | each of the four encodings is taken for what it is exactly if it is not empty: an empty batch, or metadata without operation or bucket, is taken for a single command |
| `Fsm.ShapesInOrder` | pkg/raft/fsm.go:68-101 | a payload that decodes to several shapes is taken for a metadata batch first and a metadata command second |
| `Fsm.FSM.Lookup` | pkg/raft/fsm.go:190-205 | the stored value of a key that is there and not past its expiry, none for any other |
| `Fsm.FSM.ReadAll` | pkg/raft/fsm.go:208-224 | in every map order, exactly the keys Get answers, with its answers |
| `Fsm.ExpiryInstant` | pkg/raft/fsm.go:190-205 | an entry is read up to and including the second it expires at and not after it |
| `Fsm.FSM.Snapshot` | pkg/raft/fsm.go:227-251 | an exact copy |
| `Fsm.FSM.Restore` | pkg/raft/fsm.go:254-290 | exactly the snapshot's entries that are not past their expiry replace the data, unchanged |
| `Fsm.FSM.CleanupExpired` | pkg/raft/fsm.go:418-437 | exactly the entries past their expiry go, the others are unchanged, and the count says how many went |
| `Fsm.MaintenanceUnobservable` | pkg/raft/fsm.go:145-290 | snapshot-and-restore and cleanup, interleaved anywhere in a run with expiry and a clock that never goes back, change no later Get or GetAll |
| `Fsm.SettledAnswers` | pkg/raft/fsm.go:145-205 | on a settled key, every timing of the log gives the answer of its last write |
| `Fsm.UnsettledReappears` | pkg/raft/fsm.go:145-178 | on any other key there is a time at which applying the log leaves a value where the last write says none |
| `Fsm.ReplicasAgreeIff` | pkg/raft/fsm.go:68-205 | replicas applying one log at different times agree on a key exactly if the key is settled in the log |
| `Fsm.NoExpirySettled` | pkg/raft/fsm.go:145-178 | every key of a log without expiry is settled |
| `Fsm.OverwrittenValueReturns` | pkg/raft/fsm.go:145-178 | a plain value overwritten by an expiring one comes back on a replica that applies both late |
| `Fsm.RunLogIsRun` | pkg/raft/fsm.go:68-142 | however commands are grouped into payloads, the log acts as its flat list |
| `Fsm.PayloadReplicasAgree` | pkg/raft/fsm.go:68-142 | replicas fed the same payloads at times of their own agree on every settled key, on its last write |
| `Fsm.RecoveryAgrees` | pkg/raft/fsm.go:227-290 | restoring an old snapshot and replaying the rest of the log later gives, on settled keys, the answers of a replica that never crashed |
| `Fsm.MetadataAgrees` | pkg/raft/fsm.go:342-415 | replicas agree on every log of metadata commands |
| `Fsm.BucketKeys` | pkg/raft/fsm.go:394-403 | buckets have different keys, and none is the key of an object |
| `Fsm.ObjectKeysIff` | pkg/raft/fsm.go:406-415 | two objects share a key exactly if they are the same or a colon in a name can be read as the separator |
| `Fsm.ObjectsCollide` | pkg/raft/fsm.go:406-415 | object "c" of bucket "a:b" and object "b:c" of bucket "a" share a key |
| `Hex.RoundTrip` | pkg/secrets/manager.go:138-141 | what is written with %x is read back by hex.DecodeString |
| `Envelopes.RoundTrip` | pkg/secrets/encryption.go:37-109 | encryption succeeds exactly for 1 byte to 1 MiB, and decryption gives the plaintext back |
| `Envelopes.ReEncryptPreserves` | pkg/secrets/encryption.go:199-223 | re-encryption puts the same plaintext under the new key, or fails exactly if it could not be read or encrypted |
| `Envelopes.OnlyKeysOpen` | pkg/secrets/encryption.go:37-109 | if a ciphertext opens under at most one key, only the master key reads the envelope and only the data key its value |
| `Envelopes.WrongKeyFails` | pkg/secrets/encryption.go:71-109 | under the same assumption, what one master key decrypts no other does |
| `Secrets.RotationReadsAlike` | pkg/secrets/manager.go:208-237 | whatever rotation can read, GetSecret reads the same way |
| `Secrets.SealValues` | pkg/secrets/manager.go:100-141 | encrypting a map succeeds exactly if every value can be encrypted, and the stored form reads back as the map |
| `Secrets.ReencryptSecret` | pkg/secrets/manager.go:532-622 | all values of a secret move to the new key with their plaintexts, exactly if rotation can read and encrypt them all |
| `Secrets.MovedReadsAlike` | pkg/secrets/manager.go:532-622 | a moved secret reads under the new key as it read under the old |
| `Secrets.InMemorySecretStore.List` | pkg/secrets/store.go:280-333 | every stored secret exactly once, in any order |
| `Secrets.InMemorySecretStore.Fetch` | pkg/secrets/store.go:256-277 | the secret under its namespace and name, none for an empty name |
| `Secrets.InMemorySecretStore.Save` | pkg/secrets/store.go:235-253 | stores a copy under namespace and name |
| `Secrets.StoreKeysIff` | pkg/secrets/store.go:235-264 | two secrets share a store key exactly if they are the same or a slash in a name can be read as the separator |
| `Secrets.ValidKeysDiffer` | pkg/secrets/store.go:235-264 | names without a slash, the only ones that can be created, keep their secrets apart |
| `Secrets.Manager.CreateSecret` | pkg/secrets/manager.go:82-164 | succeeds exactly for a valid name (at most 253 bytes) and data with no live secret there, and then stores the data at version one and touches no other key |
| `Secrets.Manager.UpdateSecret` | pkg/secrets/manager.go:325-398 | succeeds exactly for a live, mutable secret and encryptable values, and then replaces the plaintexts, raises the version in uint64 and touches no other key |
| `Secrets.Manager.DeleteSecret` | pkg/secrets/manager.go:401-440 | succeeds exactly if the secret is stored, and then marks it deleted |
| `Secrets.Manager.GetSecret` | pkg/secrets/manager.go:186-268 | returns plaintexts, version and expiry as last written, for exactly the live and unexpired secrets |
| `Secrets.Manager.RotateListed` | pkg/secrets/manager.go:511-652 | the loop moves every live secret it can read and leaves the others alone; it reports a failure exactly if one was left |
| `Secrets.Manager.RotateStore` | pkg/secrets/manager.go:479-708 | on any store, the new key, made of the given random bytes, is adopted exactly if no live secret was left behind |
| `Secrets.Manager.RotateMasterKey` | pkg/secrets/manager.go:479-708 | on a store filled by the manager rotation succeeds, adopts the new key and changes no plaintext; if a ciphertext opens under at most one key, the old key no longer reads any live non-empty secret |
| `Secrets.Manager.Execute` | pkg/secrets/manager.go:82-708 | every run of creates, updates, deletes and rotations keeps all live secrets readable under the current key as the plain map says, that map is the one of the run without its rotations, and each result is whether the operation was possible when it came |
| `Secrets.RunThenRead` | pkg/secrets/manager.go:82-708 | on a new manager, over every run: an operation succeeds exactly if the operations and results before it permit it, and a read returns the data, version and expiry of the last successful writes under that name, none after a delete or past the expiry |
| `Secrets.RunStands` | pkg/secrets/manager.go:82-440 | after every run, what is live under a key is what its operations and results last wrote there |
| `Secrets.RunCreates` | pkg/secrets/manager.go:82-440 | a key is stored exactly if some create of it succeeded |
| `Secrets.RunPermits` | pkg/secrets/manager.go:82-440 | whether the next operation succeeds is decided by the operations and results before it |
| `Secrets.AllPermitted` | pkg/secrets/manager.go:82-440 | so it is for every operation of a run |
| `Secrets.OthersUntouched` | pkg/secrets/manager.go:82-440 | operations on other keys, and rotations, leave what was written under a key |
| `Secrets.OtherKeyReadsNothing` | pkg/secrets/manager.go:532-622 | if a ciphertext opens under at most one key, a live non-empty secret is read under its own key only |
| `Secrets.NoneReadByOld` | pkg/secrets/manager.go:479-708 | so an old key reads no live non-empty secret of a store under a new one |
| `Secrets.RotateOrNot` | pkg/secrets/manager.go:479-708 | two managers that start alike, one running with key rotations and one without them, answer every GetSecret alike at every time |
| `IPPools.AddressRoundTrip` | pkg/overlay/registry.go:498-506 | number to address and back is the identity |
| `IPPools.NumberRoundTrip` | pkg/overlay/registry.go:498-506 | address to number and back is the identity |
| `IPPools.AddressOrder` | pkg/overlay/registry.go:498-506 | numbers are ordered as the four bytes are, the first byte counting most |
| `IPPools.Network.UsableIff` | pkg/overlay/registry.go:425-434 | usable are exactly the addresses strictly inside the network, or both of a /31 (section 2.1 of RFC 3021) |
| `IPPools.Network.UsableCount` | pkg/overlay/registry.go:421-436 | there are 2^n - 2 of them, or 2 |
| `IPPools.MaskArithmetic` | pkg/overlay/registry.go:421-436 | the sizes computed from the mask do not wrap for /1 to /31 |
| `IPPools.StepOffset` | pkg/overlay/registry.go:439-441 | the uint32 expression of the scan does not overflow and is the circular position |
| `IPPools.AfterOffset` | pkg/overlay/registry.go:448-449 | the next offset stays in range |
| `IPPools.ScanCovers` | pkg/overlay/registry.go:438-458 | a scan that meets only taken addresses has seen every host |
| `IPPools.LastInScan` | pkg/overlay/registry.go:438-458 | from the offset after an address, that address is the last one looked at |
| `IPPools.OnlyOneFree` | pkg/overlay/registry.go:438-458 | it is the first free one from there exactly if every other host is taken |
| `IPPools.IPPool.constructor` | pkg/overlay/registry.go:384-408 | a new pool is empty and starts at the first usable offset |
| `IPPools.IPPool.FindFree` | pkg/overlay/registry.go:438-458 | the first free address in cyclic order and the offset after it, or none if all hosts are taken |
| `IPPools.IPPool.Allocate` | pkg/overlay/registry.go:411-459 | a usable address that was free, the first one in cyclic order; fails exactly if all hosts are taken and then changes nothing |
| `IPPools.IPPool.Release` | pkg/overlay/registry.go:462-481 | exactly that address becomes free |
| `IPPools.IPPool.Reissue` | pkg/overlay/registry.go:411-481 | an address allocated and given back is handed out next exactly if no other host is free |
| `Registry.FullNamesIff` | pkg/overlay/registry.go:367-372 | two services share a full name exactly if name and namespace (default if empty) are the same or a dot in a name can be read as the separator |
| `Registry.PlainNamesDiffer` | pkg/overlay/registry.go:367-372 | names without a dot are kept apart by name and namespace |
| `Registry.AssignIff` | pkg/overlay/registry.go:60-75 | giving a name an address keeps the registry consistent exactly if the pool holds the address and no other name uses it |
| `Registry.FreshStrands` | pkg/overlay/registry.go:60-75 | a fresh address strands exactly the one the name had before |
| `Registry.ServiceRegistry.RegisterService` | pkg/overlay/registry.go:41-82 | fails exactly if the pool is exhausted; with a pool address the invariant holds, also for a name registered before; with a caller's address exactly when `AssignIff` says |
| `Registry.ServiceRegistry.DeregisterService` | pkg/overlay/registry.go:85-119 | removes the name, frees its address and strands nothing |
| `Registry.ServiceRegistry.ResolveService` | pkg/overlay/registry.go:333-341 | the address of the name, none if unregistered |
| `Registry.ServiceRegistry.ReverseLookup` | pkg/overlay/registry.go:344-364 | the service that resolves to the address, in every map order; none exactly if no name does |
| `Registry.ServiceRegistry.RegisterAndLookUp` | pkg/overlay/registry.go:333-364 | registering, resolving and looking up gives the service back |
| `Registry.ServiceRegistry.AddressesAddUp` | pkg/overlay/registry.go:41-119 | addresses taken are names plus stranded addresses, and never more than the network has hosts |
| `LoadBalancer.L4LoadBalancer.SelectRoundRobin` | pkg/overlay/loadbalancer.go:95-113 | the endpoint at the counter's residue, and the counter moves on by one in uint64 |
| `LoadBalancer.RoundFair` | pkg/overlay/loadbalancer.go:95-113 | a tally of as many turns as endpoints counts each once |
| `LoadBalancer.L4LoadBalancer.SelectRound` | pkg/overlay/loadbalancer.go:95-113 | as many calls in a row as there are endpoints, without uint64 wrap, return each endpoint exactly once |
| `LoadBalancer.L4LoadBalancer.NormalizeWeights` | pkg/overlay/loadbalancer.go:121-128 | weights below one become one in place and all other endpoints stay as they were; the total is their sum |
| `LoadBalancer.L4LoadBalancer.FindOwner` | pkg/overlay/loadbalancer.go:147-155 | the running sum always finds the owner of the target, so the fallback is never reached |
| `LoadBalancer.OwnsByShare` | pkg/overlay/loadbalancer.go:147-155 | owning a target means that the weights before the endpoint are at most the target and those up to it exceed it |
| `LoadBalancer.ShareIsSum` | pkg/overlay/loadbalancer.go:121-155 | the running sum at an endpoint is the sum of the weights before it, one for weights below one |
| `LoadBalancer.L4LoadBalancer.SelectWeightedRoundRobin` | pkg/overlay/loadbalancer.go:116-156 | the chosen endpoint is the one whose share of the total weight, counted in endpoint order with one for weights below one, holds the counter's residue |
| `LoadBalancer.WeightedFair` | pkg/overlay/loadbalancer.go:116-156 | any total-weight consecutive counter values choose endpoint i exactly weight times |
| `LoadBalancer.TurnsFair` | pkg/overlay/loadbalancer.go:116-156 | a tally of total-weight turns counts endpoint i exactly weight times |
| `LoadBalancer.L4LoadBalancer.SelectTurns` | pkg/overlay/loadbalancer.go:116-156 | total-weight calls in a row without uint64 wrap return each endpoint as often as its weight in effect |
| `LoadBalancer.L4LoadBalancer.SelectCycle` | pkg/overlay/loadbalancer.go:116-156 | as many calls in a row as the weights add up to, without uint64 wrap, return each endpoint exactly its weight times, or once if the weight is below one |
| `LoadBalancer.L4LoadBalancer.SelectLeastConnections` | pkg/overlay/loadbalancer.go:159-177 | the first endpoint with fewest connections, none recorded counting as zero; none exactly if all are at the int32 maximum |
| `Connections.Conserved` | pkg/overlay/loadbalancer.go:331-366 | in every interleaving without overflow, lookups and creations of the stats object included, no object counts below zero and all objects together count increments minus successful decrements |
| `Connections.NonNegativeIff` | pkg/overlay/loadbalancer.go:331-366 | the counts stay non-negative exactly if no increment overflows |
| `Connections.LostIncrement` | pkg/overlay/loadbalancer.go:356-366 | from every run that has not created the object, two first increments can create two, leaving 1 registered after 2 |
| `Connections.AlwaysCarriedIff` | pkg/overlay/loadbalancer.go:290-366 | the registered object carries the whole count in every continuation exactly if one is registered, no other counts anything and no thread is about to count on or register another |
| `Connections.QuietStart` | pkg/overlay/loadbalancer.go:356-366 | a first call that stores the object before any other looks it up makes that so for good |
| `CompareAndSwap.TraceOf` | pkg/overlay/loadbalancer.go:331-366 | every interleaving has a trace of states, and it ends in the state after the run |
| `CompareAndSwap.LoadedRemembers` | pkg/overlay/loadbalancer.go:338-353 | along every trace, a loaded value is the count at the thread's own load, and the thread has done nothing since |
| `CompareAndSwap.CasFailsOnlyByInterference` | pkg/overlay/loadbalancer.go:338-353 | along every trace, a compare-and-swap fails only if another thread changed the count of that object since the load |
| `Probes.NeverBothPositive` | pkg/runtime/health.go:161-231 | successes and failures are never both positive |
| `Probes.ProbeKeysIff` | pkg/runtime/health.go:164-167 | probes of one container share a key exactly if they are of one kind; those of two containers only if a colon in an ID can be read as the separator, and never for kinds without one |
| `Probes.LivenessIsNotReadiness` | pkg/runtime/health.go:164-167 | the liveness and readiness results of a container have different keys |
| `Probes.ClearsIff` | pkg/runtime/health.go:378-390 | clearing a container clears exactly the containers whose IDs extend its ID |
| `Probes.ProbeExecutor.BeginProbe` | pkg/runtime/health.go:164-175 | a probe starts from the stored result, which it keeps while the lock is released |
| `Probes.ProbeExecutor.FinishProbe` | pkg/runtime/health.go:201-219 | what is stored counts the probes since the last clear, after those a probe in flight during that clear had read before it |
| `Probes.ProbeExecutor.ExecuteProbe` | pkg/runtime/health.go:161-231 | a probe that no clear overlaps adds its outcome to the probes since the last clear and carries nothing over |
| `Probes.ProbeExecutor.SinceClearIff` | pkg/runtime/health.go:161-231 | the stored counters are the trailing runs since the last clear exactly unless a run was carried over it and only that outcome has been seen since |
| `Probes.ClearedInFlight` | pkg/runtime/health.go:161-231 | two failures, a clear during the third failing probe: three failures are stored, one probe has failed since the clear |
| `Probes.ProbeExecutor.GetProbeResult` | pkg/runtime/health.go:334-341 | the tally of the probes the key counts, none if there are none |
| `Probes.ProbeExecutor.ClearProbeResults` | pkg/runtime/health.go:378-390 | drops the results whose key extends the container ID and no others; a probe in flight on such a key is one that a clear overlaps |
| `HealthMonitors.SpacedBoundsIntervals` | pkg/agent/health_monitor.go:268-306 | if no limit-plus-one consecutive restarts lie within the window, no closed interval of that length holds more than the limit |
| `HealthMonitors.SpacingKept` | pkg/agent/health_monitor.go:268-306 | a restart allowed by the check keeps that spacing, although check and record read the clock at different moments |
| `HealthMonitors.RestartLimiter.RateLimited` | pkg/agent/health_monitor.go:155-306 | in every reachable state any closed interval of the window's length holds at most max(1, maxRestarts) recorded restarts of a container |
| `HealthMonitors.RestartLimiter.RecordRestart` | pkg/agent/health_monitor.go:292-306 | adds the restart to the container's history, restarts or raises its counter, and keeps the invariant |
| `HealthMonitors.RestartLimiter.HandleLivenessResult` | pkg/agent/health_monitor.go:155-218 | attempts a restart exactly if the probe failed, failures reached the threshold (3 if unset) and the limiter allows it; records it exactly if it works |
| `HealthMonitors.RestartLimiter.CheckLiveness` | pkg/agent/health_monitor.go:117-143 | restarts exactly on such a stored result; every restart is preceded by at least the threshold of consecutive failed probes, ignoring clears that fall inside a probe |
| `HealthMonitors.RestartLimiter.TakeTurn` | pkg/agent/health_monitor.go:155-218 | a turn restarts exactly if the probe failed often enough, the limiter allows it and the restart works; the limiter's record is then that of the run with this turn |
| `HealthMonitors.RestartLimiter.TimesLimited` | pkg/agent/health_monitor.go:268-306 | of a run the limiter has followed, any closed interval of the window's length holds at most max(1, maxRestarts) restarts of a container |
| `HealthMonitors.RestartLimiter.DueIsAllowed` | pkg/agent/health_monitor.go:268-287 | the limiter allows a first restart, one after a whole window, and one of the first maxRestarts |
| `HealthMonitors.Monitor` | pkg/agent/health_monitor.go:117-306 | every run over any containers, told by its turns and their outcomes: no closed interval of the window's length holds more than max(1, maxRestarts) restarts of a container, and every restart that is due is made |
| `HealthMonitors.RestartAfterClear` | pkg/agent/health_monitor.go:117-143 | a container cleared during a probe is restarted at the default threshold of three after one failed probe |
| `HealthMonitors.RestartLimiter.RetryFailing` | pkg/agent/health_monitor.go:178-191 | restarts that fail are not limited: at one moment n turns attempt n of them exactly if one turn attempts one |
| `HealthMonitors.RestartLimiter.RestartAgain` | pkg/agent/health_monitor.go:178-191 | after a restart the next turn restarts again without a new probe exactly if the window has passed or the counter is below the limit |
| `HealthMonitors.OneRunTwoRestarts` | pkg/agent/health_monitor.go:178-191 | with a limit of two, one failing probe restarts the container twice |
| `HealthMonitors.ChangesAlternate` | pkg/agent/health_monitor.go:227-258 | consecutive readiness reports always differ |
| `HealthMonitors.ReadinessReporter.HandleReadinessResult` | pkg/agent/health_monitor.go:227-258 | what was reported is always the first reading since registration and every change since |
| `HealthMonitors.ReadinessReporter.UnregisterContainer` | pkg/agent/health_monitor.go:463-473 | forgets the readings of the container, so that the next one is reported |
| `Policies.ExistsIff` | pkg/policy/engine.go:309-373 | Exists holds exactly for the five named fields and every text that extends "labels.", whatever the workload; DoesNotExist for all others |
| `Policies.MissingLabelExists` | pkg/policy/engine.go:309-373 | a label exists on every workload that lacks it |
| `Policies.EqualReads` | pkg/policy/engine.go:309-373 | what Equal compares for each field; a missing label reads as the empty text |
| `Policies.OperatorsByEqual` | pkg/policy/engine.go:309-350 | In holds exactly if some listed value is equal; NotEqual and NotIn are the negations, so NotIn holds of a value that is no list; an unknown operator never holds |
| `Policies.AppliesIff` | pkg/policy/engine.go:243-257 | a policy of a named namespace is for that namespace only, one without or with "*" for all, and every label of it must be met |
| `Policies.DeniesIff` | pkg/policy/engine.go:260-296 | a policy denies exactly if it matches with action Deny and its accumulated violations are not empty |
| `Policies.EvaluatePolicy` | pkg/policy/engine.go:260-296 | matched exactly if some rule is triggered, or an Allow policy has no rules; violations are those of the triggered rules in order |
| `Policies.ViolationsOf` | pkg/policy/engine.go:260-296 | a policy's violations are those the checks of its triggered rules find |
| `Policies.EvaluateInOrder` | pkg/policy/engine.go:61-138 | the loop's decision is the order-free one; reason, matched names, violations and audit entries are those of the order |
| `Policies.OrderIndependent` | pkg/policy/engine.go:61-138 | in any two orders the decision is the same, and so are matched names, violations and audits up to order |
| `Policies.AllowedIff` | pkg/policy/engine.go:43-160 | allowed exactly if no live enabled applicable Deny policy has a violation and some live one matched or the default is not Deny |
| `Policies.AllowedByFields` | pkg/policy/engine.go:43-160 | the same told by the fields of the stored policies, their rules and conditions |
| `Policies.ResultLists` | pkg/policy/engine.go:61-138 | a result names exactly the matching policies, the violations of the denying ones and one audit entry for each auditing one |
| `Policies.AcquittingIff` | pkg/policy/engine.go:104-109 | the reason names an Allow policy exactly if one matched before any policy denied |
| `Policies.MisleadingReasonIff` | pkg/policy/engine.go:104-138 | a denial names an Allow policy as its reason exactly if one matched before the first denying policy |
| `Policies.AllowRankedAbove` | pkg/policy/engine.go:376-393 | that happens in every order if a matching Allow policy outranks all denying ones |
| `Policies.DenierRankedAbove` | pkg/policy/engine.go:376-393 | and in none if a denying policy outranks all matching Allow policies |
| `Policies.DeniedAsAllowed` | pkg/policy/engine.go:104-138 | for every workload there are policies under which it is denied with that reason |
| `Policies.Engine.AddPolicy` | pkg/policy/engine.go:163-193 | refuses an empty name; otherwise stores the policy and empties the cache, which is then current |
| `Policies.Engine.RemovePolicy` | pkg/policy/engine.go:196-212 | fails exactly for an unknown name; otherwise removes the policy and empties the cache, which is then current |
| `Policies.Engine.SortedPolicies` | pkg/policy/engine.go:376-393 | exactly the policies not deleted, each once, by descending priority |
| `Policies.Engine.CachedResult` | pkg/policy/engine.go:396-409 | a hit exactly for a stored unexpired key; in a current cache it is a current answer if the key determines the submitted workloads |
| `Policies.Engine.Judge` | pkg/policy/engine.go:57-140 | an answer that evaluating the workload over the stored policies can give |
| `Policies.Engine.CacheResult` | pkg/policy/engine.go:412-421 | storing an answer keeps the cache current exactly if the policies it was evaluated for are still stored |
| `Policies.Engine.Evaluate` | pkg/policy/engine.go:43-160 | a hit returns what was stored, anything else is evaluated and stored; run without interruption it keeps the cache current, and then every answer is current if no two workloads submitted since the last policy change share a key |
| `Policies.ToldApart` | pkg/policy/engine.go:243-373 | any two different workloads are treated differently by one Deny policy, through its label selector, its conditions or a check of the settings |
| `Policies.HitsCurrentIff` | pkg/policy/engine.go:396-426 | under all policies, checks and default actions, a result evaluated for one of a set of workloads is current for every other with its key exactly if the key determines the workload |
| `Policies.WrongHit` | pkg/policy/engine.go:43-55 | any two different workloads with one key: evaluated in turn under such a policy, the second is a hit in a current cache with a result that evaluating it cannot give |
| `Policies.StaleHit` | pkg/policy/engine.go:68-145 | a policy added between the reading of the policies and the storing of the result leaves an entry that answers against it |
| `Policies.KeyCollidesIff` | pkg/policy/engine.go:424-426 | a key also belongs to another namespace, name and image exactly if one of the three contains a slash |
| `Mesh.ExchangeSort` | pkg/overlay/mesh.go:170-177 | the in-place exchange sort gives a sorted permutation |
| `Mesh.SwapProgress` | pkg/overlay/mesh.go:171-177 | one exchange keeps the settled part and extends the lead of the current entry |
| `Mesh.FrontSelects` | pkg/overlay/mesh.go:179-185 | the first entries after sorting are a best selection of the eligible peers |
| `Mesh.Select` | pkg/overlay/mesh.go:153-186 | min(count, eligible) distinct eligible peers, in order, none ranked below one left out |
| `Mesh.SelectsIdle` | pkg/overlay/mesh.go:153-186 | the peers chosen for dialing are idle and score at least as high as every idle peer left out |
| `Mesh.SelectsConnected` | pkg/overlay/mesh.go:220-258 | the peers chosen for removal are connected and score at most as high as every connected peer that stays |
| `Mesh.RoundByScore` | pkg/overlay/mesh.go:128-150 | a round told by statuses and scores alone |
| `Mesh.MeshManager.ListPeers` | pkg/overlay/peer.go:143-151 | every peer exactly once, in any order |
| `Mesh.MeshManager.ConnectedCount` | pkg/overlay/peer.go:460-470 | the number of connected peers |
| `Mesh.MeshManager.PruneExcessPeers` | pkg/overlay/mesh.go:220-258 | removes min(count, connected) peers, all connected, none scoring above a connected peer that stays, and no other peer |
| `Mesh.MeshManager.Grow` | pkg/overlay/mesh.go:131-144 | dials min(room, idle) peers, all idle, none scoring below an idle peer left out, and otherwise changes nothing |
| `Mesh.MeshManager.GrowOrPrune` | pkg/overlay/mesh.go:128-150 | the two halves over one listing make a round |
| `Mesh.MeshManager.MaintainPartialMesh` | pkg/overlay/mesh.go:128-150 | a round dials the best-scored idle peers up to the limit or drops the worst-scored connected peers down to it, never both, told by raw statuses and scores |
| `Mesh.RoundKeepsLimit` | pkg/overlay/mesh.go:128-150 | after a round min(connected, limit) peers are connected, and at most the limit if all its dials succeed |
| `Mesh.OverstepsIff` | pkg/overlay/mesh.go:128-150 | counting dials in progress, the limit is overstepped exactly if there were any and the room was too small for them and the idle peers |
| `Mesh.MeshManager.UpdateStatus` | pkg/overlay/peer.go:435-447 | the status and time of the given peers change and nothing else |
| `Mesh.MeshManager.TwoRounds` | pkg/overlay/mesh.go:128-150 | from a table with no dial in progress, two rounds whose dials have begun and not completed overstep the limit exactly if there was some room and more idle peers than room |
| `Mesh.DialsBoth` | pkg/overlay/mesh.go:128-150 | with a limit of one and two idle peers, two rounds have more than one peer in use |

## Left out

- Agent and coordinator wiring, gRPC handlers, the CLI and the main programs: configuration around libraries.
- Raft consensus, log storage and transport: only the state machine's own logic is modelled, and a log is a sequence of payloads.
- QUIC transport, STUN, TURN and NAT classification: sockets and finite tables.
- containerd, seccomp, AppArmor and SELinux code, statistics and logs: operating-system calls.
- Certificates, JWT and SPIFFE code: cryptographic and URL libraries.
- The rule checks of pkg/policy/evaluator.go: an arbitrary function from rule and workload to violations.
- The node scorer, `scorePeer` and the latency average: floating-point heuristics; scores are arbitrary reals.
- The evaluation timeout of the policy engine, and policies changed through a pointer after AddPolicy: the model changes policies only through AddPolicy and RemovePolicy.
- Time stamps and message texts of policies, audit entries, scheduling decisions, secrets and plans.
- IP networks /0 and /32, and IPv6: the pool's arithmetic is not meant for them.
- Services mutated through a shared pointer, endpoints, health of endpoints and the persistent registry.
- Session affinity and locality-aware selection, request and failure statistics.
- Two goroutines selecting by round robin at once: the counter's load and store are modelled as one step, so the fairness results are for calls in a row.
- Sums of int64 resources and of int weights beyond 64 bits, except the waste sum: they are unbounded here.
- Access tokens, audiences, list filters and the audit log of the secrets manager; failures of the store or of the random source; secrets whose options set their own annotations.
- RaftSecretStore: its List sees only its cache, so the store here is the in-memory one, whose List is complete.
- Legacy secrets with one data key: they can be read, but rotation refuses them, as `Secrets.Manager.RotateStore` says.
- What a failed rotation leaves readable: secrets already moved are under a key that was not adopted, and nothing is promised about opening them with another key.
- PreemptWorkloads, OptimizePacking, EstimateFragmentation and ValidateRollout: sums and single comparisons.
- Errors of ListNodes, fragment identifiers, nil arguments and JSON decoding: a payload is given as what each shape decodes to.
- Restart history clearing and changes of the limit or window during a run: the limiter's constants are fixed.
- Full mesh maintenance, healing, route discovery and the asynchronous dial itself: the status of a dialed peer changes outside a round.
- `HealthMonitor` is split into `RestartLimiter` and `ReadinessReporter`: the two use different fields of it and never each other's.
