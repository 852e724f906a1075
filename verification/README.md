# A verified model of the multi-cluster faas-netes controller

Every cluster runs one controller. A controller keeps a catalog of all clusters, tells the others what it runs,
scales a function over the clusters nearest first, picks a cluster for each invocation from measured times,
and copies a function to another cluster by turning its status back into a deployment. The model covers these
five parts and proves what they keep over whole runs.

| file | part |
|---|---|
| `CatalogState.dfy`, `Catalog.dfy` | one peer's catalog: its state and steps as values, and the class whose methods carry them out |
| `Gossip.dfy` | N peers exchanging packed records over FIFO channels |
| `Ranking.dfy` | ordering the clusters by round-trip time |
| `Scaler.dfy`, `ScaleRuns.dfy`, `Fleets.dfy` | the scale handler, `scaleUp`, `scaleDown`, runs of requests, requests at the same time, and the class that carries them out |
| `Scheduler.dfy`, `Dispatch.dfy`, `Trigger.dfy` | weights, the scheduler and its fallbacks, exploration, the time filter, and an invocation from end to end |
| `Volumes.dfy`, `Deployments.dfy`, `Builders.dfy`, `Updates.dfy`, `Redeploy.dfy` | the deployment object: volumes, secrets, environment, updates, and the copy of a function |
| `FaasTypes.dfy`, `MapSums.dfy`, `Runs.dfy`, `Sorting.dfy` | shared values, order-independent sums, runs of a step relation, and what the sort library promises |

Main results:

- **Gossip.** In every state of every run, what a peer holds about another is the last message it unpacked, and what
  is in the channel ends at the sender's present record (`Gossip.RunInv`). So a peer that has unpacked everything knows
  the true counts and overload flags, and its cached totals are the true network totals (`Gossip.Convergence`). From
  any such state finitely many deliveries alone get there (`Gossip.DeliveriesCatchUp`).
- **Missing entries.** Over all runs the catalog's own operations find every map entry they read without a check, with
  one exception: deleting a function that is not catalogued (`Gossip.RunsMeetNoMissingEntry`). A recorded time is never
  dropped and is filed exactly by events that say the function runs (`Gossip.RunTimes`). An invocation that chooses in
  one state of a run and loads in a later one can still load a time that is not there; the catalog at the choice, the
  times filed in between and what the cluster answers decide exactly when (`Trigger.RunsMissEntryIff`).
- **Scaling.** The greedy loop has a closed form (`Scaler.ScaleUpClosedForm`) and conserves replicas deployed plus
  replicas wanted (`Scaler.FillConserves`); the exact total and nearest-first filling follow. No run of requests for 1 to
  2^31 - 1 replicas, handled by any peers in any order, loses the last replica (`ScaleRuns.RunsKeepLastReplica`).
- **Weights.** Faster means heavier among nodes alike in overload, the fastest node weighs most, and the overload
  penalty squares the own weighted time, which works only through the other nodes' weights (`Scheduler.OverloadShiftsWeight`). With positive times the random
  choice fails exactly when the weights add up to 2^63 - 1 or more (`Dispatch.Choose`).
- **Deployments.** From creation through any updates, successful or not, the volumes and mounts are exactly those the
  last request in effect asks for, and every mount resolves (`Redeploy.CreatedLifeArranged`,
  `Redeploy.CreatedLifeResolves`). A copied function has the status it was copied from (`Redeploy.RedeployRoundTrip`).

What the code does not do, with the exact condition:

- A ranking lists every node once if and only if no two round-trip times are equal. The local node is sure to come first
  if and only if every other time is positive (`Ranking.RankingIsPermutation`, `Ranking.SelfRanksFirstIff`).
- A replica count is converted to 32 bits after the check for zero. If its low 32 bits are not from 1 to 2^31 - 1 it is
  taken as zero or less: a local request deletes the local deployment, an offloaded one writes that count
  (`ScaleRuns.WrappedRequestRemovesLast`). The minimum-replica label is converted the same way.
  The deploy and update handlers refuse a label above the licensed count, so there the conversion changes nothing
  (`Builders.AllowedMinimum`, `Redeploy.DeployedLifeReplicas`); a copy skips that check, and a label of 2^32 makes a copy
  with no replica (`Redeploy.CopyCanHaveNoReplica`).
- `scaleDown` carries the question whether simultaneous requests delete by mistake. They lose everything if and only if no
  cluster has more replicas than the network is to give up (`ScaleRuns.SimultaneousScaleDown`), and end below the wanted
  total if and only if the function runs in two clusters or more (`ScaleRuns.SimultaneousTotal`).
- A cluster shrinks during `scaleUp` if and only if it is not overloaded, has fewer nodes than replicas, and is reached
  before enough replicas are placed (`Scaler.ScaleUpShrinksIff`).
- An invocation loads a time that is not there if and only if, with nothing filed meanwhile, one of these holds. It stays
  here, its request is sent, and the function has no time here. The random choice fails and it has none here, since the
  fallback picks this cluster whether it runs the function or not. Nobody runs the function, the first idle node was
  never measured, and the deployment there comes up in time; or no node is idle. See `Trigger.MissingEntryIff`, with a
  call for each of the first two (`Trigger.EndpointBeforeTimeMisses`, `Trigger.FallbackCanMiss`).
- Copying a function writes to a nil map if and only if the copied deployment's template has no annotation map, the
  copying peer runs it in its own cluster, and nothing was refused before (`Redeploy.CopyCrashesIff`). A status received
  from another peer has a nil pointer instead, and deployments made here always have a map (`Redeploy.CreatedLifeCopies`).
  The write panics; in the goroutine that deploys after exploring this ends the process, in the scale handler the server
  recovers it.
- With nothing to schedule and every ranked node overloaded, `findSuitableNode` returns an empty identifier and no
  error (`Dispatch.FindSuitableNode`).
- `ReadFunctionSecretsSpec` is documented as the inverse of `ConfigureSecrets`. It is one if and only if the deployment
  had no pull secret before; updates only ever add them (`Deployments.ReadsRequestIff`, `Updates.LifeAccumulatesPulls`).
- A copied function keeps its namespace if and only if the copying peer works in it, its labels if and only if they
  contained `faas_function`, and its annotations if and only if they contained the scrape annotation. The missing one is
  added to the catalog's own entry, so a second copy keeps them (`Redeploy.SecondCopyIsIdentity`). It never keeps a
  read-only root file system, and its replica count is the labels' minimum or one, whatever the original had
  (`Redeploy.RedeployRoundTrip`).

Each handler, event and delivery is one atomic step, except that an invocation is two, the choice and the loads. API answers, round-trip times, the clock, the pressure reading
and the random choice are parameters. Go's `uint64` counts are `nat`; the conversions to `int32` are written out.
Weights are over `real`. Map iteration is in an arbitrary order throughout. Channels are reliable and in order, and the
first message on a channel is the record streamed at connection, whose handler files the sender if it is unknown.

## Model

| member | source | states |
|---|---|---|
| `FaasTypes.ToInt32` | pkg/handlers/replica_updater.go:87-88 | the 32-bit conversion: congruent modulo 2^32, in range, the identity below 2^31 |
| `CatalogState.AddEffect` | pkg/catalog/catalog_cluster_level.go:52-66 | adding sets only the own count and restarts only its time; a known entry keeps everything but its total, a new one is the reported summary; the total moves by exactly the own change |
| `CatalogState.UpdateEffect` | pkg/catalog/catalog_cluster_level.go:68-77 | updating sets only the own count; the entry keeps everything but its total, which moves by exactly that change; no other entry or time changes |
| `CatalogState.DeleteEffect` | pkg/catalog/catalog_cluster_level.go:79-93 | deleting removes the own count and nothing else; the function leaves the catalog if and only if no other node runs it, and otherwise keeps everything but its total |
| `CatalogState.AddKeeps` | pkg/catalog/catalog_cluster_level.go:52-66 | adding keeps the key inclusion and the agreement of all cached totals with the sums |
| `CatalogState.UpdateKeeps` | pkg/catalog/catalog_cluster_level.go:68-77 | updating keeps the agreement of totals, and the key inclusion if and only if a positive count is for a function that has an execution time here |
| `CatalogState.DeleteKeeps` | pkg/catalog/catalog_cluster_level.go:79-93 | deleting keeps both |
| `CatalogState.DeletedHasNoCount` | pkg/catalog/catalog_cluster_level.go:86-89 | a function only leaves the catalog when every node's count of it is zero |
| `CatalogState.JoinKeeps` | pkg/catalog/catalog.go:88-94 | filing a peer keeps both |
| `CatalogState.PressureEffect` | pkg/catalog/catalog_local_level.go:64-69 | the own flag becomes the new reading and nothing else changes |
| `CatalogState.PressureKeeps` | pkg/catalog/catalog_local_level.go:64-69 | a change of the overload flag keeps both |
| `CatalogState.StoreTimeKeeps` | pkg/handlers/trigger.go:279-288 | storing an execution time keeps both |
| `CatalogState.ReportedIsSafe` | pkg/catalog/informers.go:48-63 | what the informer reports is always for a catalogued function that has an execution time |
| `CatalogState.ReportedEffect` | pkg/catalog/informers.go:48-65 | from the own count before: nothing changes if there is none; it moves to zero if the status falls to zero, else to the replica count of the specification if that differs |
| `CatalogState.Announced` | pkg/catalog/info_room.go:130-148 | the count map of a message has exactly the names in the message as keys |
| `CatalogState.AnnouncedComesFrom` | pkg/catalog/info_room.go:148 | each count is that of the last entry with the name |
| `CatalogState.ReadFunctions` | pkg/catalog/info_room.go:143-146 | unpacking adds exactly the unknown functions, under their own names, and leaves known entries alone |
| `CatalogState.ReadTimesAt` | pkg/catalog/info_room.go:131-141 | for any message, a time becomes 1 if some entry restarts it and otherwise keeps its value |
| `CatalogState.PackAnnouncesCounts` | pkg/catalog/info_room.go:111-123 | a packed message, in any order, announces exactly the sender's count map |
| `CatalogState.PackUnpackRoundTrip` | pkg/catalog/info_room.go:111-156 | the receiver's record of the sender becomes the sender's counts and flag, no other node changes, exactly the grown or newly positive functions restart at 1, and a function new to the receiver has the sender's entry, its total apart |
| `CatalogState.UnpackEffect` | pkg/catalog/info_room.go:124-156 | for any message: only the sender's record changes, to the last counts; known functions keep everything but their total, new ones are the first entry with the name; every total is the sum |
| `CatalogState.UnpackEstablishes` | pkg/catalog/info_room.go:124-156 | any message keeps the key inclusion and establishes every total, whatever it was before |
| `CatalogState.TotalAfterNode` | pkg/catalog/catalog_cluster_level.go:108-119 | replacing one node's record moves each total by that node's change alone |
| `Catalog.Catalog.CountReplicas` | pkg/catalog/catalog_cluster_level.go:110-117 | the running sum over nodes in any order is the order-independent total |
| `Catalog.Catalog.UpdatetReplicasWithFunctionName` | pkg/catalog/catalog_cluster_level.go:108-119 | stores the sum as one function's total; that entry's other fields and all other entries stay |
| `Catalog.Catalog.UpdatetReplicas` | pkg/catalog/catalog_cluster_level.go:95-106 | stores the sum as every function's total; every entry's other fields stay |
| `Catalog.Catalog.PackNodeInfoMsg` | pkg/catalog/info_room.go:111-123 | one entry per own function, each the catalogued status with the local count, names distinct |
| `Catalog.Catalog.PublishInfo` | pkg/catalog/catalog_local_level.go:95-98 | appends one message, a packing of the present own record |
| `Catalog.Catalog.AddAvailableFunctions` | pkg/catalog/catalog_cluster_level.go:52-66 | carries out the add step, keeps the invariant, publishes once |
| `Catalog.Catalog.UpdateAvailableFunctions` | pkg/catalog/catalog_cluster_level.go:68-77 | carries out the update step, publishes once, and keeps the invariant if and only if a positive count is for a function that has an execution time here |
| `Catalog.Catalog.DeleteAvailableFunctions` | pkg/catalog/catalog_cluster_level.go:79-93 | carries out the delete step, keeps the invariant, publishes once |
| `Catalog.Catalog.OnDeploymentUpdate` | pkg/catalog/informers.go:38-66 | with no own count nothing happens; a status that falls to zero moves it to zero, a differing specification to that count; exactly these publish, and everything else stays |
| `Catalog.Catalog.UpdatePressure` | pkg/catalog/catalog_local_level.go:29-70 | stores the overload flag and publishes exactly when it flips |
| `Catalog.Catalog.NewNodeCatalogEntry` | pkg/catalog/catalog.go:88-94 | files an unknown peer with an empty record and ranks all nodes; a known peer changes nothing |
| `Catalog.Catalog.UnpackNodeInfoMsg` | pkg/catalog/info_room.go:124-156 | the sender's record is replaced; known functions keep everything but their total, new ones are the message's entries; totals are the sums; the invariant is kept and the entry it resets is always there |
| `Gossip.StartUpKeys` | main.go:198-204 | the start-up state has the key inclusion |
| `Gossip.StartUpCounts` | main.go:198-204 | at start-up the own counts are the listed available replicas, and exactly those functions are filed and timed |
| `Gossip.StartUpFiles` | main.go:198-204 | each function is filed with the last entry of its name and the sentinel time |
| `Gossip.LocalKeepsInvariants` | pkg/catalog/catalog_cluster_level.go:52-93 | every local event keeps the key inclusion and the agreement of totals |
| `Gossip.LocalStepInv` | pkg/catalog/info_room.go:67-83 | a local event, published on every channel, keeps the system invariant |
| `Gossip.ConnectStepInv` | pkg/catalog/discovery.go:160-191 | noticing a connection and streaming the own record keeps the system invariant |
| `Gossip.DeliverStepInv` | pkg/catalog/info_room.go:84-110 | a delivery keeps the system invariant |
| `Gossip.RunInv` | pkg/catalog/info_room.go:67-156 | every state of every run: views follow the channels, channels end at the sender's record, keys are included, totals agree once a message came in |
| `Gossip.RunsMeetNoMissingEntry` | pkg/catalog/info_room.go:114-118 | over all runs packing never meets a missing entry, and a local event does exactly when it deletes an uncatalogued function or stores a time where none is recorded |
| `Gossip.StepTimes` | pkg/catalog/info_room.go:131-141 | no event drops a recorded time, and one is filed exactly by adding the function here or by a message whose sender says it runs it |
| `Gossip.RunTimes` | pkg/catalog/info_room.go:131-141 | over any stretch of any run a time is there at the end if and only if it was at the start or such an event filed it |
| `Gossip.CaughtUpTotal` | pkg/catalog/catalog_cluster_level.go:95-106 | the sum over a caught-up peer's nodes is the sum over what every peer itself runs |
| `Gossip.Convergence` | pkg/catalog/info_room.go:84-156 | a caught-up peer has every other peer's true counts and flag; if not alone its cached totals are the network totals; it catalogues everything that runs |
| `Gossip.DeliveryProgress` | pkg/catalog/info_room.go:84-110 | a pending message can be delivered; that takes one off what is pending and changes no own record |
| `Gossip.DeliveriesCatchUp` | pkg/catalog/info_room.go:84-110 | from any state of any run with channels to a peer, finitely many deliveries alone make it know the true counts, flags and totals, leave every own record as it was and keep the invariant |
| `Ranking.CollectTimes` | pkg/catalog/kube_client.go:161-182 | the list holds every node's time once and each time names a node that has it |
| `Ranking.RankNodeByRTT` | pkg/catalog/kube_client.go:158-191 | the slice becomes a ranking: as long as the node set, ordered by time, made of the nodes' own times, ties collapsed; the rest of the array is untouched |
| `Ranking.RankingIsPermutation` | pkg/catalog/kube_client.go:180-190 | the ranking lists every node exactly once if and only if no two times are equal |
| `Ranking.SelfRanksFirstIff` | pkg/catalog/kube_client.go:158-191 | every possible ranking starts with the local node if and only if every other time is positive |
| `Ranking.TiesCollapse` | pkg/catalog/kube_client.go:180-190 | two nodes measured alike may both be listed as one of them |
| `Fleets.Fleet.ScaleUp` | pkg/handlers/replica_updater.go:149-215 | the loop, with every failure path, leaves the deployments its specification function gives |
| `Fleets.Fleet.ScaleDown` | pkg/handlers/replica_updater.go:218-272 | the loop, with every failure path, leaves the deployments its specification function gives |
| `Fleets.Fleet.UpdateReplicas` | pkg/handlers/replica_updater.go:57-144 | when each refusal is answered and that it writes nothing; for 1 to 2^31 - 1 replicas, at most ten of them meant: the last replica stays, an accepted request reaches the exact total, an offloaded one writes exactly that count here |
| `Fleets.NoContentIff` | pkg/handlers/replica_updater.go:101-104 | nothing is to be done if and only if exactly that many replicas run |
| `Scaler.AccurateTotal` | pkg/handlers/replica_updater.go:87 | with an accurate catalog whose totals agree, the cached total is the number of replicas deployed |
| `Scaler.VisitOutcome` | pkg/handlers/replica_updater.go:166-210 | a visit fails if and only if a call it needs fails, leaving at most a first replica; otherwise it adds what is wanted or what fits |
| `Scaler.VisitFills` | pkg/handlers/replica_updater.go:166-210 | without failures one visit adds what is wanted or what fits, whichever is less, also through the deploy-then-grow path |
| `Scaler.FreshVisit` | pkg/handlers/replica_updater.go:168-177 | in a cluster without the function only the last missing replica keeps the count it was created with, so that count must be one |
| `Scaler.FillConserves` | pkg/handlers/replica_updater.go:158-212 | replicas deployed plus replicas still wanted stay the same over the whole loop, also where a cluster has too many |
| `Scaler.ScaleUpClosedForm` | pkg/handlers/replica_updater.go:158-212 | each cluster reached before enough is placed changes by what nearer ones left over, up to its spare nodes, and by a negative number if it has too many replicas |
| `Scaler.FillStopsAt` | pkg/handlers/replica_updater.go:158-212 | at the first cluster where a needed call fails the loop stops: nearer ones have their share, that one at most a first replica, further ones nothing |
| `Scaler.ScaleUpExactTotal` | pkg/handlers/replica_updater.go:149-215 | the new total is the smaller of the wanted one and the old one plus all spare nodes visited |
| `Scaler.ScaleUpNearestFirst` | pkg/handlers/replica_updater.go:157-212 | no cluster shrinks, and one gains only when every nearer, not overloaded cluster ends at its node count |
| `Scaler.ScaleUpFitsNodes` | pkg/handlers/replica_updater.go:186-205 | whatever the catalog says and whatever fails, every count written is at most the cluster's node count |
| `Scaler.ScaleUpShrinksIff` | pkg/handlers/replica_updater.go:158-212 | over the whole loop a cluster shrinks if and only if it is not overloaded, has fewer nodes than replicas, and is reached before enough is placed |
| `Scaler.ScaleUpCanShrink` | pkg/handlers/replica_updater.go:186-191 | two nodes, three replicas, one more wanted: the loop leaves two |
| `Scaler.FillGrows` | pkg/handlers/replica_updater.go:158-212 | even if an API call fails on the way no deployment shrinks |
| `Scaler.ShrinkFailsIff` | pkg/handlers/replica_updater.go:228-268 | scaling down fails if and only if a call it needs fails, and then changes nothing unless only the service stays behind |
| `Scaler.ScaleDownTotal` | pkg/handlers/replica_updater.go:218-272 | unless it fails, the new total is the larger of the wanted one and the old one less the local replicas |
| `Scaler.ScaleDownLeaves` | pkg/handlers/replica_updater.go:229-269 | whatever fails, at least the wanted number is left |
| `ScaleRuns.RankingSuppliesScene` | pkg/catalog/kube_client.go:158-191 | distinct positive times give the distinct ranking with the local cluster first that both loops rely on |
| `ScaleRuns.RequestLeavesOne` | pkg/handlers/replica_updater.go:57-142 | one request for at least one replica leaves one, whatever API calls fail |
| `ScaleRuns.RunsKeepLastReplica` | pkg/handlers/replica_updater.go:57-142 | over any run of requests for 1 to 2^31 - 1 replicas, each handled by any peer on its own keys, the total stays at least one |
| `ScaleRuns.DesiredInRange` | pkg/handlers/replica_updater.go:88-91 | a request for one to ten replicas is taken at its word, one for more below 2^31 as one for ten |
| `ScaleRuns.LocalScaleDown` | pkg/handlers/replica_updater.go:134-141 | a local scale-down request is accepted if the API answers; accepted, it changes only this cluster, and the total is the wanted one or what runs elsewhere |
| `ScaleRuns.LocalScaleUp` | pkg/handlers/replica_updater.go:127-141 | a local scale-up request reaches the wanted total, or all the spare nodes it may use |
| `ScaleRuns.WrappedRequestRemovesLast` | pkg/handlers/replica_updater.go:57-141 | when all replicas run here, any other non-zero request leaves none if it is local, and writes its zero or negative count if it is offloaded |
| `ScaleRuns.SimultaneousIsAllShrunk` | pkg/handlers/replica_updater.go:217-272 | if all peers handle the same scale-down at once, the outcome is that every cluster gives up what the network should |
| `ScaleRuns.AccurateIsReady` | pkg/handlers/replica_updater.go:87-88 | an accurate catalog gives a peer what a simultaneous scale-down assumes of it |
| `ScaleRuns.SimultaneousScaleDown` | pkg/handlers/replica_updater.go:217-219 | if all peers scale down at once a replica survives if and only if some cluster had more than the network gives up |
| `ScaleRuns.SimultaneousTotal` | pkg/handlers/replica_updater.go:217-219 | the exact total then, and that it falls below the wanted one if and only if the function ran in two clusters or more |
| `ScaleRuns.SimultaneousScaleDownLosesAll` | pkg/handlers/replica_updater.go:217-219 | two clusters with one replica each, both told to keep one, end with none |
| `Scheduler.WeightAtLeastTen` | pkg/handlers/trigger.go:134-160 | every eligible node's weight is at least ten |
| `Scheduler.WeightIsOthers` | pkg/handlers/trigger.go:157-159 | a node's weight is ten times the product of the others' weighted times |
| `Scheduler.FasterWeighsMore` | pkg/handlers/trigger.go:134-160 | among nodes alike in overload the weight falls as the time rises |
| `Scheduler.FastestWeighsMost` | pkg/handlers/trigger.go:126-160 | the fastest node has the largest weight, overloaded or not |
| `Scheduler.RatedIs` | pkg/handlers/trigger.go:136-145 | the weighted time is the fourth power of the time over the least one, squared for an overloaded node |
| `Scheduler.OverloadSquares` | pkg/handlers/trigger.go:137-147 | becoming overloaded squares the own weighted time and changes no other |
| `Scheduler.OverloadShiftsWeight` | pkg/handlers/trigger.go:137-160 | becoming overloaded leaves the own weight as it was and multiplies every other node's product by exactly the own weighted time, strictly more if it was not the fastest |
| `Scheduler.SlowNodeOverflows` | pkg/handlers/trigger.go:136-165 | one node whose weighted time against the fastest reaches a tenth of 2^63 - 1 makes the choice fail, whatever the others are |
| `Dispatch.CollectRawTimes` | pkg/handlers/trigger.go:115-131 | stops at a node with time 1, or collects every eligible time and their least |
| `Dispatch.WeighTimes` | pkg/handlers/trigger.go:134-148 | the fourth powers, squared for overloaded nodes, and their product, in any order |
| `Dispatch.Weigh` | pkg/handlers/trigger.go:134-160 | the choices are exactly the eligible nodes with their weights, each at least ten |
| `Dispatch.NewChooser` | vendor/github.com/mroth/weightedrand/v2/weightedrand.go:41-71 | counting up in any order fails if and only if the sum of the weights is below one or reaches the largest integer |
| `Dispatch.Choose` | pkg/handlers/trigger.go:155-176 | no choice if and only if the recorded times make the weights overflow (or are not positive and the conversion fails); otherwise a node that runs the function |
| `Dispatch.WeightExecTimeScheduler` | pkg/handlers/trigger.go:113-177 | every outcome over all orders and random choices: none if nobody runs the function, a node never measured, one that runs it, or the fallback and its reset |
| `Dispatch.EligibleHasTime` | pkg/handlers/trigger.go:120-121 | the key inclusion makes every time that is loaded present |
| `Dispatch.ResetEffect` | pkg/handlers/trigger.go:166-171 | the fallback sets to 1 exactly the times of this function at nodes that run it |
| `Dispatch.FallbackRecovers` | pkg/handlers/trigger.go:164-174 | after the fallback the next call picks a node with a positive count, even if the chooser fails again |
| `Dispatch.FirstIdle` | pkg/handlers/trigger.go:186-190 | the first ranked node that is not overloaded |
| `Dispatch.FindSuitableNode` | pkg/handlers/trigger.go:181-194 | the scheduler's pick, else the first not overloaded node to deploy on, else an empty identifier without error |
| `Dispatch.ExplorePotentialNode` | pkg/handlers/trigger.go:88-110 | a missing entry if and only if the target has no time; else the nearest node without replicas whose time is less, else the nearest never measured; nothing only if all of them have times no better |
| `Dispatch.RecordTime` | pkg/handlers/trigger.go:279-288 | a missing entry if and only if the target has no time; else the first sample, and later the mean of old time and sample rounded towards zero, the filter of the lemmas below; nothing else changes |
| `Dispatch.AverageStaysWithin` | pkg/handlers/trigger.go:279-288 | after a reset and any samples the time lies between the smallest and the largest |
| `Dispatch.AverageConverges` | pkg/handlers/trigger.go:279-288 | k equal samples s leave a distance of less than the first distance / 2^k + 1, through the sentinel too |
| `Dispatch.AverageRests` | pkg/handlers/trigger.go:284-286 | the filter rests exactly at the sample or one below it |
| `Trigger.MissingEntryIff` | pkg/handlers/trigger.go:48-74 | whatever is filed between the choice and the loads, a load misses if and only if a condition on the catalog at the choice, what is filed, and the cluster's answers holds |
| `Trigger.TargetRunsIff` | pkg/handlers/trigger.go:48-63 | the target runs the function if and only if somebody does and the choice succeeds, a node was never measured, or the fallback does |
| `Trigger.RunsMissEntryIff` | pkg/handlers/trigger.go:48-74 | the same for a choice in any state of any run and loads in any later one, and when the target runs the function |
| `Trigger.FallbackCanMiss` | pkg/handlers/trigger.go:164-173 | a function run by two other clusters, one a million times slower: the weights overflow, the fallback picks this cluster, and it has no time for it |
| `Trigger.EndpointBeforeTimeMisses` | pkg/handlers/trigger.go:269-279 | offloading off, endpoints up, time not yet filed: the load misses |
| `Trigger.ChooseTarget` | pkg/handlers/trigger.go:48-63 | the target, whether it must be deployed to, and the catalog afterwards are among those the choice allows |
| `Trigger.FinishCall` | pkg/handlers/trigger.go:52-74 | on any catalog: gives up exactly when a deployment does not come up; misses exactly when it does not give up, the target has no time, and the call is proxied or was free to go elsewhere; keeps the invariant |
| `Trigger.TriggerFunction` | pkg/handlers/trigger.go:42-74 | with nothing in between: an uncatalogued function is refused, and an entry is missed exactly under the condition on the catalog before the call |
| `Volumes.RemoveInPlace` | pkg/k8s/utils.go:13-44 | the in-place filter of a slice is the order-preserving filter of what it held, and the array beyond the result is as it was |
| `Volumes.ReplaceInPlace` | pkg/k8s/securityContext.go:50-73 | appending to the filtered slice gives the filter and the new item, in the same array if and only if that has room, and otherwise the array is as it was |
| `Volumes.WithoutKeeps` | pkg/k8s/utils.go:19-23 | every copy of the named item goes and every other item stays as often as it was there |
| `Deployments.Deployment.ConfigureReadOnlyRootFilesystem` | pkg/k8s/securityContext.go:41-75 | exactly one temporary volume and mount at /tmp if the request is read-only and none otherwise, every other volume and mount in its order, the flag as requested, all other fields as they were |
| `Deployments.Deployment.ConfigureSecrets` | pkg/k8s/secrets.go:199-275 | splits the secrets, stops at a missing one, replaces the secrets volume and every container's mount |
| `Deployments.Deployment.SplitSecrets` | pkg/k8s/secrets.go:201-234 | registry secrets are appended as pull secrets in order, the others become projections in order |
| `Deployments.Deployment.MountSecrets` | pkg/k8s/secrets.go:236-272 | one secrets volume and one read-only mount at /var/openfaas/secrets per container if there is a projection, none otherwise |
| `Deployments.Deployment.ReadFunctionSecretsSpec` | pkg/k8s/secrets.go:278-303 | the sorted pull secrets and projected names of the first secrets volume |
| `Deployments.SplitKeepsNames` | pkg/k8s/secrets.go:203-234 | splitting a request loses and adds no name |
| `Deployments.SplitByKind` | pkg/k8s/secrets.go:203-234 | registry secrets become pull secrets, every other a projection of exactly its keys |
| `Deployments.SecuredLeavesRest` | pkg/k8s/secrets.go:199-275 | configuring secrets touches pull secrets, volumes and mounts only |
| `Deployments.ReadInvertsConfigure` | pkg/k8s/secrets.go:199-303 | reading back gives, sorted, the pull secrets already there plus exactly the requested names |
| `Deployments.ReadsRequestIff` | pkg/k8s/secrets.go:277-303 | the sorted request is read back if and only if no pull secret was there before |
| `Builders.BuildEnvVars` | pkg/handlers/deploy.go:350-372 | sorted by name, and for each name the process entry before the variable, for any visiting order |
| `Builders.ReadBuiltEnv` | pkg/k8s/function_status.go:23-56 | reading a built list gives the variables, with the process only where they do not name it |
| `Builders.AnnotationsOutcome` | pkg/handlers/deploy.go:324-348 | refused if and only if the topic has a comma or a key has one of two fragments; a write to a nil map if and only if the map is nil |
| `Builders.AnnotationsUnchangedIff` | pkg/handlers/deploy.go:324-348 | accepted annotations keep every entry and have the scrape annotation, false if it was missing; unchanged if and only if it was there |
| `Builders.AnnotationsSecondTime` | pkg/handlers/deploy.go:326-346 | the addition is made in the caller's map, so a second time nothing changes |
| `Builders.AtoiInvertsDecimal` | pkg/handlers/deploy.go:439 | a written number is read back, with either sign or none, if and only if it fits 64 bits |
| `Builders.MinReplicasOfLabel` | pkg/handlers/deploy.go:437-448 | the label's number is taken if and only if it is positive and fits 64 bits, and is itself if and only if below 2^31 |
| `Builders.AllowedMinimum` | pkg/handlers/validate.go:57-97 | a minimum that passed the label check is the label's very number, from one to the licensed count |
| `Builders.AllowedNumbers` | pkg/handlers/validate.go:88-94 | of the numbers that can be written in the label, exactly those above the licensed count that fit 64 bits are refused |
| `Updates.UpdateFunction` | pkg/handlers/update.go:39-66 | the handler: nothing is stored unless labels and annotations are accepted and nothing fails after |
| `Updates.UpdateDeploymentSpec` | pkg/handlers/update.go:101-183 | rewrites a fetched copy, with an environment list built from the request, and stores it only if nothing failed |
| `Updates.UpdateArranges` | pkg/handlers/update.go:113-164 | a successful update leaves the other volumes and mounts in order, then the temporary and the secrets ones if asked for |
| `Updates.UpdateSetsFields` | pkg/handlers/update.go:114-145 | image, flag, environment list and annotations are those of the request; name, namespace, available replicas and other containers stay, mounts apart |
| `Updates.UpdateSetsEnvironment` | pkg/handlers/update.go:118 | read back, the environment is the request's variables, with the process only where they do not name it |
| `Updates.UpdateSetsLabels` | pkg/handlers/update.go:125-141 | exactly the request's labels, plus the function's name and the fresh number where the request has none |
| `Updates.UpdateReplicasByLabel` | pkg/handlers/update.go:130-133 | the replica count becomes the number in the minimum label if that is from one to the licensed count, and stays otherwise |
| `Updates.UpdateReadsBackIff` | pkg/handlers/update.go:154-164 | after an update the sorted request is read back if and only if no pull secret was there before |
| `Updates.LifeKeepsRest` | pkg/handlers/update.go:113-164 | over any sequence of updates the other volumes and mounts never change |
| `Updates.LifeArranged` | pkg/handlers/update.go:113-164 | after any sequence of updates to any deployment: unchanged if none succeeded, otherwise the exact volumes and mounts by the last successful request |
| `Updates.LifeCounts` | pkg/k8s/securityContext.go:50-74 | likewise one temporary volume and mount exactly if the last success was read-only, one secrets volume and mount exactly if it had a secret to mount |
| `Updates.LifeResolves` | pkg/k8s/secrets.go:246-272 | every mount always names a volume if that held at the start, with and without what updates replace |
| `Updates.LifeAccumulatesPulls` | pkg/k8s/secrets.go:211-219 | the pull secrets are those of the start and of every successful update, none removed |
| `Redeploy.AsFunctionStatus` | pkg/k8s/function_status.go:16-59 | the status has the deployment's fields, replica counts and annotations as they are, and the last value of each variable |
| `Redeploy.StatusIsNormal` | pkg/k8s/function_status.go:22-56 | every status has sorted secrets and its process among its variables |
| `Redeploy.DeployFunction` | pkg/handlers/deploy.go:53-73 | the handler: refuses labels and namespaces, then makes the function |
| `Redeploy.DeployAcceptsIff` | pkg/handlers/deploy.go:53-109 | a deployment is made if and only if labels, namespace, secrets, image, resources, annotations and licence allow it, and then in the handler's namespace |
| `Redeploy.MakeFunction` | pkg/handlers/deploy.go:80-111 | the deployment for a request, in the caller's namespace, with an environment list built from it, or the refusal or crash of its specification |
| `Redeploy.MakeDeploymentSpec` | pkg/handlers/deploy.go:139-285 | the same once secrets and image are checked, with the resource and annotation errors |
| `Redeploy.CreateArranges` | pkg/handlers/deploy.go:277-282 | a new deployment has exactly the temporary and secrets volumes and mounts its request asks for |
| `Redeploy.RedeployRoundTrip` | pkg/handlers/replica_updater.go:280-295 | status, redeployment, status is the identity, for namespace, labels and annotations with the exact conditions and additions; the replica counts and a read-only root are not carried |
| `Redeploy.CopyOutcome` | pkg/handlers/deploy.go:80-98 | a copy crashes if and only if the annotations are a nil map and nothing was refused before; it is refused if and only if a secret is missing, a check fails, the annotations are forbidden or the licence has no room |
| `Redeploy.CopyCrashesIff` | pkg/handlers/deploy.go:344-346 | for a deployment in a cluster, the crash is exactly for a template without an annotation map, copied by that cluster's own peer |
| `Redeploy.SecondCopyIsIdentity` | pkg/handlers/deploy.go:326-346 | after one copy the catalog's entry has the annotations of the copy, and further copies change neither |
| `Redeploy.CopyReplicasByLabel` | pkg/handlers/deploy.go:147-150 | a copy's replica count is the label's number converted to 32 bits, or one |
| `Redeploy.CopyCanHaveNoReplica` | pkg/handlers/deploy.go:147-150 | a label of 2^32, which the deploy handler refuses, makes a copy with no replica |
| `Redeploy.CreatedLifeArranged` | pkg/handlers/deploy.go:277-282 | from creation through any updates, exactly the volumes and mounts of the last request in effect, in order |
| `Redeploy.CreatedLifeCounts` | pkg/k8s/securityContext.go:50-74 | one temporary volume and mount exactly if that request is read-only, one secrets volume and mount exactly if it mounts a secret, and no others |
| `Redeploy.CreatedLifeResolves` | pkg/k8s/secrets.go:246-272 | every mount names a volume, at every point of that life |
| `Redeploy.CreatedLifeCopies` | pkg/handlers/update.go:143-145 | the annotations are a map at every point of that life, so a copy never crashes |
| `Redeploy.DeployedLifeReplicas` | pkg/handlers/validate.go:88-94 | a deployment made by the deploy handler and updated asks for one to the licensed number of replicas at every point |

## Left out

- Catalog.Catalog: node records are values in the catalog's map; the source shares pointers to them, so aliasing between the event handlers' copies is not captured.
- Catalog.Catalog.NewNodeCatalogEntry: requires room in the ranking slice and a measurement of every node; beyond its capacity the source panics.
- Dispatch.WeightExecTimeScheduler: weights are exact reals, so rounding and overflow of the product itself are not modelled; with a stored time of 0 the source's weights are not numbers, and the model lets the choice fail or be any eligible node.
- Dispatch.RecordTime: the sum of the stored time and the sample is not wrapped at 64 bits.
- Trigger.TriggerFunction: the wait for a deployment, the endpoint lookup and the proxying are answers it is given; the two loads at the end of a call are one step.
- Scaler.ScaleUpExactTotal: takes a deployment to be created with one replica, room for the replicas of each visited cluster and no API failure, as the loop itself counts.
- Fleets.Fleet.ScaleUp: differences of 32-bit values are not wrapped; totals from 2^31 on are outside the accurate catalogs of the theorems.
- Updates.LifeArranged: is about deployments with one container, as this controller creates them.
- Redeploy.RedeployRoundTrip: says nothing about constraints, which a status does not carry, and resource quantities, which a library parses.
- libp2p, gossip routing, discovery, streams and JSON: only channels of messages.
- Kubernetes calls, watches and informer caches, and the Prometheus queries: only their answers.
- The weighted random library: when it fails, and that it picks a positive weight; not the probabilities.
- Data races on the unsynchronised maps and blocking on the info channel: steps are atomic.
- The order of projected keys inside one secret, probes and node selectors: written once from the request and read by nothing modelled here.
- Resource quantities and image names: a library parses them, so only whether they are accepted.
- Listing and reading functions for the API, HTTP proxying, log streaming, namespaces, validation and generated clients: none of them touches the catalog, the replica counts or the volumes.
