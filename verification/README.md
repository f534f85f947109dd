# PointCloudsManager slot table — a Dafny model

The point-cloud aggregator subscribes to one topic per sensor source
(`pointcloud0`, `pointcloud1`, …) and keeps, per source, only the latest cloud it
received together with its timestamp. `PointCloudsManager` owns that table: a
fixed-length array with one optional entry per source. `addCloud` turns the topic
name into a slot index and either creates the slot's entry or hands the cloud to
the existing one; `clean` sweeps the table and evicts every entry older than
`max_age`. The header also carries the merged cloud and a flag that prevents it
from being downsampled twice.

The model is functional. The table is a `seq<Option<Entry<C>>>` of fixed length,
with `C` an opaque cloud type. Operations are pure functions of the manager
value. The clock is an explicit parameter `now`, the value `time(NULL)` returned;
a negative value means the clock read failed. The entry objects (`PCLStamped` /
`StreamManager`) are not part of this model. How a new entry is built and how an
existing one absorbs a cloud is a `Stamper` parameter. Properties that depend on
what an entry does are stated under the predicates `KeepsLatest` (the entry stores
the cloud it was given) and `StampsNow` (the entry is stamped with the clock
reading). `LatestStamper` is the instance that satisfies both.

Files:
- `topic_names.dfy` — module `TopicNames`: the topic name ↔ index mapping (`substr(10)` + `atol`, and the node's `"pointcloud" + to_string(i)`), with both round trips.
- `point_clouds_manager.dfy` — module `PointCloudsManager`: the manager, construction, `clean`, `addCloud`, `setTransform`, and sequences of operations.
- `merged_cloud.dfy` — module `MergedCloud`: the merged cloud and its downsampling guard.
- `optional.dfy` — module `Optional`: the optional value used for slots and for the merged cloud.

Two points about `addCloud` shape the model:
- The code does no bounds check (src/core/PointCloudsManager.cpp:58-67), so the index being in range is a precondition (`Addresses`). `NodeTopicsAccepted` shows that every topic the node subscribes to meets it.
- `addCloud` does not call `clean`; they are separate operations.
- `addCloud` receives a topic name, not an index, and parses the index out of it; so does the model.

## Model

| member | source | states |
|---|---|---|
| PointCloudsManager.AllocCloudManagers | src/core/PointCloudsManager.cpp:25-35 | the allocated table has exactly `n` slots and every slot is empty |
| PointCloudsManager.New | src/core/PointCloudsManager.cpp:3-9 | a new manager has `n_clouds` slots, none occupied, the given `max_age`, no merged cloud and the downsample flag clear |
| PointCloudsManager.Run | include/PointCloudsManager.h:35-38 | any sequence of admissible `addCloud`, `clean` and `setTransform` calls leaves the table length and `max_age` as they were |
| PointCloudsManager.NClouds | src/core/PointCloudsManager.cpp:21-23 | `getNClouds` bounds the table: every source that holds a cloud has an index below the count it reports |
| PointCloudsManager.NCloudsFixed | src/core/PointCloudsManager.cpp:21-23 | `getNClouds` returns the count given to the constructor after any admissible sequence of operations, and `max_age` is still the constructor's |
| PointCloudsManager.Sweep | src/core/PointCloudsManager.cpp:44-52 | the sweep keeps the length; a slot ends non-empty exactly when it was non-empty and not stale, and then holds the same entry |
| PointCloudsManager.Clean | src/core/PointCloudsManager.cpp:37-53 | with a failed clock read the manager is unchanged; otherwise slot `i` stays non-empty iff it was non-empty and `now - stamp <= max_age`, surviving entries are untouched, and length, `max_age` and merged cloud are unchanged |
| PointCloudsManager.CleanLoop | src/core/PointCloudsManager.cpp:44-52 | the slot-by-slot loop computes the same manager as `Clean` |
| PointCloudsManager.CleanEvictsExactlyStale | src/core/PointCloudsManager.cpp:45-50 | the occupied sources after a sweep are the occupied sources before it minus exactly the stale ones |
| PointCloudsManager.CleanOnlyEvicts | src/core/PointCloudsManager.cpp:46-50 | a sweep never fills a slot: the occupied set can only shrink |
| PointCloudsManager.CleanIdempotent | src/core/PointCloudsManager.cpp:40-52 | a second sweep with the same `now` changes nothing |
| PointCloudsManager.LaterCleanSubsumes | src/core/PointCloudsManager.cpp:47-50 | a sweep at `t1` followed by one at a later `t2` gives the same table as the sweep at `t2` alone |
| PointCloudsManager.CleaningNeverFills | include/PointCloudsManager.h:42 | any sequence of sweeps, at any clock readings, leaves a subset of the sources that were occupied before |
| PointCloudsManager.AgeBoundary | src/core/PointCloudsManager.cpp:47 | an entry whose age equals `max_age` survives the sweep; one whose age is `max_age + 1` is evicted |
| PointCloudsManager.AddCloud | src/core/PointCloudsManager.cpp:55-68 | the addressed slot is non-empty afterwards: a new entry if it was empty, the existing entry updated otherwise; every other slot, the length, `max_age` and merged cloud are unchanged |
| PointCloudsManager.AddCloudKeepsLatest | include/PointCloudsManager.h:30-31 | with entries that store what they are given, the source's slot holds the new cloud, and the occupied set gains that source and nothing else |
| PointCloudsManager.LatestCloudWins | src/core/PointCloudsManager.cpp:61-67 | with entries that store what they are given, a second cloud for the same source replaces the first instead of accumulating; both insertions address the same slot and touch no other |
| PointCloudsManager.AddCloudsCommute | src/core/PointCloudsManager.cpp:58-67 | insertions for two different sources give the same table in either order |
| PointCloudsManager.TimeToLive | include/PointCloudsManager.h:5-6 | with entries stamped on insertion, a cloud added at `now` survives a sweep at `later` exactly when `later - now <= max_age` |
| PointCloudsManager.NodeTopicsAccepted | src/nodes/pcl_aggregator_node.cpp:56-62 | every topic the node subscribes to for a source below `n_clouds` meets `addCloud`'s precondition and addresses that source's slot |
| PointCloudsManager.SetTransform | include/PointCloudsManager.h:55 | `setTransform` changes only the slot its topic name maps to, through the same mapping as `addCloud`, and keeps length, `max_age` and merged cloud |
| PointCloudsManager.CloudAndTransformShareSlot | include/PointCloudsManager.h:43-55 | a cloud and a transform sent on the same topic leave every other slot in the same state |
| PointCloudsManager.ThreeSourceScenario | src/core/PointCloudsManager.cpp:37-67 | three sources with `max_age` 2, stamped at 0, 0 and 1: a sweep at 2 evicts nothing; a sweep at 3 leaves only source 2 |
| TopicNames.ParseDigits | src/core/PointCloudsManager.cpp:59 | `atol` on a string of `k` decimal digits gives a value below `10^k` |
| TopicNames.TopicNameToIndex | src/core/PointCloudsManager.cpp:58-59 | the index read from the characters after the first ten fits in a `long`, and for a suffix written the way `to_string` writes numbers it is the number that suffix spells |
| TopicNames.TopicName | src/nodes/pcl_aggregator_node.cpp:58-61 | the node's topic for source `i` is the ten-character prefix `"pointcloud"` followed by a canonical decimal numeral |
| TopicNames.Decimal | src/nodes/pcl_aggregator_node.cpp:61 | `to_string` of an index is a non-empty digit string with no leading zero (except "0") |
| TopicNames.ParseDecimal | src/core/PointCloudsManager.cpp:58-59 | reading the digits of a written index gives the index back |
| TopicNames.DecimalParse | src/core/PointCloudsManager.cpp:58-59 | writing the value of a canonical digit string gives the same string back |
| TopicNames.IndexOfTopicName | src/nodes/pcl_aggregator_node.cpp:58-61 | the name the node builds for source `i` is accepted by the parser and maps back to `i` |
| TopicNames.SubscribedTopicsInRange | src/nodes/pcl_aggregator_node.cpp:56-62 | each subscribed topic for `i < n` maps to an index below `n` |
| TopicNames.TopicNameOfIndex | src/core/PointCloudsManager.cpp:56-59 | a name made of `"pointcloud"` and a canonical numeral is the node's name for its own parsed index |
| TopicNames.TopicNameInjective | src/nodes/pcl_aggregator_node.cpp:58-61 | distinct sources get distinct topic names |
| TopicNames.PrefixIsNotChecked | src/core/PointCloudsManager.cpp:56-58 | only the characters after the first ten matter: the first ten are skipped, not compared with `"pointcloud"` |
| MergedCloud.Initial | include/PointCloudsManager.h:39-40 | a new manager has no merged cloud and the downsample flag is clear |
| MergedCloud.Downsample | include/PointCloudsManager.h:47 | downsampling raises the flag; filters the cloud if the flag was clear; changes nothing if it was already set |
| MergedCloud.DownsampleOnce | include/PointCloudsManager.h:40 | a second downsample, with any filter, leaves the first one's result unchanged, so the filter runs at most once |

## Left out

- The destructor, `malloc`/`free`/`new`/`delete`: memory management has no counterpart in a value model. The `malloc`-failure path (an error message, then a manager with no table) is not modelled.
- `getMergedCloud`, `appendToMerged`, `clearMergedCloud`: declared in the header, but their bodies are not part of this model. So the fold over ready sources, registration and concatenation are absent, and nothing resets the downsample flag.
- MergedCloud.Downsample: when there is no merged cloud yet, the model only raises the flag. What the undisclosed body does with a null cloud is not known.
- The voxel-grid filter, ICP registration and `FILTER_VOXEL_SIZE`: library calls on floating point. The filter is a function parameter and clouds are opaque.
- `PCLStamped` / `StreamManager` internals, including the pending transform: they are not part of this model. Entry creation and update are the abstract `Stamper`, and the effect of `setTransform` inside a slot is the abstract `apply`.
- PointCloudsManager.AddCloud: the new entry's timestamp is whatever the `Stamper` gives, because the entry object reads the clock itself. Properties that need "stamped at now" assume `StampsNow`.
- `time()` itself: its result is the parameter `now`. The `strerror` logging on clock failure is not modelled.
- PointCloudsManager.Clean: `now - stamp` is computed on unbounded integers. The 64-bit `time_t` subtraction could only overflow for timestamps near the type's limits.
- `atol` edge cases: leading whitespace, signs, non-digit characters, values above `LONG_MAX`, and names of ten characters or fewer (where the suffix is empty or `substr` throws). They are excluded by `WellFormedTopic`.
- Out-of-range indices in `addCloud`: the code indexes the table without a check (src/core/PointCloudsManager.cpp:63-66), so the index being in range is a precondition.
- PointCloudsManager.SetTransform: its body is not part of this model, so whether it checks bounds is not known. Its in-range `requires` is a modelling choice that mirrors `addCloud`.
- The OpenMP pragmas: every iteration touches its own slot, so the loops are modelled sequentially. Locking between concurrent callbacks is not modelled.
- ROS setup in the node (parameters, publishers, the spin loop). Only its topic-name format is used.
