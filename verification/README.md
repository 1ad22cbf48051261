# A verified model of the fraig And-Inverter-Graph engine

This project models the core of a C++ circuit tool for And-Inverter Graphs
(AIGs) read from ASCII AIGER (`aag M I L O A`) files. The core is the gate
store and the passes that rewrite it:

- gates joined by tagged fanin/fanout edges, and the edge primitives of
  `CirGate` (`addFanout`, `delFanout`, `changeFanin`, `clearFanin`,
  `mergeInto`, `replaceByConst`, `replaceByFanin`, `checkOpt`, `floating`,
  `connectLinks`);
- the bucketed `HashMap` and the direct-mapped `Cache` of the utility library;
- the manager `CirMgr`:
  - gate removal and merging;
  - the unused and floating lists;
  - `sweep` and structural hashing (`strash`);
  - memoised 32-bit simulation (`getSimValue`) and FEC group splitting (`divideFEC`);
  - circuit construction (`readCircuit`) and serialisation (`writeAag`) over tokenised records.

Modules, one per file:

| module | file | what it holds |
|---|---|---|
| `Lists` | `lists.dfy` | find-first, `erase`, first-match replace and `::sort` on sequences |
| `CirGate` | `cir_gate.dfy` | the edge datatype `Live(id, inv) \| Float(lit)`, its word encoding, gate kinds, the gate record and the constructors |
| `Topology` | `topology.dfy` | the edge mutators over the gate table `map<nat, Gate>`, fanin/fanout consistency, `checkOpt`, `connectLinks` |
| `HashMapModel` | `hash_map.dfy` | the classes `HashMap<D>` (an `array` of bucket sequences with a ghost abstract map) and `Cache<D>` |
| `Sim` | `sim.dfy` | `getSimValue` against a reference `Value` function, and `divideFEC` against `Class` |
| `Build` | `build.dfy` | the table `readCircuit` builds, linking, and symbol naming, as functions of the records |
| `Cir` | `cir_mgr.dfy` | the class `CirMgr`, whose methods update its fields; each method's new state is a function of the old one (`View()`), and the lemmas are stated about those functions |

Gates are values in a table keyed by id; an edge names its gate by id where
the source uses a tagged pointer. The pointer word is kept as an arithmetic
encoding (`id * 8 + sign`, `lit * 8 + 2`), with round-trip lemmas. Methods that
touch several gates (`clearFanin`, `mergeInto`, `replaceBy*`, `connectLinks`)
take the table and return the new one; their loops are proved against a
specification function. `CirMgr` and `HashMap` are classes whose methods
modify their fields.

Where the model follows the code rather than what the comments describe:

- `getSimValue` gives a PO its fanin gate's value and never applies the edge's
  inversion.
- `replaceByConst` does not register the redirected referrers in the
  constant's fanout.
- `mergeGate(idfrom, idto)` does not refuse a self-merge. It is modelled as
  written and as corrected (see Findings).

Where the model uses a corrected definition (see Findings):

- The manager's `mergeGate`, and so `strash`, merges with the corrected
  `mergeInto` (`Topology.MergeInto`, `Cir.MergedGate`): every fanin edge of a
  referrer that points at the merged gate is redirected, not only the first.
  The source's first-match `mergeInto` is `Topology.MergeIntoAsWritten`, and
  at the manager level `Cir.MergedByIdAsWritten`.

## Model

| member | source | states |
|---|---|---|
| Lists.SortBy | src/cir/cirOpt.cpp:153 | `::sort` yields a sorted permutation of its input (same multiset, same length) |
| Lists.InsertBy | src/cir/cirGate.cpp:124-125 | inserting one element into a sorted list keeps it sorted and adds exactly that element to the multiset |
| Lists.IndexOf | src/cir/cirGate.cpp:143-144 | the index found is that of the first equal element; it equals the length exactly when the element is absent |
| Lists.DelFirstCounts | src/cir/cirGate.cpp:141-145 | `erase` of the first match removes one occurrence (the count drops by one, length by one); with no match nothing changes |
| Lists.DelFirstNoDup | src/cir/cirGate.cpp:141-145 | on a duplicate-free list, erasing `p` removes exactly `p` and keeps the list duplicate-free |
| Lists.DelFirstIn | src/cir/cirGate.cpp:141-145 | erasing never adds an element and keeps every element other than `p` |
| Lists.ChangeFirstEffect | src/cir/cirGate.cpp:131-139 | with no `from` nothing changes; with `from != to` the length is kept and `to` is present; with `from == to` the entry is erased |
| Lists.ChangeFirstKeeps | src/cir/cirGate.cpp:131-139 | every element other than `from` survives a first-match replace |
| Lists.ChangeFirstFrom | src/cir/cirGate.cpp:131-139 | whatever is present after a first-match replace was present before or is `to` |
| CirGate.FloatWordRoundTrip | src/cir/cirGate.h:66-76 | a floating edge built from literal `L` reads back as floating, not inverted, with literal `L` |
| CirGate.LiveWordRoundTrip | src/cir/cirGate.h:65-76 | a live edge to gate `id` with sign `s` reads back as not floating, with `gate() == id`, `isInv() == s` and literal `2 * id + s` |
| CirGate.WordLiteralIsLiteral | src/cir/cirGate.h:72-76 | `literal()` computed from the packed word agrees with the edge's literal, and `isFlt()` holds exactly for floating edges |
| CirGate.WordInjective | src/cir/cirGate.h:68 | two words are equal exactly when the edges are equal, so edges to one gate with different polarity differ |
| CirGate.NewGateShapes | src/cir/cirGate.h:112-216 | an AIG starts with exactly two floating fanins `input1`, `input2`, a PO with one, PI and CONST with none; the constant has id 0; no gate starts with a fanout |
| Topology.AddFanout | src/cir/cirGate.cpp:119-127 | returns false and changes nothing when `p` is present; otherwise the list is sorted and gains exactly `p` |
| Topology.AddedFanoutFacts | src/cir/cirGate.cpp:119-127 | the new list holds exactly the old entries and `p`, and stays duplicate-free |
| Topology.DelFanout | src/cir/cirGate.cpp:141-145 | one occurrence of `p` is removed if present; otherwise nothing changes |
| Topology.ChangeFanin | src/cir/cirGate.cpp:131-139 | with no `from` nothing changes; otherwise the first `from` becomes `to` (or is erased when equal), other entries are kept |
| Topology.Floating | src/cir/cirGate.cpp:216-221 | true exactly when some fanin is a floating literal |
| Topology.CheckOpt | src/cir/cirGate.cpp:204-214 | `X_0` iff fanin 0's literal is 0, `X_1` iff it is 1, `X_X`/`X_nX` iff the literals share an id, otherwise `X_Y` |
| Topology.CheckOptSound | src/cir/cirGate.cpp:204-214 | what each class means: under any assignment with constant 0 false, `X_0` and `X_nX` gates are false, `X_1` equals its second input and `X_X` its first |
| Topology.ClearFanin | src/cir/cirGate.cpp:109-117 | only fanout lists change; each live fanin child `(x, s)` no longer lists `(me, s)` in its fanout |
| Topology.ClearStepsEffect | src/cir/cirGate.cpp:109-117 | the fanin loop removes from each child's fanout exactly the entries `(me, s)` of the fanins `(x, s)`, and nothing else |
| Topology.RemoveUnusedKeepsConsistent | src/cir/cirOpt.cpp:79-88 | detaching an unused gate and dropping it from the table keeps fanin/fanout consistency |
| Topology.MergeFaninEffect | src/cir/cirGate.cpp:152-158 | the fanin loop of `mergeInto` changes only fanout lists: each child now lists `(host, s)` in place of `(me, s)`, and the other gates are untouched |
| Topology.RedirectFacts | src/cir/cirGate.cpp:131-139 | a redirect adds only `to`, keeps every other entry, puts `to` in when `from` was present and, in the every-entry variant, leaves no `from` |
| Topology.RedirectFanin | src/cir/cirGate.cpp:131-139 | the every-entry variant of `changeFanin`: same length, no `from` left, every other entry kept |
| Topology.RewireShape | src/cir/cirGate.cpp:159-165 | the fanout loop changes only edges, keeps fanouts duplicate-free, and changes only the target's fanout and the referrers' fanins |
| Topology.RewireFanins | src/cir/cirGate.cpp:159-165 | the fanout loop adds fanin edges only to the target, keeps every other fanin edge, and gives each referrer its new fanin |
| Topology.RewireEvery | src/cir/cirGate.cpp:159-165 | with every matching entry rewritten, no referrer keeps an edge to the replaced gate |
| Topology.EntriesHost | src/cir/cirGate.cpp:159-165 | the host's fanout is given exactly the live fanout entries of the merged gate |
| Topology.MergeLoops | src/cir/cirGate.cpp:147-166 | the two loops of `mergeInto` compute the merged table |
| Topology.MergedShape | src/cir/cirGate.cpp:147-166 | `mergeInto` changes edges only and keeps fanout lists duplicate-free |
| Topology.MergedFanouts | src/cir/cirGate.cpp:152-158 | every gate other than the host loses exactly the fanout entries `(me, s)` from its fanins and gains `(host, s)` |
| Topology.MergedHostTakesOver | src/cir/cirGate.cpp:159-165 | every live referrer entry of the merged gate appears in the host's fanout |
| Topology.MergedFanins | src/cir/cirGate.cpp:159-165 | `mergeInto` adds fanin edges only to the host and removes only edges to the merged gate |
| Topology.MergedRedirects | src/cir/cirGate.cpp:159-165 | a referrer whose fanin held `(me, s)` now holds `(host, s)` |
| Topology.MergeIntoAsWritten | src/cir/cirGate.cpp:147-166 | the source's `mergeInto`, with first-match `changeFanin`: edges only change and fanouts stay duplicate-free |
| Topology.MergeInto | src/cir/cirGate.cpp:147-166 | the corrected merge: as above, and no referrer keeps any edge `(me, s)` |
| Topology.MergedEvery | src/cir/cirGate.cpp:159-165 | with every-entry redirect, no referrer named in the fanout keeps an edge to the merged gate |
| Topology.MergedLeavesNoEdgeToMe | src/cir/cirGate.cpp:147-166 | on a consistent table, after the corrected merge no gate except the merged one has a fanin edge to it |
| Topology.SelfMergeTwin | src/cir/cirGate.cpp:159-165 | as written, merging a PI into itself erases one of the two fanins of an AND gate that reads it twice |
| Topology.MergeAsWrittenLeavesEdge | src/cir/cirGate.cpp:159-165 | as written, merging a PI that feeds both inputs of an AND gate into another PI leaves the AND with an edge to the merged PI |
| Topology.ReplaceByConst | src/cir/cirGate.cpp:168-179 | the loops of `replaceByConst` compute the specified table (whose effect `ReplacedByConstEffect` states); edges only change and fanouts stay duplicate-free |
| Topology.ReplacedByConstShape | src/cir/cirGate.cpp:168-179 | `replaceByConst` changes edges only and keeps fanouts duplicate-free |
| Topology.ReplacedByConstEffect | src/cir/cirGate.cpp:168-179 | each referrer now holds `(c, sign)`; only `c` gains fanin edges; the constant's fanout only loses `me`'s entries and gains none |
| Topology.FaninRewireLoop | src/cir/cirGate.cpp:188-199 | the fanout loop of `replaceByFanin` computes the specified rewiring |
| Topology.ReplaceByFaninAsWritten | src/cir/cirGate.cpp:181-202 | the source's `replaceByFanin`: edges only change and fanouts stay duplicate-free |
| Topology.ReplaceByFanin | src/cir/cirGate.cpp:181-202 | the corrected version: each referrer `(x, s)` reads `(c, s xor signIn)` and `c`'s fanout lists `(x, s xor signIn)` |
| Topology.ReplacedByFaninShape | src/cir/cirGate.cpp:181-202 | `replaceByFanin` changes edges only and keeps fanouts duplicate-free |
| Topology.ReplacedByFaninRewires | src/cir/cirGate.cpp:188-199 | each referrer gets the new fanin edge, and the kept child's fanout gains `(x, s xor signIn)` |
| Topology.ReplaceByFaninDropsPolarity | src/cir/cirGate.cpp:194-198 | as written, with a non-inverted kept fanin, a PO reading the gate inverted ends up reading the child non-inverted while the child's fanout records it inverted |
| Topology.LinkLiteral | src/cir/cirGate.h:124-127 | the live edge built from literal `lit` carries `lit`, and a live edge's literal gives back its id and polarity |
| Topology.LinkStep | src/cir/cirGate.h:124-129 | linking one fanin keeps the table's ids, the gate's kind, its fanin count and every fanin literal |
| Topology.LinkStepEffect | src/cir/cirGate.h:124-129 | if gate `lit / 2` exists, the fanin becomes `(lit / 2, lit % 2)` and that gate's fanout gains `(me, lit % 2)`; otherwise nothing changes |
| Topology.LinkStepConsistent | src/cir/cirGate.h:124-129 | one linking step keeps fanin/fanout consistency |
| Topology.ConnectLinks | src/cir/cirGate.h:123-136 | `connectLinks` keeps every fanin literal and the fanin count, and is a no-op on PI and CONST gates |
| Topology.LinkedEffect | src/cir/cirGate.h:123-136 | `connectLinks` keeps consistency and links each fanin whose gate exists, registering the matching fanout |
| Topology.LinkedAigEffect | src/cir/cirGate.h:123-136 | for an AIG, both fanins end up linked: the second step does not undo the first |
| HashMapModel.HashMap.constructor | src/util/myHashMap.h:42 | a new map has `b` empty buckets and holds nothing |
| HashMapModel.HashMap.Init | src/util/myHashMap.h:120-121 | `init(b)` starts over with `b` fresh empty buckets |
| HashMapModel.HashMap.BucketNum | src/util/myHashMap.h:222-223 | the bucket of a key is `k % numBuckets`, within range |
| HashMapModel.HashMap.Clear | src/util/myHashMap.h:126-128 | `clear()` keeps the buckets and empties the map |
| HashMapModel.HashMap.Empty | src/util/myHashMap.h:154-158 | `empty()` is true exactly when the map holds no entry |
| HashMapModel.HashMap.Size | src/util/myHashMap.h:160-164 | `size()` is the number of keys, which is the sum of the bucket lengths |
| HashMapModel.HashMap.Check | src/util/myHashMap.h:169-174 | `check(k)` is true exactly when `k` is a key |
| HashMapModel.HashMap.Query | src/util/myHashMap.h:179-184 | `query` finds `k` exactly when present and then yields its data; on a miss `d` is unchanged |
| HashMapModel.HashMap.Update | src/util/myHashMap.h:189-195 | `update` returns whether `k` existed, maps `k` to `d`, and the size grows by one exactly when `k` was new |
| HashMapModel.HashMap.Insert | src/util/myHashMap.h:198-203 | `insert` refuses a present key and leaves the buckets unchanged; otherwise it adds `k` and the size grows by one |
| HashMapModel.HashMap.Remove | src/util/myHashMap.h:207-215 | `remove` returns whether `k` was present, deletes exactly that key, and keeps every other entry |
| HashMapModel.WfOverwrite | src/util/myHashMap.h:189-192 | overwriting the entry keyed `k` keeps the bucket invariant and is an update of the abstract map |
| HashMapModel.WfAppend | src/util/myHashMap.h:193-201 | appending a fresh key to bucket `k % n` keeps every entry in its own bucket with distinct keys, and adds one key |
| HashMapModel.WfErase | src/util/myHashMap.h:207-213 | erasing the entry keyed `k` keeps the bucket invariant and removes exactly `k` |
| HashMapModel.WfMiss | src/util/myHashMap.h:169-174 | scanning bucket `k % n` without meeting `k` proves `k` absent |
| HashMapModel.WfHit | src/util/myHashMap.h:179-184 | any entry met in a bucket is an entry of the abstract map |
| HashMapModel.TotalLenZero | src/util/myHashMap.h:154-164 | the summed bucket length is zero exactly when every bucket is empty |
| HashMapModel.Cache.constructor | src/util/myHashMap.h:253 | a new cache has `s` slots, each the default node (key 0, default data), so only key 0 reads as a hit |
| HashMapModel.Cache.Init | src/util/myHashMap.h:261 | `init(s)` allocates `s` fresh default nodes (key 0, default data): a read of key 0 hits with the default data and every other key misses |
| HashMapModel.Cache.Read | src/util/myHashMap.h:270-277 | `read` hits exactly when slot `k % size` holds `k`, and then yields its data; on a miss `d` is kept |
| HashMapModel.Cache.Write | src/util/myHashMap.h:279-283 | `write` overwrites slot `k % size` only; a following read of `k` hits with `d`, and keys of other slots read as before |
| Sim.GetSimValue | src/cir/cirSim.cpp:77-102 | for a gate whose simulation meets no PO with a floating fanin (`Defined`), returns the gate's true value under AND/invert semantics; a gate marked this epoch returns its memo with no state change; CONST gives 0; afterwards the gate is marked with that value and every memo stays sound |
| Sim.ComputeSimValue | src/cir/cirSim.cpp:82-101 | the uncached branch computes the true value and only fills in memos |
| Sim.SimOperand | src/cir/cirSim.cpp:88-97 | an AND operand is 0 for a floating fanin, else the fanin's value, complemented when inverted |
| Sim.ValueAgree | src/cir/cirSim.cpp:100-101 | filling in memo fields never changes any gate's value, so memoisation is sound |
| Sim.MarkSound | src/cir/cirSim.cpp:100-101 | marking a gate with its true value keeps every memo sound |
| Sim.ClassMembers | src/cir/cirSim.cpp:59-64 | a class holds exactly the group members whose pattern has that key |
| Sim.ClassesAreClass | src/cir/cirSim.cpp:57-66 | the map built from a group has an entry for a key exactly when its class is non-empty, and that entry is the class |
| Sim.AddMember | src/cir/cirSim.cpp:60-65 | a found group gets the member appended; otherwise a new one-member group is inserted |
| Sim.GroupByValue | src/cir/cirSim.cpp:57-66 | for a group whose members are `Defined`, the first loop builds, in a fresh map, exactly the classes of the group by simulated value |
| Sim.GroupStep | src/cir/cirSim.cpp:59-65 | one member extends the map to the classes of the prefix through it |
| Sim.KeptGroups | src/cir/cirSim.cpp:67-70 | the iterator loop keeps exactly the groups of size above one, in bucket order |
| Sim.KeptBucket | src/cir/cirSim.cpp:67-70 | the entries of one bucket extend the kept list by its groups of size above one |
| Sim.KeptMembers | src/cir/cirSim.cpp:67-70 | the groups kept are exactly the data of size above one |
| Sim.FlattenIsMap | src/cir/cirSim.cpp:67 | visiting a well-formed bucket array meets exactly the entries of the map |
| Sim.KeptAreClasses | src/cir/cirSim.cpp:55-70 | every kept group has two or more members and is the class of its first member within the old group |
| Sim.ClassesAreKept | src/cir/cirSim.cpp:59-70 | every class of two or more members is kept |
| Sim.DivideGroup | src/cir/cirSim.cpp:56-71 | one old group of `Defined` members yields exactly its classes of size two or more, and only memos change |
| Sim.DivideFEC | src/cir/cirSim.cpp:49-75 | with every member of every old group `Defined` (other gates, such as a PO reading an undefined literal, are unconstrained), each new group has two or more members sharing one value and is a class of one old group; every such class is kept |
| Sim.FloatingOutputAside | src/cir/cirSim.cpp:84-86 | a PO reading an undefined literal does not stop the other gates from being simulated: a group of an AND and its input still meets the requirements of `divideFEC` |
| Build.StoredKeys | src/cir/cirMgr.cpp:181-212 | after the creation loops, the table holds the old ids and exactly the ids written |
| Build.StoredLast | src/cir/cirMgr.cpp:181-212 | each id holds the gate of the last line that used it |
| Build.StoredFrom | src/cir/cirMgr.cpp:181-212 | each id holds its old gate or the gate of some line with that id |
| Build.EntryAt | src/cir/cirMgr.cpp:179-212 | input `k` becomes PI `c / 2` on line `k + 2`, output `j` becomes PO `M + j + 1`, AND line `j` becomes AIG `lhs / 2` with fanins `rhs0`, `rhs1` |
| Build.InputAt | src/cir/cirMgr.cpp:181-189 | input `k` creates PI `c / 2` on line `k + 2` |
| Build.OutputAt | src/cir/cirMgr.cpp:191-199 | output `j` creates PO `M + j + 1` reading its literal |
| Build.AndAt | src/cir/cirMgr.cpp:202-212 | AND line `j` creates AIG `lhs / 2` reading `rhs0` and `rhs1` |
| Build.BuiltGate | src/cir/cirMgr.cpp:176-212 | each gate of the built table is the constant at 0 or a gate of its kind's id list, with floating fanins only and no fanout |
| Build.BuiltFacts | src/cir/cirMgr.cpp:176-212 | the table before linking is consistent, has the constant at 0, and holds every listed id |
| Build.PlaceOutputStep | src/cir/cirMgr.cpp:191-199 | one pass of the output loop stores the next PO and appends its id |
| Build.LinkAll | src/cir/cirMgr.cpp:215-216 | linking a list of gates keeps every gate's kind, id, line and fanin literals |
| Build.LinkStepSame | src/cir/cirGate.h:124-129 | one linking step keeps every gate's kind, id, line and literals |
| Build.LinkedShape | src/cir/cirGate.h:123-136 | `connectLinks` keeps every gate's kind, id, line and literals |
| Build.LinkStepResolves | src/cir/cirGate.h:124-129 | after linking fanin `i`, it is what its literal resolves to |
| Build.LinkedResolves | src/cir/cirGate.h:123-136 | `connectLinks` keeps consistency, resolves its gate, and keeps resolved gates resolved |
| Build.LinkAllResolves | src/cir/cirMgr.cpp:215-216 | linking a list keeps consistency and resolves every listed gate |
| Build.LinkingResolves | src/cir/cirMgr.cpp:213-216 | after both linking loops, AIGs then POs, the table is consistent and every fanin is live exactly when its gate exists |
| Build.LinkedEntry | src/cir/cirMgr.cpp:179-216 | the gate of the last line using an id survives linking with that line's kind, id, line number and literals |
| Build.OutputLinked | src/cir/cirMgr.cpp:191-216 | output `k`, if no AND line reuses its id, reads its literal after linking |
| Build.AndLinked | src/cir/cirMgr.cpp:202-216 | AND line `k`, if no later line reuses its id, survives as gate `lhs / 2` reading `rhs0`, `rhs1` |
| Build.ListedKinds | src/cir/cirMgr.cpp:202-216 | every listed AIG id holds an AIG after reading, and every listed PO id holds a PO or an AIG |
| Build.LinkedFloating | src/cir/cirGate.h:123-136 | after linking, a gate has a floating fanin exactly when one of its literals names a missing gate |
| Build.NamedBy | src/cir/cirMgr.cpp:224-235 | a gate is named exactly when some symbol line names it by position; the last such line's name wins |
| Cir.UnusedIdsMembers | src/cir/cirOpt.cpp:160-169 | the ids collected are exactly the listed gates with an empty fanout |
| Cir.FloatingIdsMembers | src/cir/cirOpt.cpp:143-152 | the ids collected are exactly the listed gates with a floating fanin |
| Cir.AppendUnused | src/cir/cirOpt.cpp:166-169 | one loop of `setUnUsedList` appends the unused listed gates in order |
| Cir.AppendFloating | src/cir/cirOpt.cpp:143-146 | one loop of `setFloatingList` appends the floating listed gates in order |
| Cir.WithUnusedEffect | src/cir/cirOpt.cpp:156-171 | `setUnUsedList` changes only that list, which is sorted and holds its old ids plus the unused AIGs and, unless `AigOnly`, unused PIs |
| Cir.WithFloatingEffect | src/cir/cirOpt.cpp:139-154 | `setFloatingList` changes only that list, which is sorted and holds its old ids plus floating AIGs and, unless `AigOnly`, floating POs |
| Cir.RebuiltLists | src/cir/cirOpt.cpp:48-51 | both lists rebuilt from empty are the sorted unused PIs and AIGs and the sorted floating AIGs and POs; nothing else changes |
| Cir.UnlistedEffect | src/cir/cirOpt.cpp:118-127 | only one occurrence of the id leaves `_AigList`, and `_A` drops exactly when it was found |
| Cir.RemovedEffect | src/cir/cirOpt.cpp:78-88 | refused exactly for a missing or non-AIG gate, then nothing changes; otherwise exactly that gate leaves the table and the other gates change only in their fanouts |
| Cir.RemovedShrinks | src/cir/cirOpt.cpp:84-85 | removal keeps kinds, and a gate that was unused stays unused |
| Cir.RemovedConsistent | src/cir/cirOpt.cpp:78-88 | removing an unused AIG from a consistent table keeps it consistent |
| Cir.MergedGateEffect | src/cir/cirOpt.cpp:90-99 | refused exactly when a gate is missing or the two are the same, and then nothing changes; otherwise `from` leaves the table and, on a consistent table, nothing reads it |
| Cir.SelfMergeStrandsReferrer | src/cir/cirOpt.cpp:90-99 | as written, `mergeGate(1, 1)` succeeds, deletes gate 1, and leaves an AND gate with one fanin, which is an edge to the deleted gate |
| Cir.AppendedCovers | src/cir/cirOpt.cpp:46 | re-appending the unused AIGs makes the list cover every unused AIG and keeps it sound |
| Cir.ClearPassNoUnused | src/cir/cirOpt.cpp:37-46 | a pass that removes nothing over a covering list shows no unused AIG is left |
| Cir.StrashKeyInjective | src/cir/cirFraig.cpp:43 | two gates have the same strash key exactly when their fanin literals agree in order |
| Cir.HashStepReps | src/cir/cirFraig.cpp:41-48 | one iteration on a new id keeps `Reps`: only AIGs met leave the table, the other gates keep their kinds, every map entry names a surviving AIG met so far, and an AIG met survives exactly when some entry names it |
| Cir.HashedReps | src/cir/cirFraig.cpp:40-49 | `Reps` over the whole walk: only AIGs met were removed, every map entry names a surviving AIG, and an AIG met survives exactly when it is a representative (the key relation is `Cir.StrashRepresentatives`) |
| Cir.HashedGrows | src/cir/cirFraig.cpp:43-47 | an entry of the strash map, once made, is never changed: the map after `i` ids is a submap of the map after any later prefix |
| Cir.HashedKeys | src/cir/cirFraig.cpp:43-47 | after `n` ids the map has an entry for exactly the keys some AIG reached so far had, and each entry names the first AIG that had that key |
| Cir.StrashRepresentatives | src/cir/cirFraig.cpp:40-49 | for each AIG reached, with its key as it stands when reached: the key is in the final map; the AIG is that key's representative exactly when no earlier AIG had the key, and then its iteration changes nothing; otherwise its iteration merges it into the representative; every entry names the first AIG with its key |
| Cir.ReadCircuitEffect | src/cir/cirMgr.cpp:155-238 | reading gives a consistent table with the constant at 0, every fanin resolved, the header counts and the id lists of the records, and the sorted floating and unused lists |
| Cir.ReadPlacesGates | src/cir/cirMgr.cpp:179-212 | the gate of the last line using an id keeps its kind, id, line number and literals |
| Cir.ReadTable | src/cir/cirMgr.cpp:164-216 | the table, id lists and header after reading are those built from the records |
| Cir.ReadNames | src/cir/cirMgr.cpp:224-235 | after reading, a gate is named exactly when a symbol line names its position, with the last such name |
| Cir.UsedIdsMembers | src/cir/cirMgr.cpp:324-326 | the AIGs written are exactly the listed AIGs with a non-empty fanout, without repeats |
| Cir.SymLinesMembers | src/cir/cirMgr.cpp:343-350 | a symbol line is written for position `k` exactly when gate `ids[k]` has a non-empty name, in position order |
| Cir.WrittenShape | src/cir/cirMgr.cpp:320-350 | the header AND count is the number of used AIGs, whose lines are written in `_AigList` order; the record counts match the header |
| Cir.ReadIsWriteReady | src/cir/cirMgr.cpp:320-340 | a circuit just read can be written |
| Cir.WriteAfterReadHeader | src/cir/cirMgr.cpp:328-331 | writing a circuit just read gives back its header counts and its even input literals |
| Cir.WriteAfterReadOutputs | src/cir/cirMgr.cpp:332 | writing a circuit just read gives back each output literal whose id no AND line reused |
| Cir.WriteAfterReadAnds | src/cir/cirMgr.cpp:335-340 | writing a circuit just read gives back every used AND line whose id no later line reused |
| Cir.BuildTable | src/cir/cirMgr.cpp:176-216 | the creation and linking loops compute the linked table and the three id lists |
| Cir.PlaceGates | src/cir/cirMgr.cpp:176-212 | the creation loops compute the table before linking and the id lists |
| Cir.PlaceInputs | src/cir/cirMgr.cpp:179-189 | the input loop stores each PI `c / 2` and lists it in input order |
| Cir.PlaceOutputs | src/cir/cirMgr.cpp:191-199 | the output loop stores PO `M + i` reading its literal and lists it |
| Cir.PlaceAnds | src/cir/cirMgr.cpp:201-212 | the AND loop stores each AIG `lhs / 2` and lists it |
| Cir.PlaceAnd | src/cir/cirMgr.cpp:203-211 | one pass of the AND loop |
| Cir.LinkList | src/cir/cirMgr.cpp:215-216 | one linking loop is `connectLinks` on each listed gate in turn |
| Cir.NameSymbols | src/cir/cirMgr.cpp:224-235 | the symbol loop computes the position-based naming |
| Cir.WriteRecords | src/cir/cirMgr.cpp:320-353 | the loops of `writeAag` compute the written records |
| Cir.CollectUsed | src/cir/cirMgr.cpp:324-326 | `DFSAigList` holds the listed AIGs with a non-empty fanout |
| Cir.WriteInputs | src/cir/cirMgr.cpp:331 | each PI is written as `2 * id` |
| Cir.WriteOutputs | src/cir/cirMgr.cpp:332 | each PO is written as its fanin literal |
| Cir.WriteAnds | src/cir/cirMgr.cpp:335-340 | each used AIG is written as `2 * id`, then its two fanin literals |
| Cir.WriteSymbols | src/cir/cirMgr.cpp:343-350 | the symbol loop writes the non-empty names by position |
| Cir.CirMgr.GetSymb | src/cir/cirOpt.cpp:129-135 | the recorded name, or `""` when none is recorded |
| Cir.CirMgr.RemoveFromAigList | src/cir/cirOpt.cpp:118-127 | reports whether the id was listed; the new state erases its first occurrence and decrements `_A` only then |
| Cir.CirMgr.FreeGate | src/cir/cirOpt.cpp:111-116 | the gate leaves `_AigList` and the gate table |
| Cir.CirMgr.RemoveGate | src/cir/cirOpt.cpp:78-88 | the result and new state are those of `removeGate`, whose properties are proved in `RemovedEffect` |
| Cir.CirMgr.MergeGate | src/cir/cirFraig.cpp:54-62 | refuses a self-merge with no change; otherwise rewires through the corrected `mergeInto` (every matching fanin of a referrer redirected) and frees `from` |
| Cir.CirMgr.MergeGateById | src/cir/cirOpt.cpp:90-99 | the result and new state of `mergeGate(idfrom, idto)`, with the self-merge refused and the corrected `mergeInto` |
| Cir.CirMgr.SetUnUsedList | src/cir/cirOpt.cpp:156-171 | the new state is the old one with the unused list extended and sorted |
| Cir.CirMgr.SetFloatingList | src/cir/cirOpt.cpp:139-154 | the new state is the old one with the floating list extended and sorted |
| Cir.CirMgr.TryRemoveAt | src/cir/cirOpt.cpp:40-44 | one step of a pass: a removed entry is erased from the list; a refused one is kept |
| Cir.CirMgr.SweepPass | src/cir/cirOpt.cpp:39-45 | a pass only removes AIGs; if it removes one the table shrinks; if none, nothing changed and no listed gate is removable; consistency is kept |
| Cir.CirMgr.SweepRound | src/cir/cirOpt.cpp:37-47 | a round either shrinks the table or, when clear, shows no unused AIG is left; the list then covers every unused AIG |
| Cir.CirMgr.SweepRounds | src/cir/cirOpt.cpp:36-47 | the loop terminates and removes only AIGs; when the unused list covered every unused AIG on entry, none is left unused; when the table was consistent with a sound unused list, it stays consistent |
| Cir.CirMgr.Sweep | src/cir/cirOpt.cpp:33-52 | `sweep` removes only AIGs and rebuilds both lists from scratch; when the unused list covered every unused AIG on entry, none is left unused; when the table was consistent with a sound unused list, it stays consistent |
| Cir.CirMgr.HashGate | src/cir/cirFraig.cpp:41-48 | one iteration of `strash`, merging with the corrected `mergeInto`; every representative stays a gate met so far |
| Cir.CirMgr.Strash | src/cir/cirFraig.cpp:34-52 | the new state is the hashing walk `Hashed` along the DFS order, merging with the corrected `mergeInto`, then a rebuilt floating list; what the walk does with each AIG is `Cir.StrashRepresentatives` |
| Cir.CirMgr.StrashStep | src/cir/cirFraig.cpp:41-48 | the loop invariant: after `i` ids, the state and the map are those of the walk over that prefix |
| Cir.CirMgr.DivideFEC | src/cir/cirSim.cpp:49-75 | with every FEC member `Defined`, only memos and the FEC list change; each new group is a class of two or more of one old group, and every such class is kept |
| Cir.CirMgr.WriteAag | src/cir/cirMgr.cpp:320-353 | the records written are those specified by `Written`, whose shape `WrittenShape` proves |
| Cir.CirMgr.ReadCircuit | src/cir/cirMgr.cpp:155-238 | a new manager whose state is the one read from the records, as `ReadCircuitEffect` characterises it |

## Left out

- File and stream I/O: opening the file, `getline`/`stringstream` tokenising, and the `return false` on a failed open in `readCircuit`. The model reads and writes records (`Build.Aag`).
- The `c` comment line and the author line at the end of `writeAag`.
- All `cout` and `cerr` reporting, including the "removed", "Strashing" and "Simplifying" messages.
- The empty stubs `randomSim`, `fileSim`, `fraig`, `printFECPairs` and `writeGate`: they have no behaviour to state.
- `CirMgr::optimize`: its body is truncated and does not compile. Its decision table is `Topology.CheckOpt`.
- `replaceGate`: it calls an undefined `replaceBy`. `replaceByConst` and `replaceByFanin` are modelled directly.
- The SAT solver is not part of this model.
- HashMap iterators, `begin`, `end` and `operator=`. `divideFEC`'s walk over the map is modelled as a visit of the buckets in order (`Sim.Flatten`).
- Memory management: `delete`, destructors and `reset`.
- Raw pointer tagging: an edge names its gate by id, and the word is the arithmetic stand-in `id * 8 + sign`.
- CirGate.Word: ids and literals are unbounded naturals, so 32-bit `unsigned` and `size_t` overflow are not modelled.
- Cir.StrashKey: `getStrashKey` is undefined; the key is the Cantor pairing of the two fanin literals, an injective stand-in.
- Cir.CirMgr.Strash: `getHashSize` is undefined, so the bucket count is the parameter `nb`. `_dfsList` is never filled, so the DFS order is the parameter `dfs`, required to be without repeats.
- Cir.CirMgr.DivideFEC: the source's sub-group map is default-constructed with zero buckets, so `bucketNum` would take a remainder by zero. The model takes a bucket count `nb > 0` instead.
- Sim.GetSimValue: the static epoch `_markFlagRef` and the `cirMgr` singleton become the parameters `epoch` and `net`.
- Sim.GetSimValue requires PIs to be marked in the current epoch. Without that, the source would read `_fanin[0]` of a PI, which has no fanin.
- Sim.GetSimValue requires the table to be acyclic through fanins (a ghost `rank`) and the queried gate to be `Defined`: simulating it meets no PO with a floating fanin, which the source would dereference as a gate. Gates it does not reach are unconstrained.
- Sim.GetSimValue requires `MemoSound`: every gate marked in the current epoch holds its true value. The source does not guarantee this. `printNetlist`, `reportFanin` and `reportFanout` advance the epoch and mark the gates they visit without setting their values, so a later `getSimValue` in that epoch returns a stale value. Printing and reporting are not part of this model.
- Sim.GroupByValue requires `MemoSound` and `Defined` members, for the same reasons as Sim.GetSimValue.
- Sim.DivideGroup requires `MemoSound` and `Defined` members, for the same reasons as Sim.GetSimValue.
- Sim.DivideFEC requires `MemoSound` and `Defined` members of every old group, for the same reasons as Sim.GetSimValue.
- Cir.CirMgr.DivideFEC requires `MemoSound` and `Defined` FEC members, for the same reasons as Sim.GetSimValue.
- Sim.GetSimValue: a PO's value is its fanin gate's value without the edge's inversion, as the code has it.
- Cir.CirMgr.ReadCircuit requires `WellFormed`: the header counts match the records, and symbol positions are in range. The source would index `_PIList` or `_POList` out of bounds otherwise.
- Cir.CirMgr.WriteAag requires `WriteReady`: every listed AIG and PO exists and has its fanins. The source reads them without a check.
- Topology.MergeInto, Topology.MergeIntoAsWritten: require `me != host`. The self-merge is stated on the specification function (`Topology.SelfMergeTwin`) and at the manager level (`Cir.SelfMergeStrandsReferrer`).
- Topology.ReplaceByConst requires `me != c`.
- Topology.ReplaceByFanin and Topology.ReplaceByFaninAsWritten require the kept fanin to be live, because the source calls `gate()` on it.
- Cir.CirMgr.MergeGate requires both gates in the table: the pointer overload is only called with existing gates.
- Topology.MergeFaninStep: a floating fanin of the merged gate is skipped. The source's fanin loop in `mergeInto` has no floating test, so it dereferences the tagged literal word as a gate pointer, which is undefined behaviour.
- Topology.MergeLoops: skips the merged gate's floating fanins, where the source dereferences them (see Topology.MergeFaninStep).
- Topology.MergeIntoAsWritten: skips the merged gate's floating fanins, where the source dereferences them (see Topology.MergeFaninStep).
- Topology.MergeInto: skips the merged gate's floating fanins, where the source dereferences them (see Topology.MergeFaninStep).
- Cir.CirMgr.MergeGate: skips the merged gate's floating fanins, where the source dereferences them (see Topology.MergeFaninStep).
- Cir.CirMgr.MergeGateById: skips the merged gate's floating fanins, where the source dereferences them (see Topology.MergeFaninStep).
- Cir.CirMgr.HashGate: an id missing from the table is passed over, where the source calls `isAig()` on the null pointer `getGate` returns. A merged AIG's floating fanins are skipped, where the source dereferences them.
- Cir.CirMgr.Strash: ids of `dfs` missing from the table are passed over, and merged AIGs' floating fanins are skipped; the source dereferences both (see Cir.CirMgr.HashGate).
- Cir.CirMgr.SetUnUsedList: a listed id missing from the table is passed over, where the source calls `unUsed()` on the null pointer `getGate` returns. A repeated AIG id reaches this: two AND lines with the same lhs list the id twice, `sweep` frees the gate and erases one occurrence, and the `setUnUsedList` at the end of `sweep` meets the other. `strash` and `readCircuit` rebuild the lists the same way.
- Cir.CirMgr.SetFloatingList: a listed id missing from the table is passed over, where the source calls `floating()` on the null pointer `getGate` returns (see Cir.CirMgr.SetUnUsedList).
- Cir.AppendUnused: passes over a listed id missing from the table, where the source dereferences `getGate`'s null result (see Cir.CirMgr.SetUnUsedList).
- Cir.AppendFloating: passes over a listed id missing from the table, where the source dereferences `getGate`'s null result (see Cir.CirMgr.SetUnUsedList).
- Cir.HashedReps: it does not relate keys to representatives; `Cir.StrashRepresentatives` does. Keys are taken as they stand when each AIG is reached: a merge can rewire the fanins of a later AIG, and so change its key, and a representative's key can change the same way after it is recorded. Neither lemma states that the final table has no two AIGs with equal keys.
- Compile defects are modelled by evident intent:
  - the stray `void`, the missing `;` and `->pop_back` in `divideFEC`;
  - `freeGate` and `removeFromAigList` written as free functions, with `freeGate` missing its return;
  - `CirGate* temp, host;` in `strash`, which declares `host` as a gate object rather than a pointer;
  - `_gateList[id] = gate` in `readCircuit`, where `HashMap::operator[]` returns a bucket, not a data slot; the model stores the gate under its id.
  - `::sort` of a fanout list in `addFanout`, where the edge type defines `operator==` but no `operator<`; the model orders edges by their word `id * 8 + sign`;
  - `HashMap<unsigned, ...>` in `divideFEC`, whose `bucketNum` calls `k()` on an `unsigned`; the model hashes an `unsigned` key to itself.
- Cir.CirMgr.TryRemoveAt: `sweep` calls `_unUsedList.erase(it)` without taking the iterator it returns, so the source goes on with an invalidated iterator. The model reads this by evident intent: after an erase the walk stays at the same index, which now holds the next entry.
- The gate table is a map from id to gate, the abstract view of the source's `HashMap<ID, CirGate*>`.
- `_L` (latches) is carried in the header only.

## Findings

| source | as written | input that shows it | evidently intended | confidence | as-written member | corrected member |
|---|---|---|---|---|---|---|
| src/cir/cirGate.cpp:159-165 | `mergeInto` redirects each referrer with `changeFanin`, which rewrites only the first matching fanin. The referrer is listed once in the fanout, because `addFanout` refuses duplicates. | PI 1 feeds both inputs of AND gate 3, and PI 1 is merged into PI 2. Gate 3 keeps an edge to PI 1. | every fanin edge `(me, s)` of a referrer becomes `(host, s)` | not executed | Topology.MergeAsWrittenLeavesEdge | Topology.MergedLeavesNoEdgeToMe |
| src/cir/cirGate.cpp:194-198 | with a non-inverted kept fanin, each referrer's edge becomes the stored fanin edge `(c, 0)`, whatever the referrer's polarity | AND gate 2 reads `(1, 0)` twice and PO 3 reads `!2`. After `replaceByFanin(0)` on gate 2, PO 3 reads `(1, 0)`, while PI 1's fanout records `(3, 1)`. | a referrer `(x, s)` reads `(c, s xor signIn)`, and `c`'s fanout records the same polarity | not executed | Topology.ReplaceByFaninDropsPolarity | Topology.ReplacedByFaninRewires |
| src/cir/cirOpt.cpp:90-99 | `mergeGate(idfrom, idto)` accepts `idfrom == idto`, so the gate is merged into itself and then freed | `mergeGate(1, 1)` where PI 1 feeds both inputs of AND gate 3. It succeeds, deletes PI 1, and leaves gate 3 with a single fanin, an edge to the deleted gate. | refuse a self-merge, as the pointer overload does at src/cir/cirFraig.cpp:57 | not executed | Cir.SelfMergeStrandsReferrer | Cir.MergedGateEffect |
