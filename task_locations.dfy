/**
  Workload-management task-buffer locations (the ResolveWLMTaskLocation pass):
  for one task type on one tile, a pool of `2 * groupSize` task buffers is
  declared and the execution groups take turns, ping-pong fashion, on its two
  halves; inside a group, tasks of that type take consecutive slots.
  An execution group is modelled by the sequence of task types of its ops.
*/
module TaskLocations {
  import opened Wrappers

  datatype TaskType =
    | DPUInvariant
    | DPUVariant
    | ActKernelInvocation
    | ActKernelRange
    | OtherTaskType(code: nat)   // any task type the size table does not list

  /** The hardware descriptor counts of npu40xx::nn_public (VPU_INVARIANT_COUNT, ...). */
  datatype HwCounts = HwCounts(invariantCount: nat, variantCount: nat, kernelInvoCount: nat, kernelRangeCount: nat)

  /** VPURegMapped::IndexType(tile, list, value), as attached to a DeclareTaskBufferOp. */
  datatype TaskBuffer = TaskBuffer(taskType: TaskType, tile: nat, list: nat, index: nat)

  datatype TaskLocationError = TaskTypeNotRegistered(taskType: TaskType)

  /** For each group the slot given to each of its tasks, None for tasks of another type. */
  datatype Assignment = Assignment(buffers: seq<TaskBuffer>, slots: seq<seq<Option<nat>>>)

  const Uint32Modulus: nat := 0x1_0000_0000

  /** static_cast<uint32_t> */
  function Uint32(x: nat): (r: nat)
    ensures r < Uint32Modulus
    ensures x < Uint32Modulus ==> r == x
  {
    x % Uint32Modulus
  }

  predicate IsRegistered(t: TaskType) {
    !t.OtherTaskType?
  }

  function HwCount(counts: HwCounts, t: TaskType): nat
    requires IsRegistered(t)
  {
    match t
    case DPUInvariant => counts.invariantCount
    case DPUVariant => counts.variantCount
    case ActKernelInvocation => counts.kernelInvoCount
    case ActKernelRange => counts.kernelRangeCount
  }

  /** The `sizes` table and `getSize`: half of the hardware count, or an error for an unlisted type. */
  function GetSize(counts: HwCounts, t: TaskType): (r: Result<nat, TaskLocationError>)
    ensures r.Ok? <==> IsRegistered(t)
    ensures r.Ok? ==> 2 * r.value <= HwCount(counts, t) < 2 * r.value + 2
    ensures r.Err? ==> r.error == TaskTypeNotRegistered(t)
  {
    match t
    case DPUInvariant => Ok(counts.invariantCount / 2)
    case DPUVariant => Ok(counts.variantCount / 2)
    case ActKernelInvocation => Ok(counts.kernelInvoCount / 2)
    case ActKernelRange => Ok(counts.kernelRangeCount / 2)
    case OtherTaskType(_) => Err(TaskTypeNotRegistered(t))
  }

  /** `populate`: `count` task buffers on tile `tileIdx`, list 0, indices 0 .. count-1. */
  method Populate(taskType: TaskType, tileIdx: nat, count: nat) returns (buffers: seq<TaskBuffer>)
    ensures |buffers| == count
    ensures forall i :: 0 <= i < count ==> buffers[i] == TaskBuffer(taskType, Uint32(tileIdx), 0, Uint32(i))
  {
    buffers := [];
    for i := 0 to count
      invariant |buffers| == i
      invariant forall j :: 0 <= j < i ==> buffers[j] == TaskBuffer(taskType, Uint32(tileIdx), 0, Uint32(j))
    {
      buffers := buffers + [TaskBuffer(taskType, Uint32(tileIdx), 0, Uint32(i))];
    }
  }

  /** Number of tasks of type `t` in `tasks`. */
  function MatchCount(tasks: seq<TaskType>, t: TaskType): (n: nat)
    ensures n <= |tasks|
  {
    if tasks == [] then 0
    else MatchCount(tasks[..|tasks| - 1], t) + (if tasks[|tasks| - 1] == t then 1 else 0)
  }

  /** The group counter before group `g`: 0, then `(ctr + size) % (2 * size)` after each group. */
  function CounterAt(g: nat, size: nat): nat
    requires size > 0
  {
    if g == 0 then 0 else (CounterAt(g - 1, size) + size) % (2 * size)
  }

  /** The base of group `g`'s half of the pool. */
  function GroupBase(g: nat, size: nat): nat {
    if g % 2 == 0 then 0 else size
  }

  /** What `solveGroupOps` demands without checking: once there is a group, the counter update
      `% (groupSize * 2)` needs a non-zero group size. */
  predicate NonZeroGroupSize(counts: HwCounts, t: TaskType, groups: seq<seq<TaskType>>) {
    groups != [] && IsRegistered(t) ==> HwCount(counts, t) / 2 > 0
  }

  /** `taskBuffers[groupCtr + taskCtr]` stays inside the pool: an even group (base 0) may take up to
      `2 * groupSize` slots, an odd group (base `groupSize`) up to `groupSize`. */
  predicate IndexesInPool(counts: HwCounts, t: TaskType, groups: seq<seq<TaskType>>)
    requires IsRegistered(t)
  {
    var size := HwCount(counts, t) / 2;
    forall g :: 0 <= g < |groups| ==> MatchCount(groups[g], t) + GroupBase(g, size) <= 2 * size
  }

  /** The case the ping-pong scheme is designed for: no group has more than `groupSize` tasks of the
      type, so each group stays within its own half of the pool. */
  predicate FitsPool(counts: HwCounts, t: TaskType, groups: seq<seq<TaskType>>) {
    NonZeroGroupSize(counts, t, groups) &&
    (IsRegistered(t) ==>
       forall g :: 0 <= g < |groups| ==> MatchCount(groups[g], t) <= HwCount(counts, t) / 2)
  }

  /** The slot of task `j` of group `g`, or None when it has another type. */
  function SlotOf(groups: seq<seq<TaskType>>, t: TaskType, size: nat, g: nat, j: nat): Option<nat>
    requires g < |groups| && j < |groups[g]|
  {
    if groups[g][j] == t then Some(GroupBase(g, size) + MatchCount(groups[g][..j], t)) else None
  }

  /** The inner loop of `solveGroupOps` over the ops of one group: the k-th task of the type gets
      slot `groupCtr + k`, the others none. */
  method AssignGroup(tasks: seq<TaskType>, taskType: TaskType, groupCtr: nat) returns (groupSlots: seq<Option<nat>>)
    ensures |groupSlots| == |tasks|
    ensures forall i :: 0 <= i < |tasks| ==>
              groupSlots[i] == if tasks[i] == taskType then Some(groupCtr + MatchCount(tasks[..i], taskType)) else None
  {
    var taskCtr := 0;
    groupSlots := [];
    var j := 0;
    while j < |tasks|
      invariant 0 <= j <= |tasks|
      invariant taskCtr == MatchCount(tasks[..j], taskType)
      invariant |groupSlots| == j
      invariant forall i :: 0 <= i < j ==>
                  groupSlots[i] == if tasks[i] == taskType then Some(groupCtr + MatchCount(tasks[..i], taskType)) else None
    {
      assert tasks[..j + 1][..j] == tasks[..j];
      if tasks[j] != taskType {
        groupSlots := groupSlots + [None];
      } else {
        groupSlots := groupSlots + [Some(groupCtr + taskCtr)];
        taskCtr := taskCtr + 1;
      }
      j := j + 1;
    }
  }

  /**
    `solveGroupOps` for one (task type, tile): an empty list of groups stands for a null list head.
  */
  method SolveGroupOps(counts: HwCounts, taskType: TaskType, tileIdx: nat, groups: seq<seq<TaskType>>)
    returns (r: Result<Assignment, TaskLocationError>)
    requires NonZeroGroupSize(counts, taskType, groups)
    ensures groups == [] ==> r == Ok(Assignment([], []))
    ensures groups != [] ==> (r.Ok? <==> IsRegistered(taskType))
    ensures groups != [] && r.Ok? ==>
              var size := HwCount(counts, taskType) / 2;
              && |r.value.buffers| == 2 * size
              && (forall i :: 0 <= i < 2 * size ==>
                    r.value.buffers[i] == TaskBuffer(taskType, Uint32(tileIdx), 0, Uint32(i)))
              && |r.value.slots| == |groups|
              && (forall g :: 0 <= g < |groups| ==> |r.value.slots[g]| == |groups[g]|)
              && (forall g, j :: 0 <= g < |groups| && 0 <= j < |groups[g]| ==>
                    r.value.slots[g][j] == SlotOf(groups, taskType, size, g, j))
  {
    if groups == [] {
      return Ok(Assignment([], []));
    }
    var sizeResult := GetSize(counts, taskType);
    if sizeResult.Err? {
      return Err(sizeResult.error);
    }
    var groupSize := sizeResult.value;
    var taskBuffers := Populate(taskType, tileIdx, groupSize * 2);
    var slots := AssignGroups(groups, taskType, groupSize);
    r := Ok(Assignment(taskBuffers, slots));
  }

  /** The outer loop of `solveGroupOps`: group g takes its slots from the half of the pool the
      counter points at, and the counter then moves to the other half. */
  method AssignGroups(groups: seq<seq<TaskType>>, taskType: TaskType, groupSize: nat)
    returns (slots: seq<seq<Option<nat>>>)
    requires groupSize > 0
    ensures |slots| == |groups|
    ensures forall g :: 0 <= g < |groups| ==> |slots[g]| == |groups[g]|
    ensures forall g, j :: 0 <= g < |groups| && 0 <= j < |groups[g]| ==>
              slots[g][j] == SlotOf(groups, taskType, groupSize, g, j)
  {
    var groupCtr := 0;
    slots := [];
    var g := 0;
    while g < |groups|
      invariant 0 <= g <= |groups|
      invariant groupCtr == CounterAt(g, groupSize)
      invariant |slots| == g
      invariant forall k :: 0 <= k < g ==> |slots[k]| == |groups[k]|
      invariant forall k, j :: 0 <= k < g && 0 <= j < |groups[k]| ==>
                  slots[k][j] == SlotOf(groups, taskType, groupSize, k, j)
    {
      CounterAlternates(g, groupSize);
      assert groupSize * 2 == 2 * groupSize;
      var groupSlots := AssignGroup(groups[g], taskType, groupCtr);
      assert forall j :: 0 <= j < |groups[g]| ==> groupSlots[j] == SlotOf(groups, taskType, groupSize, g, j);
      slots := slots + [groupSlots];
      groupCtr := (groupCtr + groupSize) % (groupSize * 2);
      g := g + 1;
    }
  }

  /** The counter alternates between the two halves of the pool. */
  lemma {:induction false} CounterAlternates(g: nat, size: nat)
    requires size > 0
    ensures CounterAt(g, size) == GroupBase(g, size)
  {
    if g > 0 {
      CounterAlternates(g - 1, size);
      HalfTurn(size);
    }
  }

  /** Adding half a pool of size `2 * size` moves 0 to `size` and `size` back to 0. */
  lemma HalfTurn(size: nat)
    requires size > 0
    ensures (0 + size) % (2 * size) == size
    ensures (size + size) % (2 * size) == 0
  {
    SmallMod(size, 2 * size);
    SelfMod(2 * size);
    assert size + size == 2 * size;
  }

  lemma SmallMod(x: nat, d: nat)
    requires x < d
    ensures x % d == x
  {
  }

  lemma SelfMod(d: nat)
    requires d > 0
    ensures d % d == 0
  {
  }

  lemma {:induction false} MatchCountPrefix(tasks: seq<TaskType>, t: TaskType, j: nat)
    requires j < |tasks| && tasks[j] == t
    ensures MatchCount(tasks[..j], t) < MatchCount(tasks, t)
    decreases |tasks|
  {
    assert tasks[..|tasks|][..j] == tasks[..j];
    if j < |tasks| - 1 {
      var init := tasks[..|tasks| - 1];
      assert init[..j] == tasks[..j];
      MatchCountPrefix(init, t, j);
    } else {
      assert tasks[..|tasks| - 1] == tasks[..j];
    }
  }

  lemma {:induction false} MatchCountMonotone(tasks: seq<TaskType>, t: TaskType, i: nat, j: nat)
    requires i <= j <= |tasks|
    ensures MatchCount(tasks[..i], t) <= MatchCount(tasks[..j], t)
    decreases j - i
  {
    if i < j {
      MatchCountMonotone(tasks, t, i, j - 1);
      assert tasks[..j][..j - 1] == tasks[..j - 1];
    }
  }

  /** Every slot handed out lies in the pool, in the half that belongs to its group. */
  lemma SlotInGroupHalf(counts: HwCounts, t: TaskType, groups: seq<seq<TaskType>>, g: nat, j: nat)
    requires FitsPool(counts, t, groups) && IsRegistered(t)
    requires g < |groups| && j < |groups[g]| && groups[g][j] == t
    ensures var size := HwCount(counts, t) / 2;
            var s := SlotOf(groups, t, size, g, j).value;
            GroupBase(g, size) <= s < GroupBase(g, size) + size && s < 2 * size
  {
    MatchCountPrefix(groups[g], t, j);
  }

  /** Two tasks of one group never share a slot. */
  lemma SlotsDistinctInGroup(groups: seq<seq<TaskType>>, t: TaskType, size: nat, g: nat, i: nat, j: nat)
    requires g < |groups| && i < j < |groups[g]| && groups[g][i] == t && groups[g][j] == t
    ensures SlotOf(groups, t, size, g, i) != SlotOf(groups, t, size, g, j)
  {
    MatchCountPrefix(groups[g][..j], t, i);
    assert groups[g][..j][..i] == groups[g][..i];
  }

  /** Consecutive groups use disjoint halves, so a group never overwrites the previous group's buffers. */
  lemma ConsecutiveGroupsDisjoint(counts: HwCounts, t: TaskType, groups: seq<seq<TaskType>>, g: nat, i: nat, j: nat)
    requires FitsPool(counts, t, groups) && IsRegistered(t)
    requires g + 1 < |groups| && i < |groups[g]| && j < |groups[g + 1]|
    requires groups[g][i] == t && groups[g + 1][j] == t
    ensures var size := HwCount(counts, t) / 2;
            SlotOf(groups, t, size, g, i) != SlotOf(groups, t, size, g + 1, j)
  {
    SlotInGroupHalf(counts, t, groups, g, i);
    SlotInGroupHalf(counts, t, groups, g + 1, j);
  }

  /** Under the per-parity bound every index `groupCtr + taskCtr` lies in the pool of `2 * groupSize` buffers. */
  lemma SlotsInPool(counts: HwCounts, t: TaskType, groups: seq<seq<TaskType>>, g: nat, j: nat)
    requires IsRegistered(t) && IndexesInPool(counts, t, groups)
    requires g < |groups| && j < |groups[g]| && groups[g][j] == t
    ensures SlotOf(groups, t, HwCount(counts, t) / 2, g, j).value < 2 * (HwCount(counts, t) / 2)
  {
    MatchCountPrefix(groups[g], t, j);
  }

  lemma {:induction false} MatchCountUniform(t: TaskType, n: nat)
    ensures MatchCount(seq(n, _ => t), t) == n
  {
    if n > 0 {
      assert seq(n, _ => t)[..n - 1] == seq(n - 1, _ => t);
      MatchCountUniform(t, n - 1);
    }
  }

  /** Without `FitsPool` the halves overlap: an even group with `groupSize + 1` tasks of the type gives
      its last one the slot the next group's first task also gets, though every index is in the pool. */
  lemma OverfullGroupSharesBuffer(t: TaskType, size: nat)
    requires size > 0
    ensures var groups := [seq(size + 1, _ => t), [t]];
            && SlotOf(groups, t, size, 0, size) == Some(size)
            && SlotOf(groups, t, size, 1, 0) == Some(size)
            && size < 2 * size
  {
    assert seq(size + 1, _ => t)[..size] == seq(size, _ => t);
    MatchCountUniform(t, size);
    assert [t][..0] == [];
  }
}
