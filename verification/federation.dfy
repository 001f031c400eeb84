/** Rewriting task ids and dependencies for a federation
    (convoy/batch.py:6032-6109). */
module Federation {
  import opened Common

  const MAX_ID_LENGTH: nat := 64
  const MAX_DEPENDENCY_LENGTH: nat := 64000

  datatype Dependencies = Dependencies(taskIds: seq<string>, ranges: seq<(int, int)>)
  datatype TaskValue = TaskValue(id: string, dependsOn: Option<Dependencies>)

  /** The arguments that do not change: whether the federation requires unique
      job ids, the suffix, the ids of all tasks and the merge task's, if any. */
  datatype Group = Group(uniqueJobIds: bool, uid: string, tids: seq<string>, mergeId: Option<string>)

  /** '{}-{}'.format(tid, uid) */
  function NewId(uid: string, tid: string): string {
    tid + ['-'] + uid
  }

  lemma NewIdInjective(uid: string, a: string, b: string)
    requires NewId(uid, a) == NewId(uid, b)
    ensures a == b
  {
    assert |a| == |b|;
    assert NewId(uid, a)[..|a|] == a && NewId(uid, b)[..|b|] == b;
  }

  /** The new id is the old one, a dash and the suffix; so two suffixes give different
      ids, and the old id is not kept. */
  lemma NewIdParts(uid: string, other: string, tid: string)
    ensures |NewId(uid, tid)| == |tid| + 1 + |uid| && NewId(uid, tid)[|tid|] == '-'
    ensures tid <= NewId(uid, tid) && NewId(uid, tid)[|tid| + 1..] == uid
    ensures NewId(uid, tid) == NewId(other, tid) <==> uid == other
    ensures NewId(uid, tid) != tid
  {
    assert NewId(uid, tid)[|tid| + 1..] == uid && NewId(other, tid)[|tid| + 1..] == other;
  }

  function NewIds(uid: string, ids: seq<string>): (r: seq<string>)
    ensures |r| == |ids| && forall i | 0 <= i < |ids| :: r[i] == NewId(uid, ids[i])
  {
    if ids == [] then [] else NewIds(uid, ids[..|ids| - 1]) + [NewId(uid, ids[|ids| - 1])]
  }

  /** len(''.join(ids)) */
  function JoinedLength(ids: seq<string>): nat {
    if ids == [] then 0 else JoinedLength(ids[..|ids| - 1]) + |ids[|ids| - 1]|
  }

  predicate SelfContained(ids: seq<string>, tids: seq<string>) {
    forall i | 0 <= i < |ids| :: ids[i] in tids
  }

  predicate IsMerge(c: Group, tid: string) {
    c.mergeId == Some(tid)
  }

  /** Whether a task other than the merge task passes. */
  predicate TaskOk(c: Group, tid: string, v: TaskValue) {
    && (!c.uniqueJobIds ==> |NewId(c.uid, tid)| <= MAX_ID_LENGTH)
    && (v.dependsOn.Some? ==>
          && SelfContained(v.dependsOn.value.taskIds, c.tids)
          && (v.dependsOn.value.ranges != [] ==> !c.uniqueJobIds && v.dependsOn.value.taskIds != []))
  }

  /** What becomes of such a task. */
  function NewTask(c: Group, tid: string, v: TaskValue): TaskValue {
    if c.uniqueJobIds then v
    else TaskValue(NewId(c.uid, tid),
      if v.dependsOn.Some? && v.dependsOn.value.taskIds != []
      then Some(Dependencies(NewIds(c.uid, v.dependsOn.value.taskIds), []))
      else v.dependsOn)
  }

  function AddedLength(c: Group, v: TaskValue): nat {
    if !c.uniqueJobIds && v.dependsOn.Some? then JoinedLength(NewIds(c.uid, v.dependsOn.value.taskIds)) else 0
  }

  /** All lengths counted for the first k tasks. */
  function CountedLength(c: Group, before: map<string, TaskValue>, k: nat): nat
    requires k <= |c.tids| && forall i | 0 <= i < |c.tids| :: c.tids[i] in before
  {
    if k == 0 then 0
    else CountedLength(c, before, k - 1) + if IsMerge(c, c.tids[k - 1]) then 0 else AddedLength(c, before[c.tids[k - 1]])
  }

  predicate HasMerge(c: Group) {
    c.mergeId.Some? && c.mergeId.value != []
  }

  /** The ids of the other tasks, in order. */
  function Others(c: Group, k: nat): seq<string>
    requires k <= |c.tids|
  {
    if k == 0 then [] else Others(c, k - 1) + if IsMerge(c, c.tids[k - 1]) then [] else [c.tids[k - 1]]
  }

  /** The whole call succeeds. */
  predicate Accepted(c: Group, before: map<string, TaskValue>)
    requires forall i | 0 <= i < |c.tids| :: c.tids[i] in before
  {
    && (forall i | 0 <= i < |c.tids| :: IsMerge(c, c.tids[i]) || TaskOk(c, c.tids[i], before[c.tids[i]]))
    && (!c.uniqueJobIds ==>
          && (HasMerge(c) ==> |NewId(c.uid, c.mergeId.value)| <= MAX_ID_LENGTH)
          && CountedLength(c, before, |c.tids|) + (if HasMerge(c) then |NewId(c.uid, c.mergeId.value)| else 0)
             <= MAX_DEPENDENCY_LENGTH)
  }

  /** Where a task stands when the first k tasks have been gone through. */
  function ValueAfter(c: Group, before: map<string, TaskValue>, k: nat, i: nat): TaskValue
    requires k <= |c.tids| && i < |c.tids| && c.tids[i] in before
  {
    if i < k && !IsMerge(c, c.tids[i]) then NewTask(c, c.tids[i], before[c.tids[i]]) else before[c.tids[i]]
  }

  /** The merge task in the end. */
  function NewMerge(c: Group): TaskValue
    requires HasMerge(c)
  {
    TaskValue(NewId(c.uid, c.mergeId.value), Some(Dependencies(Others(c, |c.tids|), [])))
  }

  // ---- the program -----------------------------------------------------

  class Task {
    var id: string
    var dependsOn: Option<Dependencies>

    function Value(): TaskValue
      reads this
    {
      TaskValue(id, dependsOn)
    }
  }

  /** The tasks by id, all of them different objects. */
  ghost predicate Tasks(c: Group, taskMap: map<string, Task>) {
    && (forall i | 0 <= i < |c.tids| :: c.tids[i] in taskMap)
    && (forall i, j | 0 <= i < j < |c.tids| :: c.tids[i] != c.tids[j])
    && (forall a, b | a in taskMap && b in taskMap && taskMap[a] == taskMap[b] :: a == b)
    && (HasMerge(c) ==> c.mergeId.value in taskMap)
    && (forall tid | tid in taskMap :: tid in c.tids)
  }

  ghost function Values(taskMap: map<string, Task>): map<string, TaskValue>
    reads set tid | tid in taskMap :: taskMap[tid]
  {
    map tid | tid in taskMap :: taskMap[tid].Value()
  }

  /** The loop over the dependencies of a task. */
  method RenameDependencies(c: Group, ids: seq<string>) returns (r: Option<seq<string>>)
    ensures r == if SelfContained(ids, c.tids) then Some(NewIds(c.uid, ids)) else None
  {
    var newIds := [];
    for k := 0 to |ids|
      invariant newIds == NewIds(c.uid, ids[..k]) && SelfContained(ids[..k], c.tids)
    {
      if ids[k] !in c.tids {
        return None;
      }
      assert ids[..k + 1][..k] == ids[..k];
      newIds := newIds + [NewId(c.uid, ids[k])];
    }
    assert ids[..|ids|] == ids;
    return Some(newIds);
  }

  /** The body of the loop over the tasks; None is an exception. */
  method RewriteTask(c: Group, tid: string, t: Task) returns (added: Option<nat>)
    modifies t
    ensures added.Some? <==> TaskOk(c, tid, old(t.Value()))
    ensures added.Some? ==> t.Value() == NewTask(c, tid, old(t.Value())) && added.value == AddedLength(c, old(t.Value()))
    ensures added.None? || c.uniqueJobIds ==> t.Value() == old(t.Value())
  {
    var length := 0;
    if !c.uniqueJobIds && |NewId(c.uid, tid)| > MAX_ID_LENGTH {
      return None;
    }
    if t.dependsOn.Some? {
      if t.dependsOn.value.taskIds != [] {
        var renamed := RenameDependencies(c, t.dependsOn.value.taskIds);
        if renamed.None? {
          return None;
        }
        if !c.uniqueJobIds {
          t.dependsOn := Some(Dependencies(renamed.value, []));
          length := JoinedLength(renamed.value);
        }
      }
      if t.dependsOn.value.ranges != [] {
        return None;
      }
    }
    if !c.uniqueJobIds {
      t.id := NewId(c.uid, tid);
    }
    return Some(length);
  }

  /** The map of the rewritten tasks: still under their old ids. */
  function Remapped(c: Group, taskMap: map<string, Task>, k: nat): map<string, Task>
    requires k <= |c.tids| && forall i | 0 <= i < |c.tids| :: c.tids[i] in taskMap
  {
    if k == 0 then map[]
    else if IsMerge(c, c.tids[k - 1]) then Remapped(c, taskMap, k - 1)
    else Remapped(c, taskMap, k - 1)[c.tids[k - 1] := taskMap[c.tids[k - 1]]]
  }

  /** The returned map: the merge task is under its new id. */
  function Returned(c: Group, taskMap: map<string, Task>): map<string, Task>
    requires forall i | 0 <= i < |c.tids| :: c.tids[i] in taskMap
    requires HasMerge(c) ==> c.mergeId.value in taskMap
  {
    var others := Remapped(c, taskMap, |c.tids|);
    if HasMerge(c) then others[NewId(c.uid, c.mergeId.value) := taskMap[c.mergeId.value]] else others
  }

  ghost predicate Built(c: Group, taskMap: map<string, Task>, k: nat, m: map<string, Task>, keys: seq<string>)
    requires k <= |c.tids| && forall i | 0 <= i < |c.tids| :: c.tids[i] in taskMap
  {
    m == Remapped(c, taskMap, k) && keys == Others(c, k)
  }

  lemma BuiltNextIfNeeded(c: Group, taskMap: map<string, Task>, k: nat, m: map<string, Task>, keys: seq<string>)
    requires k < |c.tids| && (forall i | 0 <= i < |c.tids| :: c.tids[i] in taskMap)
    requires c.uniqueJobIds || Built(c, taskMap, k, m, keys)
    ensures var tid := c.tids[k];
      if c.uniqueJobIds then true
      else if IsMerge(c, tid) then Built(c, taskMap, k + 1, m, keys)
      else Built(c, taskMap, k + 1, m[tid := taskMap[tid]], keys + [tid])
  {
  }

  /** Every task stands where the first k steps leave it. */
  ghost predicate Standing(c: Group, taskMap: map<string, Task>, before: map<string, TaskValue>, k: nat)
    requires k <= |c.tids| && forall i | 0 <= i < |c.tids| :: c.tids[i] in taskMap && c.tids[i] in before
    reads set tid | tid in taskMap :: taskMap[tid]
  {
    forall i | 0 <= i < |c.tids| :: taskMap[c.tids[i]].Value() == ValueAfter(c, before, k, i)
  }

  /** No task has changed. */
  ghost predicate Unchanged(c: Group, taskMap: map<string, Task>, before: map<string, TaskValue>)
    requires forall i | 0 <= i < |c.tids| :: c.tids[i] in taskMap && c.tids[i] in before
    reads set tid | tid in taskMap :: taskMap[tid]
  {
    forall i | 0 <= i < |c.tids| :: taskMap[c.tids[i]].Value() == before[c.tids[i]]
  }

  predicate PassedUpTo(c: Group, before: map<string, TaskValue>, k: nat)
    requires k <= |c.tids| && forall i | 0 <= i < |c.tids| :: c.tids[i] in before
  {
    forall i | 0 <= i < k :: IsMerge(c, c.tids[i]) || TaskOk(c, c.tids[i], before[c.tids[i]])
  }

  /** Task k of the loop, in its place. */
  method RewriteKth(c: Group, taskMap: map<string, Task>, ghost before: map<string, TaskValue>, k: nat)
    returns (added: Option<nat>)
    requires Tasks(c, taskMap) && k < |c.tids| && !IsMerge(c, c.tids[k])
    requires (forall i | 0 <= i < |c.tids| :: c.tids[i] in before) && Standing(c, taskMap, before, k)
    modifies taskMap[c.tids[k]]
    ensures added.Some? <==> TaskOk(c, c.tids[k], before[c.tids[k]])
    ensures added.Some? ==> added.value == AddedLength(c, before[c.tids[k]])
    ensures Standing(c, taskMap, before, if added.Some? then k + 1 else k)
  {
    var t := taskMap[c.tids[k]];
    assert t.Value() == ValueAfter(c, before, k, k);
    added := RewriteTask(c, c.tids[k], t);
  }

  lemma MergeIsSkipped(c: Group, taskMap: map<string, Task>, before: map<string, TaskValue>, k: nat)
    requires Tasks(c, taskMap) && k < |c.tids| && IsMerge(c, c.tids[k])
    requires (forall i | 0 <= i < |c.tids| :: c.tids[i] in before) && Standing(c, taskMap, before, k)
    ensures Standing(c, taskMap, before, k + 1)
  {
  }

  /** The loop's variables after the first k tasks have passed. */
  ghost predicate Progress(c: Group, taskMap: map<string, Task>, before: map<string, TaskValue>, k: nat,
                           m: map<string, Task>, keys: seq<string>, length: nat)
    requires k <= |c.tids| && forall i | 0 <= i < |c.tids| :: c.tids[i] in taskMap && c.tids[i] in before
    reads set tid | tid in taskMap :: taskMap[tid]
  {
    && Standing(c, taskMap, before, k) && PassedUpTo(c, before, k) && length == CountedLength(c, before, k)
    && (c.uniqueJobIds || Built(c, taskMap, k, m, keys))
  }

  lemma PassedOneMore(c: Group, before: map<string, TaskValue>, k: nat)
    requires k < |c.tids| && (forall i | 0 <= i < |c.tids| :: c.tids[i] in before) && PassedUpTo(c, before, k)
    ensures PassedUpTo(c, before, k + 1) <==> IsMerge(c, c.tids[k]) || TaskOk(c, c.tids[k], before[c.tids[k]])
    ensures !PassedUpTo(c, before, k + 1) ==> !PassedUpTo(c, before, |c.tids|)
  {
  }

  /** Task k of the loop, unless it is the merge task. */
  method RewriteUnlessMerge(c: Group, taskMap: map<string, Task>, ghost before: map<string, TaskValue>, k: nat)
    returns (added: Option<nat>)
    requires Tasks(c, taskMap) && k < |c.tids| && (forall i | 0 <= i < |c.tids| :: c.tids[i] in before)
    requires Standing(c, taskMap, before, k)
    modifies taskMap[c.tids[k]]
    ensures added.Some? <==> IsMerge(c, c.tids[k]) || TaskOk(c, c.tids[k], before[c.tids[k]])
    ensures added.Some? ==> added.value == if IsMerge(c, c.tids[k]) then 0 else AddedLength(c, before[c.tids[k]])
    ensures Standing(c, taskMap, before, if added.Some? then k + 1 else k)
  {
    if c.mergeId == Some(c.tids[k]) {
      MergeIsSkipped(c, taskMap, before, k);
      return Some(0);
    }
    added := RewriteKth(c, taskMap, before, k);
  }

  method RewriteNext(c: Group, taskMap: map<string, Task>, ghost before: map<string, TaskValue>, k: nat,
                     m: map<string, Task>, keys: seq<string>, length: nat)
    returns (ok: bool, m': map<string, Task>, keys': seq<string>, length': nat)
    requires Tasks(c, taskMap) && k < |c.tids| && (forall i | 0 <= i < |c.tids| :: c.tids[i] in before)
    requires Progress(c, taskMap, before, k, m, keys, length)
    modifies taskMap[c.tids[k]]
    ensures ok ==> Progress(c, taskMap, before, k + 1, m', keys', length')
    ensures !ok ==> Standing(c, taskMap, before, k) && !PassedUpTo(c, before, |c.tids|)
  {
    m', keys', length' := m, keys, length;
    PassedOneMore(c, before, k);
    BuiltNextIfNeeded(c, taskMap, k, m, keys);
    var added := RewriteUnlessMerge(c, taskMap, before, k);
    if added.None? {
      return false, m, keys, length;
    }
    length' := length + added.value;
    var tid := c.tids[k];
    if c.mergeId != Some(tid) && !c.uniqueJobIds {
      m', keys' := m[tid := taskMap[tid]], keys + [tid];
    }
    return true, m', keys', length';
  }

  method RewriteOthers(c: Group, taskMap: map<string, Task>, ghost before: map<string, TaskValue>)
    returns (ok: bool, m: map<string, Task>, keys: seq<string>, length: nat, ghost gone: nat)
    requires Tasks(c, taskMap) && (forall i | 0 <= i < |c.tids| :: c.tids[i] in before)
    requires Standing(c, taskMap, before, 0)
    modifies set tid | tid in taskMap :: taskMap[tid]
    ensures gone <= |c.tids| && Standing(c, taskMap, before, gone)
    ensures ok <==> PassedUpTo(c, before, |c.tids|)
    ensures ok ==> gone == |c.tids| && Progress(c, taskMap, before, gone, m, keys, length)
  {
    m, keys, length, gone := map[], [], 0, 0;
    for k := 0 to |c.tids|
      invariant gone == k && Progress(c, taskMap, before, k, m, keys, length)
    {
      ok, m, keys, length := RewriteNext(c, taskMap, before, k, m, keys, length);
      if !ok {
        return;
      }
      gone := k + 1;
    }
    ok := true;
  }

  method RenameMerge(c: Group, t: Task, keys: seq<string>)
    requires HasMerge(c) && keys == Others(c, |c.tids|)
    modifies t
    ensures t.Value() == NewMerge(c)
  {
    t.dependsOn := Some(Dependencies(keys, []));
    t.id := NewId(c.uid, c.mergeId.value);
  }

  /** rewrite_task_dependencies_for_federation; None is an exception. */
  method RewriteTaskDependencies(c: Group, taskMap: map<string, Task>) returns (r: Option<map<string, Task>>, ghost gone: nat)
    requires Tasks(c, taskMap)
    modifies set tid | tid in taskMap :: taskMap[tid]
    ensures r.Some? <==> Accepted(c, old(Values(taskMap)))
    ensures gone <= |c.tids| && (r.Some? ==> gone == |c.tids|)
    ensures forall i | 0 <= i < |c.tids| && !IsMerge(c, c.tids[i]) ::
      taskMap[c.tids[i]].Value() == ValueAfter(c, old(Values(taskMap)), gone, i)
    ensures c.uniqueJobIds ==> Unchanged(c, taskMap, old(Values(taskMap))) && (r.Some? ==> r.value == taskMap)
    ensures r.Some? && !c.uniqueJobIds ==>
      r.value == Returned(c, taskMap) && (HasMerge(c) ==> taskMap[c.mergeId.value].Value() == NewMerge(c))
  {
    ghost var before := Values(taskMap);
    var ok, m, keys, length;
    ok, m, keys, length, gone := RewriteOthers(c, taskMap, before);
    if !ok {
      return None, gone;
    }
    if c.uniqueJobIds {
      return Some(taskMap), gone;
    }
    if HasMerge(c) {
      var id := c.mergeId.value;
      var newId := NewId(c.uid, id);
      if |newId| > MAX_ID_LENGTH {
        return None, gone;
      }
      var t := taskMap[id];
      RenameMerge(c, t, keys);
      m := m[newId := t];
      length := length + |newId|;
    }
    if length > MAX_DEPENDENCY_LENGTH {
      return None, gone;
    }
    return Some(m), gone;
  }
}
