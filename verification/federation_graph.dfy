/** What the federation rewrite does to the dependency graph
    (convoy/batch.py:6032-6109). */
module FederationGraph {
  import opened Common
  import opened Federation

  function Deps(v: TaskValue): seq<string> {
    if v.dependsOn.Some? then v.dependsOn.value.taskIds else []
  }

  /** The tasks of an accepted call that gets new ids. */
  ghost predicate Rewritten(c: Group, before: map<string, TaskValue>) {
    && (forall i | 0 <= i < |c.tids| :: c.tids[i] in before)
    && (forall i, j | 0 <= i < j < |c.tids| :: c.tids[i] != c.tids[j])
    && !c.uniqueJobIds && c.mergeId != Some([]) && (c.mergeId.Some? ==> c.mergeId.value in c.tids)
    && Accepted(c, before)
  }

  // ---- when the call is accepted -------------------------------------------

  function Chars(ids: seq<string>): nat {
    if ids == [] then 0 else |ids[0]| + Chars(ids[1..])
  }

  lemma {:induction false} CharsSnoc(ids: seq<string>)
    requires ids != []
    ensures Chars(ids) == Chars(ids[..|ids| - 1]) + |ids[|ids| - 1]|
  {
    var n := |ids| - 1;
    if n > 0 {
      var t := ids[1..];
      CharsSnoc(t);
      assert t[..n - 1] == ids[..n][1..] && t[n - 1] == ids[n] && ids[..n][0] == ids[0];
    } else {
      assert ids[..n] == [] && ids[1..] == [];
    }
  }

  /** What new ids add up to: their old characters, a dash and the suffix each. */
  function NewChars(uid: string, ids: seq<string>): nat {
    Chars(ids) + |ids| * (1 + |uid|)
  }

  lemma {:induction false} JoinedNewIds(uid: string, ids: seq<string>)
    ensures JoinedLength(NewIds(uid, ids)) == NewChars(uid, ids)
  {
    if ids != [] {
      var n := |ids| - 1;
      JoinedNewIds(uid, ids[..n]);
      CharsSnoc(ids);
      assert |ids| * (1 + |uid|) == n * (1 + |uid|) + (1 + |uid|);
      assert NewIds(uid, ids)[..n] == NewIds(uid, ids[..n]);
    }
  }

  /** The characters of the new ids of all dependencies of the first k tasks but the merge
      task. */
  function DependencyChars(c: Group, before: map<string, TaskValue>, k: nat): nat
    requires k <= |c.tids| && forall i | 0 <= i < |c.tids| :: c.tids[i] in before
  {
    if k == 0 then 0
    else
      var ids := Deps(before[c.tids[k - 1]]);
      DependencyChars(c, before, k - 1) +
      if c.mergeId == Some(c.tids[k - 1]) then 0 else NewChars(c.uid, ids)
  }

  lemma AddedChars(c: Group, v: TaskValue)
    requires !c.uniqueJobIds
    ensures AddedLength(c, v) == NewChars(c.uid, Deps(v))
  {
    JoinedNewIds(c.uid, Deps(v));
  }

  lemma {:induction false} CountedChars(c: Group, before: map<string, TaskValue>, k: nat)
    requires !c.uniqueJobIds && k <= |c.tids| && forall i | 0 <= i < |c.tids| :: c.tids[i] in before
    ensures CountedLength(c, before, k) == DependencyChars(c, before, k)
  {
    if k > 0 {
      CountedChars(c, before, k - 1);
      AddedChars(c, before[c.tids[k - 1]]);
    }
  }

  /** Why a task other than the merge task is refused: its new id is longer than 64
      characters, a dependency is outside the group, or it has ranges of ids alone or
      under unique job ids. */
  ghost predicate Refused(c: Group, tid: string, v: TaskValue) {
    || (!c.uniqueJobIds && |tid| + 1 + |c.uid| > 64)
    || (exists x :: x in Deps(v) && x !in c.tids)
    || (v.dependsOn.Some? && v.dependsOn.value.ranges != [] && (c.uniqueJobIds || Deps(v) == []))
  }

  /** The call succeeds exactly if no task is refused and, without unique job ids, the new
      id of the merge task has at most 64 characters and all new ids that are counted have
      at most 64000. */
  lemma AcceptedIff(c: Group, before: map<string, TaskValue>)
    requires forall i | 0 <= i < |c.tids| :: c.tids[i] in before
    ensures var merge := if HasMerge(c) then |c.mergeId.value| + 1 + |c.uid| else 0;
      Accepted(c, before) <==>
        && (forall tid | tid in c.tids && c.mergeId != Some(tid) :: !Refused(c, tid, before[tid]))
        && (!c.uniqueJobIds ==> merge <= 64 && DependencyChars(c, before, |c.tids|) + merge <= 64000)
  {
    if !c.uniqueJobIds {
      CountedChars(c, before, |c.tids|);
    }
    forall tid | tid in c.tids ensures TaskOk(c, tid, before[tid]) <==> !Refused(c, tid, before[tid]) {
      var v := before[tid];
      assert forall x :: x in Deps(v) <==> exists i :: 0 <= i < |Deps(v)| && Deps(v)[i] == x;
    }
  }

  /** A task other than the merge task. */
  predicate IsOther(c: Group, tid: string) {
    tid in c.tids && !IsMerge(c, tid)
  }

  /** Task u depends on x before the rewrite. */
  ghost predicate OldEdge(c: Group, before: map<string, TaskValue>, u: string, x: string) {
    IsOther(c, u) && u in before && x in Deps(before[u])
  }

  /** The task that is now called y depends on z after the rewrite. */
  ghost predicate NewEdge(c: Group, before: map<string, TaskValue>, y: string, z: string) {
    exists u :: IsOther(c, u) && u in before && Becomes(c, before[u], u, y, z)
  }

  predicate Becomes(c: Group, v: TaskValue, u: string, y: string, z: string) {
    NewTask(c, u, v).id == y && z in Deps(NewTask(c, u, v))
  }

  lemma DepsRenamed(c: Group, u: string, v: TaskValue)
    requires !c.uniqueJobIds
    ensures Deps(NewTask(c, u, v)) == NewIds(c.uid, Deps(v))
  {
  }

  lemma InNewIds(uid: string, ids: seq<string>, x: string)
    ensures NewId(uid, x) in NewIds(uid, ids) <==> x in ids
  {
    if x in ids {
      var k :| 0 <= k < |ids| && ids[k] == x;
      assert NewIds(uid, ids)[k] == NewId(uid, x);
    }
    if NewId(uid, x) in NewIds(uid, ids) {
      var k :| 0 <= k < |ids| && NewIds(uid, ids)[k] == NewId(uid, x);
      NewIdInjective(uid, ids[k], x);
    }
  }

  /** Dependencies correspond one to one under tid -> tid-uid. */
  lemma EdgesCorrespond(c: Group, before: map<string, TaskValue>, u: string, x: string)
    requires Rewritten(c, before)
    ensures OldEdge(c, before, u, x) <==> NewEdge(c, before, NewId(c.uid, u), NewId(c.uid, x))
  {
    if OldEdge(c, before, u, x) {
      DepsRenamed(c, u, before[u]);
      InNewIds(c.uid, Deps(before[u]), x);
      assert Becomes(c, before[u], u, NewId(c.uid, u), NewId(c.uid, x));
    }
    if NewEdge(c, before, NewId(c.uid, u), NewId(c.uid, x)) {
      var w :| IsOther(c, w) && w in before && Becomes(c, before[w], w, NewId(c.uid, u), NewId(c.uid, x));
      NewIdInjective(c.uid, w, u);
      DepsRenamed(c, u, before[u]);
      InNewIds(c.uid, Deps(before[u]), x);
    }
  }

  /** Every new dependency comes from an old one. */
  lemma EdgeHasOrigin(c: Group, before: map<string, TaskValue>, y: string, z: string) returns (u: string, x: string)
    requires Rewritten(c, before) && NewEdge(c, before, y, z)
    ensures y == NewId(c.uid, u) && z == NewId(c.uid, x) && OldEdge(c, before, u, x)
  {
    u :| IsOther(c, u) && u in before && Becomes(c, before[u], u, y, z);
    DepsRenamed(c, u, before[u]);
    var ids := Deps(before[u]);
    var k :| 0 <= k < |ids| && NewIds(c.uid, ids)[k] == z;
    x := ids[k];
  }

  // ---- closedness --------------------------------------------------------

  /** A task that was called like the renamed merge task: the returned map has
      the merge task in its place. */
  predicate Displaced(c: Group, u: string) {
    HasMerge(c) && u == NewId(c.uid, c.mergeId.value)
  }

  /** Some task of the returned map is called y. */
  ghost predicate Exists(c: Group, before: map<string, TaskValue>, y: string) {
    (exists u :: IsOther(c, u) && !Displaced(c, u) && u in before && NewTask(c, u, before[u]).id == y) ||
    (HasMerge(c) && NewMerge(c).id == y)
  }

  lemma DisplacedIsGone(c: Group, before: map<string, TaskValue>, x: string)
    requires Rewritten(c, before) && Displaced(c, x)
    ensures !Exists(c, before, NewId(c.uid, x))
  {
    var z := NewId(c.uid, x);
    assert |z| > |x| && NewMerge(c).id == x;
    forall w | IsOther(c, w) && !Displaced(c, w) && w in before ensures NewTask(c, w, before[w]).id != z {
      if NewId(c.uid, w) == z {
        NewIdInjective(c.uid, w, x);
      }
    }
  }

  lemma RenamedExistsIff(c: Group, before: map<string, TaskValue>, x: string)
    requires Rewritten(c, before) && x in c.tids
    ensures Exists(c, before, NewId(c.uid, x)) <==> !Displaced(c, x)
  {
    if Displaced(c, x) {
      DisplacedIsGone(c, before, x);
    } else if !IsMerge(c, x) {
      assert IsOther(c, x) && NewTask(c, x, before[x]).id == NewId(c.uid, x);
    }
  }

  /** A dependency of the other tasks still names a task, unless it names the
      one that the merge task has displaced. */
  lemma StaysClosedIff(c: Group, before: map<string, TaskValue>, y: string, z: string)
    requires Rewritten(c, before) && NewEdge(c, before, y, z)
    ensures Exists(c, before, z) <==>
            !(HasMerge(c) && z == NewId(c.uid, NewId(c.uid, c.mergeId.value)))
  {
    var u, x := EdgeHasOrigin(c, before, y, z);
    var i :| 0 <= i < |c.tids| && c.tids[i] == u;
    assert TaskOk(c, u, before[u]);
    RenamedExistsIff(c, before, x);
    if HasMerge(c) && z == NewId(c.uid, NewId(c.uid, c.mergeId.value)) {
      NewIdInjective(c.uid, x, NewId(c.uid, c.mergeId.value));
    }
  }

  // ---- paths and cycles ------------------------------------------------------

  ghost predicate OldPath(c: Group, before: map<string, TaskValue>, p: seq<string>) {
    forall i | 0 <= i < |p| - 1 :: OldEdge(c, before, p[i], p[i + 1])
  }

  ghost predicate NewPath(c: Group, before: map<string, TaskValue>, q: seq<string>) {
    forall i | 0 <= i < |q| - 1 :: NewEdge(c, before, q[i], q[i + 1])
  }

  predicate Loops(p: seq<string>) {
    |p| >= 2 && p[0] == p[|p| - 1]
  }

  lemma PathsCorrespond(c: Group, before: map<string, TaskValue>, p: seq<string>)
    requires Rewritten(c, before)
    ensures OldPath(c, before, p) <==> NewPath(c, before, NewIds(c.uid, p))
    ensures Loops(p) <==> Loops(NewIds(c.uid, p))
  {
    var q := NewIds(c.uid, p);
    forall i | 0 <= i < |p| - 1
      ensures OldEdge(c, before, p[i], p[i + 1]) <==> NewEdge(c, before, q[i], q[i + 1])
    {
      EdgesCorrespond(c, before, p[i], p[i + 1]);
    }
    if |p| >= 2 && q[0] == q[|q| - 1] {
      NewIdInjective(c.uid, p[0], p[|p| - 1]);
    }
  }

  lemma PathExtends(c: Group, before: map<string, TaskValue>, p: seq<string>, x: string)
    requires p != [] && OldPath(c, before, p) && OldEdge(c, before, p[|p| - 1], x)
    ensures OldPath(c, before, p + [x])
  {
  }

  lemma PathShortens(c: Group, before: map<string, TaskValue>, q: seq<string>)
    requires q != [] && NewPath(c, before, q)
    ensures NewPath(c, before, q[..|q| - 1])
  {
  }

  lemma NewIdsExtends(uid: string, p: seq<string>, x: string)
    ensures NewIds(uid, p + [x]) == NewIds(uid, p) + [NewId(uid, x)]
  {
    assert (p + [x])[..|p|] == p;
  }

  /** q is the image of the path p. */
  ghost predicate ImageOf(c: Group, before: map<string, TaskValue>, q: seq<string>, p: seq<string>) {
    q == NewIds(c.uid, p) && OldPath(c, before, p)
  }

  lemma EdgeAtEnd(c: Group, before: map<string, TaskValue>, q: seq<string>, p: seq<string>, u: string, x: string)
    requires Rewritten(c, before) && |q| >= 2 && p != [] && ImageOf(c, before, q[..|q| - 1], p)
    requires q[|q| - 2] == NewId(c.uid, u) && q[|q| - 1] == NewId(c.uid, x) && OldEdge(c, before, u, x)
    ensures ImageOf(c, before, q, p + [x])
  {
    var n := |q| - 1;
    assert q[..n][n - 1] == NewIds(c.uid, p)[n - 1] == NewId(c.uid, p[n - 1]);
    NewIdInjective(c.uid, p[n - 1], u);
    PathExtends(c, before, p, x);
    NewIdsExtends(c.uid, p, x);
    assert q == q[..n] + [q[n]];
  }

  /** Every path of the new graph is the image of a path of the old one. */
  lemma {:induction false} PathHasOrigin(c: Group, before: map<string, TaskValue>, q: seq<string>) returns (p: seq<string>)
    requires Rewritten(c, before) && NewPath(c, before, q) && |q| >= 2
    ensures ImageOf(c, before, q, p)
  {
    var n := |q| - 1;
    var u, x := EdgeHasOrigin(c, before, q[n - 1], q[n]);
    var front;
    if n == 1 {
      front := [u];
      assert NewIds(c.uid, front) == q[..n];
    } else {
      PathShortens(c, before, q);
      front := PathHasOrigin(c, before, q[..n]);
    }
    EdgeAtEnd(c, before, q, front, u, x);
    p := front + [x];
  }

  ghost predicate OldAcyclic(c: Group, before: map<string, TaskValue>) {
    forall p :: Loops(p) ==> !OldPath(c, before, p)
  }

  ghost predicate NewAcyclic(c: Group, before: map<string, TaskValue>) {
    forall q :: Loops(q) ==> !NewPath(c, before, q)
  }

  /** The rewrite neither makes nor breaks a dependency cycle. */
  lemma AcyclicIff(c: Group, before: map<string, TaskValue>)
    requires Rewritten(c, before)
    ensures OldAcyclic(c, before) <==> NewAcyclic(c, before)
  {
    forall p | Loops(p) && OldPath(c, before, p) ensures !NewAcyclic(c, before) {
      PathsCorrespond(c, before, p);
      assert Loops(NewIds(c.uid, p));
    }
    forall q | Loops(q) && NewPath(c, before, q) ensures !OldAcyclic(c, before) {
      var p := PathHasOrigin(c, before, q);
      PathsCorrespond(c, before, p);
      assert Loops(p);
    }
  }

  /** Id ranges of a task that also names ids are dropped without an error. */
  lemma RangesAreDropped(c: Group, tid: string, v: TaskValue)
    requires !c.uniqueJobIds && TaskOk(c, tid, v) && v.dependsOn.Some?
    ensures NewTask(c, tid, v).dependsOn.value.ranges == []
    ensures v.dependsOn.value.ranges != [] ==> v.dependsOn.value.taskIds != []
  {
  }

  // ---- the merge task ------------------------------------------------------

  lemma {:induction false} OthersAre(c: Group, k: nat, x: string)
    requires k <= |c.tids|
    ensures x in Others(c, k) <==> x in c.tids[..k] && !IsMerge(c, x)
  {
    if k > 0 {
      OthersAre(c, k - 1, x);
      assert c.tids[..k] == c.tids[..k - 1] + [c.tids[k - 1]];
    }
  }

  lemma {:induction false} Shortest(ids: set<string>) returns (s: string)
    requires |ids| > 0
    ensures s in ids && forall t | t in ids :: |s| <= |t|
    decreases |ids|
  {
    s := Member(ids);
    var rest := ids - {s};
    if |rest| > 0 {
      var t := Shortest(rest);
      if |t| < |s| {
        s := t;
      }
    }
    assert forall x | x in ids :: x == s || x in rest || |s| < |x|;
  }

  lemma MergeDeps(c: Group)
    requires HasMerge(c)
    ensures forall x :: x in Deps(NewMerge(c)) <==> IsOther(c, x)
  {
    assert c.tids[..|c.tids|] == c.tids;
    forall x ensures x in Deps(NewMerge(c)) <==> IsOther(c, x) {
      OthersAre(c, |c.tids|, x);
    }
  }

  /** The shortest of the old ids is no new one. */
  lemma ShortestDangles(c: Group, before: map<string, TaskValue>, left: set<string>) returns (s: string)
    requires Rewritten(c, before) && HasMerge(c) && |left| > 0
    requires forall x :: x in left <==> IsOther(c, x) && !Displaced(c, x)
    ensures s in left && !Exists(c, before, s)
  {
    s := Shortest(left);
    forall u | IsOther(c, u) && !Displaced(c, u) && u in before ensures NewTask(c, u, before[u]).id != s {
      assert u in left && |NewId(c.uid, u)| > |u|;
    }
  }

  /** The merge task is given the ids its fellows had before: its dependencies
      all name tasks only if it has no fellows, or one that it has displaced and
      so depends on itself. */
  lemma MergeDanglesIff(c: Group, before: map<string, TaskValue>)
    requires Rewritten(c, before) && HasMerge(c)
    ensures (forall x | x in Deps(NewMerge(c)) :: Exists(c, before, x)) <==>
            (forall tid | tid in c.tids :: IsMerge(c, tid) || Displaced(c, tid))
  {
    MergeDeps(c);
    var left := set x | x in c.tids && IsOther(c, x) && !Displaced(c, x);
    assert forall x :: x in left <==> IsOther(c, x) && !Displaced(c, x);
    if |left| > 0 {
      var s := ShortestDangles(c, before, left);
      assert s in Deps(NewMerge(c)) && s in c.tids;
    } else {
      forall x | x in Deps(NewMerge(c)) ensures Exists(c, before, x) {
        assert x !in left;
      }
      forall tid | tid in c.tids ensures IsMerge(c, tid) || Displaced(c, tid) {
        assert tid !in left;
      }
    }
  }

  lemma {:induction false} RemapKeys(c: Group, taskMap: map<string, Task>, k: nat, x: string)
    requires k <= |c.tids| && forall i | 0 <= i < |c.tids| :: c.tids[i] in taskMap
    ensures x in Remapped(c, taskMap, k) <==> x in Others(c, k)
    ensures x in Remapped(c, taskMap, k) ==> x in taskMap && Remapped(c, taskMap, k)[x] == taskMap[x]
  {
    if k > 0 {
      RemapKeys(c, taskMap, k - 1, x);
    }
  }

  /** Of the other tasks, the returned map holds those that the merge task, if there is
      one, has not displaced, and nothing else besides the merge task. */
  lemma ReturnedTasks(c: Group, taskMap: map<string, Task>, u: string)
    requires forall i | 0 <= i < |c.tids| :: c.tids[i] in taskMap
    requires HasMerge(c) ==> c.mergeId.value in taskMap
    ensures u in Returned(c, taskMap) <==> IsOther(c, u) || Displaced(c, u)
    ensures u in Returned(c, taskMap) && u in taskMap ==>
      Returned(c, taskMap)[u] == if Displaced(c, u) then taskMap[c.mergeId.value] else taskMap[u]
  {
    assert c.tids[..|c.tids|] == c.tids;
    RemapKeys(c, taskMap, |c.tids|, u);
    OthersAre(c, |c.tids|, u);
  }

  /** The returned map holds a task under the id the service will report for it
      only if another task had that id before. */
  lemma ReportedIdIsFoundIff(c: Group, taskMap: map<string, Task>, u: string)
    requires (forall i | 0 <= i < |c.tids| :: c.tids[i] in taskMap) && IsOther(c, u)
    requires HasMerge(c) ==> c.mergeId.value in taskMap
    ensures NewId(c.uid, u) in Returned(c, taskMap) <==> IsOther(c, NewId(c.uid, u))
  {
    ReturnedTasks(c, taskMap, NewId(c.uid, u));
    if Displaced(c, NewId(c.uid, u)) {
      NewIdInjective(c.uid, u, c.mergeId.value);
    }
  }
}
