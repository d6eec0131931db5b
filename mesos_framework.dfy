/**
 * Task reconciliation of a Mesos framework entity. Each scan of the Mesos
 * master's state takes the entry for this framework, refreshes the member
 * tasks it already knows, adopts running tasks it does not know, and then
 * moves member tasks that are no longer listed towards stopping, or drops
 * them once they have stopped.
 */
module MesosFrameworks {
  import opened Wrappers
  import opened Sequences

  /** Brooklyn's entity lifecycle states. */
  datatype Lifecycle = Created | Starting | Running | Stopping | Stopped | Destroyed | OnFire

  /** The Mesos task state of a running task. */
  const TaskRunning: string := "TASK_RUNNING"

  /** One element of a framework's `tasks` array in the master's state. */
  datatype TaskJson = TaskJson(id: string, name: string, state: string)

  /** One element of the master's `frameworks` array. */
  datatype FrameworkJson = FrameworkJson(id: string, completedTasks: seq<TaskJson>, tasks: seq<TaskJson>)

  /**
   * A member of the framework's task group, through the sensors the scan reads
   * and writes: the Mesos task id, name and state, the actual and expected
   * lifecycle states, and whether Brooklyn manages the task.
   */
  datatype Member = Member(taskId: Option<string>, taskName: Option<string>, taskState: Option<string>,
                           actual: Option<Lifecycle>, expected: Option<Lifecycle>, managed: bool)

  /** The state of the first pass of a scan: the group's members and the task names listed so far. */
  datatype Scan = Scan(members: seq<Member>, names: seq<string>)

  // ---------------------------------------------------------------------------
  // The first pass: refreshing and adopting tasks
  // ---------------------------------------------------------------------------

  function HasFrameworkId(id: string): FrameworkJson -> bool
  {
    (f: FrameworkJson) => f.id == id
  }

  function HasTaskId(id: string): Member -> bool
  {
    (m: Member) => m.taskId == Some(id)
  }

  /** Whether some member carries the task id `id`. */
  predicate Known(members: seq<Member>, id: string)
  {
    exists i :: 0 <= i < |members| && members[i].taskId == Some(id)
  }

  /** The unmanaged member created for a running task no member knows. */
  function Adopted(t: TaskJson): Member
  {
    Member(Some(t.id), Some(t.name), Some(t.state), None, None, false)
  }

  /**
   * One step of the first pass: the first member with the task's id gets the
   * task's state and the name is listed; otherwise a running task becomes a
   * new member and is listed; any other task is skipped.
   */
  function ApplyTask(s: Scan, t: TaskJson): (r: Scan)
    ensures |r.members| == |s.members| + (if First(s.members, HasTaskId(t.id)).None? && t.state == TaskRunning then 1 else 0)
    ensures forall i :: 0 <= i < |s.members| ==> r.members[i].(taskState := s.members[i].taskState) == s.members[i]
    ensures forall i :: |s.members| <= i < |r.members| ==> r.members[i] == Adopted(t)
    ensures r.names == if Known(s.members, t.id) || t.state == TaskRunning then s.names + [t.name] else s.names
    ensures forall id :: Known(r.members, id) <==> Known(s.members, id) || (id == t.id && t.state == TaskRunning)
    ensures First(s.members, HasTaskId(t.id)).Some? ==>
              r.members[First(s.members, HasTaskId(t.id)).value].taskState == Some(t.state)
    ensures forall i :: 0 <= i < |s.members| && First(s.members, HasTaskId(t.id)) != Some(i) ==>
              r.members[i].taskState == s.members[i].taskState
  {
    match First(s.members, HasTaskId(t.id))
    case Some(k) =>
      Scan(s.members[k := s.members[k].(taskId := Some(t.id), taskState := Some(t.state))], s.names + [t.name])
    case None =>
      if t.state == TaskRunning then
        var members := s.members + [Adopted(t)];
        assert members[|s.members|].taskId == Some(t.id);
        assert forall i :: 0 <= i < |s.members| ==> members[i] == s.members[i];
        Scan(members, s.names + [t.name])
      else s
  }

  /**
   * The first pass over a framework's tasks, in order. Existing members keep
   * everything but their task state; the members added are adopted, unmanaged
   * tasks.
   */
  function Reconcile(members: seq<Member>, tasks: seq<TaskJson>): (r: Scan)
    ensures |members| <= |r.members|
    ensures forall i :: 0 <= i < |members| ==> r.members[i].(taskState := members[i].taskState) == members[i]
    ensures forall i :: |members| <= i < |r.members| ==> !r.members[i].managed && r.members[i].actual.None?
    ensures |r.names| <= |tasks|
  {
    if tasks == [] then Scan(members, [])
    else ApplyTask(Reconcile(members, tasks[..|tasks| - 1]), tasks[|tasks| - 1])
  }

  /**
   * Every member the first pass adds was adopted for a running task (its task
   * state may since have been refreshed by a later task with the same id), and
   * its name is listed, so the pruning pass of the same scan keeps it.
   */
  lemma {:induction false} ReconcileAdds(members: seq<Member>, tasks: seq<TaskJson>, i: int)
    requires |members| <= i < |Reconcile(members, tasks).members|
    ensures exists k :: 0 <= k < |tasks| && tasks[k].state == TaskRunning &&
              Reconcile(members, tasks).members[i].(taskState := Some(tasks[k].state)) == Adopted(tasks[k])
    ensures Listed(Reconcile(members, tasks).members[i], Reconcile(members, tasks).names)
  {
    var init, last := tasks[..|tasks| - 1], tasks[|tasks| - 1];
    var before := Reconcile(members, init);
    var r := Reconcile(members, tasks);
    if i < |before.members| {
      ReconcileAdds(members, init, i);
      var k :| 0 <= k < |init| && init[k].state == TaskRunning &&
               before.members[i].(taskState := Some(init[k].state)) == Adopted(init[k]);
      assert r.members[i].(taskState := before.members[i].taskState) == before.members[i];
      assert tasks[k] == init[k];
    } else {
      assert r.members[i] == Adopted(last);
    }
  }

  /** The first pass over one more task applies that task to the scan so far. */
  lemma ReconcileStep(members: seq<Member>, tasks: seq<TaskJson>, j: int)
    requires 0 <= j < |tasks|
    ensures Reconcile(members, tasks[..j + 1]) == ApplyTask(Reconcile(members, tasks[..j]), tasks[j])
  {
    assert tasks[..j + 1][..j] == tasks[..j];
  }

  /** Member `i` carries a task id that no earlier member carries. */
  predicate FirstCarrier(members: seq<Member>, i: int)
    requires 0 <= i < |members|
  {
    members[i].taskId.Some? && forall j :: 0 <= j < i ==> members[j].taskId != members[i].taskId
  }

  /** The state of the last task with id `id`, if any task has it. */
  function LastState(tasks: seq<TaskJson>, id: string): Option<string>
  {
    if tasks == [] then None
    else if tasks[|tasks| - 1].id == id then Some(tasks[|tasks| - 1].state)
    else LastState(tasks[..|tasks| - 1], id)
  }

  /**
   * After the first pass, an original member that is the first to carry its
   * task id holds the state of the last task with that id; every other
   * original member, and one whose id no task has, keeps its task state.
   */
  lemma {:induction false} ReconcileTaskStates(members: seq<Member>, tasks: seq<TaskJson>, i: int)
    requires 0 <= i < |members|
    ensures Reconcile(members, tasks).members[i].taskState ==
              if FirstCarrier(members, i) && LastState(tasks, members[i].taskId.value).Some?
              then LastState(tasks, members[i].taskId.value)
              else members[i].taskState
  {
    if tasks != [] {
      var init, last := tasks[..|tasks| - 1], tasks[|tasks| - 1];
      ReconcileTaskStates(members, init, i);
      var before := Reconcile(members, init).members;
      var k := First(before, HasTaskId(last.id));
      if FirstCarrier(members, i) && members[i].taskId == Some(last.id) {
        assert HasTaskId(last.id)(before[i]);
        assert forall j :: 0 <= j < i ==> !HasTaskId(last.id)(before[j]) by {
          forall j | 0 <= j < i
            ensures !HasTaskId(last.id)(before[j])
          {
            assert before[j].taskId == members[j].taskId;
          }
        }
        assert k == Some(i);
      }
    }
  }

  /** Task `j` was adopted before: an earlier task with the same id was running. */
  ghost predicate AdoptedEarlier(tasks: seq<TaskJson>, j: int)
    requires 0 <= j < |tasks|
  {
    exists k :: 0 <= k < j && tasks[k].id == tasks[j].id && tasks[k].state == TaskRunning
  }

  /**
   * Whether the scan lists task `j`: it is running, or a member (present at the
   * start or adopted earlier in the same pass) already carries its id.
   */
  ghost predicate ListedTask(members: seq<Member>, tasks: seq<TaskJson>, j: int)
    requires 0 <= j < |tasks|
  {
    tasks[j].state == TaskRunning || Known(members, tasks[j].id) || AdoptedEarlier(tasks, j)
  }

  /** The names of the listed tasks, in task order: a reference for the names the first pass returns. */
  ghost function ListedNames(members: seq<Member>, tasks: seq<TaskJson>): seq<string>
  {
    if tasks == [] then []
    else ListedNames(members, tasks[..|tasks| - 1]) +
         (if ListedTask(members, tasks, |tasks| - 1) then [tasks[|tasks| - 1].name] else [])
  }

  /** After the first pass, the known task ids are the original ones plus those of running tasks. */
  lemma {:induction false} ReconcileKnownIds(members: seq<Member>, tasks: seq<TaskJson>, id: string)
    ensures Known(Reconcile(members, tasks).members, id) <==>
              Known(members, id) || exists k :: 0 <= k < |tasks| && tasks[k].id == id && tasks[k].state == TaskRunning
  {
    if tasks != [] {
      var init, last := tasks[..|tasks| - 1], tasks[|tasks| - 1];
      ReconcileKnownIds(members, init, id);
      if exists k :: 0 <= k < |init| && init[k].id == id && init[k].state == TaskRunning {
        var k :| 0 <= k < |init| && init[k].id == id && init[k].state == TaskRunning;
        assert tasks[k] == init[k];
      }
      if exists k :: 0 <= k < |tasks| && tasks[k].id == id && tasks[k].state == TaskRunning {
        var k :| 0 <= k < |tasks| && tasks[k].id == id && tasks[k].state == TaskRunning;
        if k < |init| {
          assert init[k] == tasks[k];
        }
      }
    }
  }

  /** The names the first pass lists are exactly the names of the listed tasks, in task order. */
  lemma {:induction false} ReconcileNames(members: seq<Member>, tasks: seq<TaskJson>)
    ensures Reconcile(members, tasks).names == ListedNames(members, tasks)
  {
    if tasks != [] {
      var init, last := tasks[..|tasks| - 1], tasks[|tasks| - 1];
      ReconcileNames(members, init);
      ListedLast(members, tasks);
    }
  }

  /** The last task is listed exactly when the first pass over the earlier tasks lists it. */
  lemma ListedLast(members: seq<Member>, tasks: seq<TaskJson>)
    requires tasks != []
    ensures ListedTask(members, tasks, |tasks| - 1) <==>
              Known(Reconcile(members, tasks[..|tasks| - 1]).members, tasks[|tasks| - 1].id) ||
              tasks[|tasks| - 1].state == TaskRunning
  {
    var init, last := tasks[..|tasks| - 1], tasks[|tasks| - 1];
    ReconcileKnownIds(members, init, last.id);
    if AdoptedEarlier(tasks, |tasks| - 1) {
      var k :| 0 <= k < |tasks| - 1 && tasks[k].id == last.id && tasks[k].state == TaskRunning;
      assert init[k] == tasks[k];
    }
    if exists k :: 0 <= k < |init| && init[k].id == last.id && init[k].state == TaskRunning {
      var k :| 0 <= k < |init| && init[k].id == last.id && init[k].state == TaskRunning;
      assert tasks[k] == init[k];
    }
  }

  /** Every running task is listed, whether it was known or adopted. */
  lemma RunningTasksListed(members: seq<Member>, tasks: seq<TaskJson>, j: int)
    requires 0 <= j < |tasks| && tasks[j].state == TaskRunning
    ensures tasks[j].name in Reconcile(members, tasks).names
  {
    ReconcileNames(members, tasks);
    ListedNamesContains(members, tasks, j);
  }

  lemma {:induction false} ListedNamesContains(members: seq<Member>, tasks: seq<TaskJson>, j: int)
    requires 0 <= j < |tasks| && ListedTask(members, tasks, j)
    ensures tasks[j].name in ListedNames(members, tasks)
  {
    var init := tasks[..|tasks| - 1];
    if j < |tasks| - 1 {
      assert init[j] == tasks[j];
      if AdoptedEarlier(tasks, j) {
        var k :| 0 <= k < j && tasks[k].id == tasks[j].id && tasks[k].state == TaskRunning;
        assert init[k] == tasks[k];
      }
      ListedNamesContains(members, init, j);
    }
  }

  // ---------------------------------------------------------------------------
  // The second pass: pruning members that are no longer listed
  // ---------------------------------------------------------------------------

  /** Whether a member's task name is among the listed names. */
  predicate Listed(m: Member, names: seq<string>)
  {
    m.taskName.Some? && m.taskName.value in names
  }

  /** Whether the pruning pass removes the member: unlisted and stopping or stopped. */
  predicate Removable(names: seq<string>, m: Member)
  {
    !Listed(m, names) && (m.actual == Some(Stopping) || m.actual == Some(Stopped))
  }

  /** What the pruning pass does to one member: the member as it is afterwards, or nothing if it is removed. */
  function PruneMember(m: Member, names: seq<string>): (r: seq<Member>)
    ensures r == [] <==> Removable(names, m)
    ensures r != [] ==> r == [Adjust(names)(m)]
  {
    if Listed(m, names) then [m]
    else if m.actual == Some(OnFire) || m.actual == Some(Starting) then [m]
    else if m.actual == Some(Stopping) || m.actual == Some(Stopped) then []
    else [m.(expected := Some(Stopping))]
  }

  /**
   * The pruning pass over the group's members, in order. Exactly the removable
   * members disappear; every member left is listed, starting or on fire, or
   * expected to be stopping.
   */
  function Prune(members: seq<Member>, names: seq<string>): (r: seq<Member>)
    ensures |r| == |members| - |Filter(members, (m: Member) => Removable(names, m))|
    ensures forall i :: 0 <= i < |r| ==>
              Listed(r[i], names) || r[i].actual == Some(OnFire) || r[i].actual == Some(Starting) ||
              (r[i].expected == Some(Stopping) && r[i].actual != Some(Stopping) && r[i].actual != Some(Stopped))
    ensures forall i :: 0 <= i < |r| ==>
              r[i] in members || exists m :: m in members && r[i] == m.(expected := Some(Stopping))
  {
    if members == [] then []
    else Prune(members[..|members| - 1], names) + PruneMember(members[|members| - 1], names)
  }

  /** Whether the pruning pass keeps the member. */
  function Kept(names: seq<string>): Member -> bool
  {
    (m: Member) => !Removable(names, m)
  }

  /** What the pruning pass makes of a member it keeps: unlisted members that are not starting or on fire are expected to stop. */
  function Adjust(names: seq<string>): Member -> Member
  {
    (m: Member) =>
      if Listed(m, names) || m.actual == Some(OnFire) || m.actual == Some(Starting) then m
      else m.(expected := Some(Stopping))
  }

  /**
   * The pruning pass, stated independently: the members it keeps, in their
   * order, each adjusted.
   */
  lemma {:induction false} PruneCharacterised(members: seq<Member>, names: seq<string>)
    ensures Prune(members, names) == Map(Filter(members, Kept(names)), Adjust(names))
  {
    if members != [] {
      var init, last := members[..|members| - 1], members[|members| - 1];
      PruneCharacterised(init, names);
      var kept := Filter(init, Kept(names));
      if Kept(names)(last) {
        assert (kept + [last])[..|kept + [last]| - 1] == kept;
      }
    }
  }

  /** Pruning one more member of a list appends what happens to that member. */
  lemma PruneStep(members: seq<Member>, k: int, names: seq<string>)
    requires 0 <= k < |members|
    ensures Prune(members[..k + 1], names) == Prune(members[..k], names) + PruneMember(members[k], names)
  {
    assert members[..k + 1][..k] == members[..k];
  }

  /** A listed member passes through pruning unchanged. */
  lemma {:induction false} PruneKeepsListed(members: seq<Member>, names: seq<string>, i: int)
    requires 0 <= i < |members| && Listed(members[i], names)
    ensures members[i] in Prune(members, names)
  {
    var init := members[..|members| - 1];
    if i < |members| - 1 {
      assert init[i] == members[i];
      PruneKeepsListed(init, names, i);
    }
  }

  /** Pruning a concatenation prunes each part. */
  lemma {:induction false} PruneAppend(a: seq<Member>, b: seq<Member>, names: seq<string>)
    ensures Prune(a + b, names) == Prune(a, names) + Prune(b, names)
  {
    if b != [] {
      var init, last := b[..|b| - 1], b[|b| - 1];
      PruneAppend(a, init, names);
      assert (a + b)[..|a + b| - 1] == a + init && (a + b)[|a + b| - 1] == last;
      assert Prune(a + b, names) == Prune(a + init, names) + PruneMember(last, names);
      assert Prune(b, names) == Prune(init, names) + PruneMember(last, names);
    } else {
      assert a + b == a;
    }
  }

  /** A second pruning pass with the same names changes nothing. */
  lemma {:induction false} PruneIdempotent(members: seq<Member>, names: seq<string>)
    ensures Prune(Prune(members, names), names) == Prune(members, names)
  {
    if members != [] {
      var init, last := members[..|members| - 1], members[|members| - 1];
      PruneIdempotent(init, names);
      PruneAppend(Prune(init, names), PruneMember(last, names), names);
      var p := PruneMember(last, names);
      if p != [] {
        PruneMemberSettled(last, names);
        assert p[..0] == [];
        assert Prune(p, names) == Prune([], names) + PruneMember(p[0], names);
      }
    }
  }

  /** A member the pruning pass keeps is kept as it is by a second pass. */
  lemma PruneMemberSettled(m: Member, names: seq<string>)
    requires !Removable(names, m)
    ensures PruneMember(Adjust(names)(m), names) == [Adjust(names)(m)]
  {
  }

  // ---------------------------------------------------------------------------
  // The framework entity
  // ---------------------------------------------------------------------------

  class MesosFramework {
    const frameworkId: string
    var completedTasks: Option<nat>
    var runningTasks: Option<nat>
    var members: seq<Member>

    constructor (frameworkId: string, members: seq<Member>)
      ensures this.frameworkId == frameworkId && this.members == members
      ensures completedTasks == None && runningTasks == None
    {
      this.frameworkId := frameworkId;
      this.members := members;
      completedTasks := None;
      runningTasks := None;
    }

    /** The position of the first member carrying task id `id`, if any. */
    method FindMember(id: string) returns (k: Option<nat>)
      ensures k == First(members, HasTaskId(id))
    {
      var i := 0;
      while i < |members|
        invariant 0 <= i <= |members|
        invariant FirstFrom(members, HasTaskId(id), i) == First(members, HasTaskId(id))
      {
        if members[i].taskId == Some(id) {
          return Some(i);
        }
        i := i + 1;
      }
      k := None;
    }

    /**
     * One scan of the master's `frameworks` array. Without an entry for this
     * framework nothing changes and there is no result. Otherwise, for the
     * first such entry, the task counts are set, the first pass refreshes and
     * adopts tasks, the second pass prunes the members no longer listed, and the
     * listed names are returned.
     */
    method ScanTasks(frameworks: seq<FrameworkJson>) returns (names: Option<seq<string>>)
      modifies this
      ensures First(frameworks, HasFrameworkId(frameworkId)).None? ==>
                names.None? && members == old(members) &&
                completedTasks == old(completedTasks) && runningTasks == old(runningTasks)
      ensures First(frameworks, HasFrameworkId(frameworkId)).Some? ==>
                var entry := frameworks[First(frameworks, HasFrameworkId(frameworkId)).value];
                var scan := Reconcile(old(members), entry.tasks);
                completedTasks == Some(|entry.completedTasks|) && runningTasks == Some(|entry.tasks|) &&
                names == Some(scan.names) && members == Prune(scan.members, scan.names)
    {
      var i := 0;
      while i < |frameworks|
        invariant 0 <= i <= |frameworks|
        invariant FirstFrom(frameworks, HasFrameworkId(frameworkId), i) == First(frameworks, HasFrameworkId(frameworkId))
        invariant members == old(members) && completedTasks == old(completedTasks) && runningTasks == old(runningTasks)
      {
        var framework := frameworks[i];
        if frameworkId == framework.id {
          completedTasks := Some(|framework.completedTasks|);
          runningTasks := Some(|framework.tasks|);
          var taskNames := RefreshTasks(framework.tasks);
          PruneMembers(taskNames);
          return Some(taskNames);
        }
        i := i + 1;
      }
      names := None;
    }

    /** The first pass: refreshes known tasks, adopts running unknown ones, and lists their names. */
    method RefreshTasks(tasks: seq<TaskJson>) returns (taskNames: seq<string>)
      modifies this`members
      ensures Scan(members, taskNames) == Reconcile(old(members), tasks)
    {
      taskNames := [];
      var j := 0;
      while j < |tasks|
        invariant 0 <= j <= |tasks|
        invariant Scan(members, taskNames) == Reconcile(old(members), tasks[..j])
      {
        ReconcileStep(old(members), tasks, j);
        var json := tasks[j];
        ghost var next := ApplyTask(Scan(members, taskNames), json);
        var known := FindMember(json.id);
        if known.Some? {
          var k := known.value;
          members := members[k := members[k].(taskId := Some(json.id), taskState := Some(json.state))];
          taskNames := taskNames + [json.name];
        } else if json.state == TaskRunning {
          members := members + [Adopted(json)];
          taskNames := taskNames + [json.name];
        }
        assert Scan(members, taskNames) == next;
        j := j + 1;
      }
      assert tasks[..j] == tasks;
    }

    /**
     * The second pass, over a snapshot of the members: listed members and those
     * starting or on fire stay, stopping or stopped ones are removed, and the
     * rest are expected to stop.
     */
    method PruneMembers(taskNames: seq<string>)
      modifies this`members
      ensures members == Prune(old(members), taskNames)
    {
      var snapshot := members;
      var kept := [];
      var k := 0;
      while k < |snapshot|
        invariant 0 <= k <= |snapshot|
        invariant kept == Prune(snapshot[..k], taskNames)
      {
        PruneStep(snapshot, k, taskNames);
        var member := snapshot[k];
        if Listed(member, taskNames) {
          kept := kept + [member];
        } else if member.actual == Some(OnFire) || member.actual == Some(Starting) {
          kept := kept + [member];
        } else if member.actual == Some(Stopping) || member.actual == Some(Stopped) {
          // removed from the group
        } else {
          kept := kept + [member.(expected := Some(Stopping))];
        }
        assert kept == Prune(snapshot[..k], taskNames) + PruneMember(member, taskNames);
        k := k + 1;
      }
      assert snapshot[..k] == snapshot;
      members := kept;
    }
  }
}
