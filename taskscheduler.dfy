/**
 * The scheduler's list of cron entries (taskscheduler.go). The cron library
 * is not modelled: the id its AddFunc hands out is a parameter (zero when
 * the schedule does not parse), and removing an entry from it is implicit.
 * Saving the list to its file is reduced to whether the save succeeded.
 */
module TaskScheduler {

  /** A scheduled run of a task; `cronId` is zero while not registered. */
  class SchedEntry {
    const taskId: string
    const schedule: string
    var cronId: int

    constructor (taskId: string, schedule: string)
      ensures this.taskId == taskId && this.schedule == schedule && cronId == 0
    {
      this.taskId := taskId;
      this.schedule := schedule;
      cronId := 0;
    }
  }

  /** The position of the first entry for `taskId`, or |s| when there is none. */
  function FirstFor(s: seq<SchedEntry>, taskId: string): (i: nat)
    ensures i <= |s|
    ensures i < |s| ==> s[i].taskId == taskId
    ensures forall j :: 0 <= j < i ==> s[j].taskId != taskId
  {
    if s == [] then 0
    else if s[0].taskId == taskId then 0
    else 1 + FirstFor(s[1..], taskId)
  }

  /** `s` without its first entry for `taskId`. */
  function RemoveFor(s: seq<SchedEntry>, taskId: string): seq<SchedEntry> {
    var i := FirstFor(s, taskId);
    if i == |s| then s else s[..i] + s[i + 1..]
  }

  /** At most one entry per task. */
  predicate UniqueTasks(s: seq<SchedEntry>) {
    forall i, j :: 0 <= i < j < |s| ==> s[i].taskId != s[j].taskId
  }

  /** Without an entry for the task, removal changes nothing. */
  lemma RemoveForAbsent(s: seq<SchedEntry>, taskId: string)
    requires forall e :: e in s ==> e.taskId != taskId
    ensures RemoveFor(s, taskId) == s
  {
  }

  /** With an entry for the task, removal takes out the first one and keeps
      the others in order. */
  lemma RemoveForPresent(s: seq<SchedEntry>, taskId: string)
    requires exists e :: e in s && e.taskId == taskId
    ensures FirstFor(s, taskId) < |s|
    ensures |RemoveFor(s, taskId)| == |s| - 1
    ensures forall j :: 0 <= j < FirstFor(s, taskId) ==> RemoveFor(s, taskId)[j] == s[j]
    ensures forall j :: FirstFor(s, taskId) < j < |s| ==> RemoveFor(s, taskId)[j - 1] == s[j]
  {
    var e :| e in s && e.taskId == taskId;
    var k :| 0 <= k < |s| && s[k] == e;
    var i := FirstFor(s, taskId);
    assert i <= k;
    SpliceAt(s, i);
  }

  /** `s` without position `i`: the entries before it, then those after it
      moved down by one. */
  lemma SpliceAt(s: seq<SchedEntry>, i: nat)
    requires i < |s|
    ensures |s[..i] + s[i + 1..]| == |s| - 1
    ensures forall j :: 0 <= j < i ==> (s[..i] + s[i + 1..])[j] == s[j]
    ensures forall j :: i < j < |s| ==> (s[..i] + s[i + 1..])[j - 1] == s[j]
  {
  }

  /** When the entries were unique, removal leaves none for the task and
      keeps them unique. */
  lemma RemoveForUnique(s: seq<SchedEntry>, taskId: string)
    requires UniqueTasks(s)
    ensures UniqueTasks(RemoveFor(s, taskId))
    ensures forall e :: e in RemoveFor(s, taskId) ==> e.taskId != taskId
  {
    var i := FirstFor(s, taskId);
    if i < |s| {
      var r := RemoveFor(s, taskId);
      assert forall j :: 0 <= j < |r| ==> r[j] == if j < i then s[j] else s[j + 1];
      forall e | e in r ensures e.taskId != taskId {
        var j :| 0 <= j < |r| && r[j] == e;
        if j >= i {
          assert s[i].taskId != s[j + 1].taskId;
        }
      }
    } else {
      forall e | e in s ensures e.taskId != taskId {
        var j :| 0 <= j < |s| && s[j] == e;
      }
    }
  }

  /** Adding an entry for a task after removing its first one keeps the
      entries unique. */
  lemma AddKeepsUnique(s: seq<SchedEntry>, e: SchedEntry)
    requires UniqueTasks(s)
    ensures UniqueTasks(RemoveFor(s, e.taskId) + [e])
  {
    RemoveForUnique(s, e.taskId);
    var r := RemoveFor(s, e.taskId);
    assert forall j :: 0 <= j < |r| ==> r[j] in r;
  }

  class Scheduler {
    var schedules: seq<SchedEntry>

    constructor ()
      ensures schedules == []
    {
      schedules := [];
    }

    /** Schedules: a copy of the list, same entries in the same order; it
        does not change when the list does. */
    method Schedules() returns (r: seq<SchedEntry>)
      ensures |r| == |schedules| && forall i :: 0 <= i < |r| ==> r[i] == schedules[i]
    {
      r := schedules;
    }

    /** register: gives an unregistered entry the id the cron library handed
        out, and leaves a registered one alone. */
    static method Register(ent: SchedEntry, cronId: int)
      modifies ent
      ensures ent.cronId == if old(ent.cronId) != 0 then old(ent.cronId) else cronId
    {
      if ent.cronId != 0 {
        return;
      }
      ent.cronId := cronId;
    }

    /** unregister: a registered entry leaves the cron library and goes back
        to zero; an unregistered one is left alone. */
    static method Unregister(ent: SchedEntry)
      modifies ent
      ensures ent.cronId == 0
    {
      if ent.cronId == 0 {
        return;
      }
      ent.cronId := 0;
    }

    /** Remove: the first entry for the task is unregistered and leaves the
        list; the answer is whether there was one and the list was saved
        (`saved`). Without such an entry nothing changes and the answer is
        false. */
    method Remove(taskId: string, saved: bool) returns (ok: bool)
      modifies this, schedules
      ensures schedules == RemoveFor(old(schedules), taskId)
      ensures ok <==> saved && exists e :: e in old(schedules) && e.taskId == taskId
      ensures var i := FirstFor(old(schedules), taskId);
        forall e :: e in old(schedules) ==>
          e.cronId == if i < |old(schedules)| && e == old(schedules)[i] then 0 else old(e.cronId)
    {
      var i := 0;
      while i < |schedules|
        invariant 0 <= i <= |schedules| && schedules == old(schedules)
        invariant forall j :: 0 <= j < i ==> schedules[j].taskId != taskId
      {
        var ent := schedules[i];
        if ent.taskId == taskId {
          assert FirstFor(schedules, taskId) == i;
          Unregister(ent);
          schedules := schedules[..i] + schedules[i + 1..];
          return saved;
        }
        i := i + 1;
      }
      assert FirstFor(schedules, taskId) == |schedules|;
      return false;
    }

    /** Add: the task's first entry is removed and unregistered, and a new
        entry for the task and schedule joins the end of the list and is
        registered; every other entry keeps its cron id. */
    method Add(taskId: string, schedule: string, cronId: int, saved: bool) returns (ent: SchedEntry)
      modifies this, schedules
      ensures fresh(ent) && ent.taskId == taskId && ent.schedule == schedule && ent.cronId == cronId
      ensures schedules == RemoveFor(old(schedules), taskId) + [ent]
      ensures var i := FirstFor(old(schedules), taskId);
        forall e :: e in old(schedules) ==>
          e.cronId == if i < |old(schedules)| && e == old(schedules)[i] then 0 else old(e.cronId)
      ensures UniqueTasks(old(schedules)) ==> UniqueTasks(schedules)
    {
      var _ := Remove(taskId, saved);
      ent := new SchedEntry(taskId, schedule);
      if UniqueTasks(old(schedules)) {
        AddKeepsUnique(old(schedules), ent);
      }
      schedules := schedules + [ent];
      Register(ent, cronId);
    }
  }
}
