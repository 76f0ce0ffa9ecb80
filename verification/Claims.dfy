/**
 * Scheduled tasks claimed by any number of schedulers that work on rows they read earlier
 * (server/app/scheduler.py, server/app/db.py). The lease plays no part here.
 */
module Claims {
  import opened Basics
  import opened Schedules

  /** A row of tasks; instants are UTC microseconds and `zone` is the offset of the task's wall clock. */
  datatype Task = Task(schedule: Schedule, zone: int, enabled: bool, deleted: bool, nextRun: Option<int>)

  /** A row of task_runs; the table is unique in both columns together. */
  datatype Run = Run(task: string, scheduledFor: int)

  datatype Tables = Tables(tasks: map<string, Task>, runs: seq<Run>)

  /** A row as a scheduler read it. */
  datatype DueRow = DueRow(id: string, task: Task)

  predicate Due(t: Task, now: int) {
    t.enabled && !t.deleted && t.nextRun.Some? && t.nextRun.value <= now
  }

  /** `next` is what next_run gives for this schedule after the UTC instant `after`. */
  ghost predicate Follows(schedule: Schedule, zone: int, after: int, next: int) {
    IsNext(schedule, after + zone, next + zone)
  }

  // The claim transaction.

  /** The compare of compare-and-set: the row is still enabled and still due at the time that was read. */
  predicate Unmoved(tables: Tables, row: DueRow) {
    && row.id in tables.tasks && !tables.tasks[row.id].deleted
    && tables.tasks[row.id].enabled && tables.tasks[row.id].nextRun == row.task.nextRun
  }

  function RunOf(row: DueRow): Run
    requires row.task.nextRun.Some?
  {
    Run(row.id, row.task.nextRun.value)
  }

  /** INSERT OR IGNORE puts a run in only if there is none for the same task and time. */
  predicate Claims(tables: Tables, row: DueRow)
    requires row.task.nextRun.Some?
  {
    Unmoved(tables, row) && RunOf(row) !in tables.runs
  }

  function Claim(tables: Tables, row: DueRow, next: int): Tables
    requires row.task.nextRun.Some?
  {
    if !Unmoved(tables, row) then tables
    else Tables(tables.tasks[row.id := tables.tasks[row.id].(nextRun := Some(next))],
                if RunOf(row) in tables.runs then tables.runs else tables.runs + [RunOf(row)])
  }

  // Editing.

  /** What update_task may change; an absent field is left as it is. */
  datatype Changes = Changes(schedule: Option<Schedule>, zone: Option<int>, enabled: Option<bool>)

  predicate Reschedules(existing: Task, c: Changes) {
    c.enabled == Some(true) || (c.enabled.None? && (c.schedule.Some? || c.zone.Some?) && existing.enabled)
  }

  /** The UPDATE of a row that was read as `existing` earlier and may have changed since. */
  function Edited(t: Task, existing: Task, c: Changes, next: int): Task {
    t.(schedule := c.schedule.GetOr(t.schedule), zone := c.zone.GetOr(t.zone), enabled := c.enabled.GetOr(t.enabled),
       nextRun := if Reschedules(existing, c) then Some(next) else if c.enabled == Some(false) then None else t.nextRun)
  }

  // Any number of schedulers.

  /** The rows a scheduler has still to claim, and the run it has claimed but not started. */
  datatype Process = Process(rows: seq<DueRow>, claimed: Option<Run>)

  /** `started` lists the runs handed to _start_task_run. */
  datatype State = State(tables: Tables, processes: map<int, Process>, started: seq<Run>)

  const EMPTY := State(Tables(map[], []), map[], [])

  datatype Op =
    | Create(id: string, schedule: Schedule, zone: int, enabled: bool, now: int, next: int)
    | Update(id: string, existing: Task, changes: Changes, now: int, next: int)
    | Delete(id: string)
    | Fetch(process: int, now: int, rows: seq<DueRow>)
    | ClaimNext(process: int, next: int)
    | Start(process: int)
    | Stop(process: int)

  ghost predicate Enabled(s: State, op: Op) {
    match op
    case Create(id, schedule, zone, enabled, now, next) =>
      id !in s.tables.tasks && (enabled ==> Follows(schedule, zone, now, next))
    case Update(id, existing, c, now, next) =>
      && id in s.tables.tasks && !s.tables.tasks[id].deleted
      && (Reschedules(existing, c) ==>
            Follows(c.schedule.GetOr(existing.schedule), c.zone.GetOr(existing.zone), now, next))
    case Delete(id) => id in s.tables.tasks
    case Fetch(p, now, rows) =>
      && (p in s.processes ==> s.processes[p] == Process([], None))
      && forall i :: 0 <= i < |rows| ==>
           rows[i].id in s.tables.tasks && rows[i].task == s.tables.tasks[rows[i].id] && Due(rows[i].task, now)
    case ClaimNext(p, next) =>
      && p in s.processes && s.processes[p].claimed.None? && s.processes[p].rows != []
      && var row := s.processes[p].rows[0];
         row.task.nextRun.Some? && Follows(row.task.schedule, row.task.zone, row.task.nextRun.value, next)
    case Start(p) => p in s.processes && s.processes[p].claimed.Some?
    case Stop(p) => p in s.processes
  }

  ghost function Apply(s: State, op: Op): State
    requires Enabled(s, op)
  {
    match op
    case Create(id, schedule, zone, enabled, _, next) =>
      s.(tables := s.tables.(tasks := s.tables.tasks[id :=
        Task(schedule, zone, enabled, false, if enabled then Some(next) else None)]))
    case Update(id, existing, c, _, next) =>
      s.(tables := s.tables.(tasks := s.tables.tasks[id := Edited(s.tables.tasks[id], existing, c, next)]))
    case Delete(id) =>
      s.(tables := s.tables.(tasks := s.tables.tasks[id := s.tables.tasks[id].(enabled := false, deleted := true)]))
    case Fetch(p, _, rows) => s.(processes := s.processes[p := Process(rows, None)])
    case ClaimNext(p, next) =>
      var row := s.processes[p].rows[0];
      var got := if Claims(s.tables, row) then Some(RunOf(row)) else None;
      s.(tables := Claim(s.tables, row, next), processes := s.processes[p := Process(s.processes[p].rows[1..], got)])
    case Start(p) =>
      s.(started := s.started + [s.processes[p].claimed.value],
         processes := s.processes[p := s.processes[p].(claimed := None)])
    case Stop(p) => s.(processes := s.processes - {p})
  }

  ghost predicate Possible(s: State, ops: seq<Op>)
    decreases |ops|
  {
    ops == [] || (Enabled(s, ops[0]) && Possible(Apply(s, ops[0]), ops[1..]))
  }

  ghost function After(s: State, ops: seq<Op>): State
    requires Possible(s, ops)
    decreases |ops|
  {
    if ops == [] then s else After(Apply(s, ops[0]), ops[1..])
  }

  // Each occurrence starts at most once.

  /** A claimed run is in the table, is held by one process only, and has not been started. */
  ghost predicate Inv(s: State) {
    && NoRepeats(s.tables.runs) && NoRepeats(s.started)
    && (forall r :: r in s.started ==> r in s.tables.runs)
    && (forall p :: p in s.processes && s.processes[p].claimed.Some? ==>
          s.processes[p].claimed.value in s.tables.runs && s.processes[p].claimed.value !in s.started)
    && (forall p, q | p in s.processes && q in s.processes && p != q && s.processes[p].claimed.Some? ::
          s.processes[p].claimed != s.processes[q].claimed)
    && (forall r :: r in s.tables.runs ==> r.task in s.tables.tasks)
    && (forall p, i | p in s.processes && 0 <= i < |s.processes[p].rows| ::
          s.processes[p].rows[i].id in s.tables.tasks && s.processes[p].rows[i].task.nextRun.Some?)
  }

  lemma ClaimKeepsInv(s: State, op: Op)
    requires Inv(s) && op.ClaimNext? && Enabled(s, op)
    ensures Inv(Apply(s, op))
  {
    var row := s.processes[op.process].rows[0];
    if Claims(s.tables, row) {
      NoRepeatsAppend(s.tables.runs, RunOf(row));
    }
  }

  lemma StepKeepsInv(s: State, op: Op)
    requires Inv(s) && Enabled(s, op)
    ensures Inv(Apply(s, op))
  {
    if op.ClaimNext? {
      ClaimKeepsInv(s, op);
    } else if op.Start? {
      NoRepeatsAppend(s.started, s.processes[op.process].claimed.value);
    }
  }

  lemma {:induction false} RunKeepsInv(s: State, ops: seq<Op>)
    requires Inv(s) && Possible(s, ops)
    ensures Inv(After(s, ops))
    decreases |ops|
  {
    if ops != [] {
      StepKeepsInv(s, ops[0]);
      RunKeepsInv(Apply(s, ops[0]), ops[1..]);
    }
  }

  /** However many schedulers work on however old rows, no task is started twice for the same time. */
  lemma StartsOnce(ops: seq<Op>, i: nat, j: nat)
    requires Possible(EMPTY, ops) && i < j < |After(EMPTY, ops).started|
    ensures After(EMPTY, ops).started[i] != After(EMPTY, ops).started[j]
  {
    RunKeepsInv(EMPTY, ops);
  }

  // A task that is not edited is claimed at every time of its schedule, in order.

  /** Runs of the task are exactly the times its schedule names from `first` until its next run, in rising order. */
  ghost predicate OnSchedule(t: Tables, id: string, schedule: Schedule, zone: int, first: int) {
    && id in t.tasks && t.tasks[id].schedule == schedule && t.tasks[id].zone == zone && t.tasks[id].nextRun.Some?
    && first <= t.tasks[id].nextRun.value && Occurs(schedule, t.tasks[id].nextRun.value + zone)
    && (forall u {:trigger Run(id, u)} ::
          Run(id, u) in t.runs <==> first <= u < t.tasks[id].nextRun.value && Occurs(schedule, u + zone))
    && (forall i, j | 0 <= i < j < |t.runs| && t.runs[i].task == id && t.runs[j].task == id ::
          t.runs[i].scheduledFor < t.runs[j].scheduledFor)
  }

  /** No scheduler holds a row of the task with another schedule. */
  ghost predicate RowsAgree(s: State, id: string, schedule: Schedule, zone: int) {
    forall p, i | p in s.processes && 0 <= i < |s.processes[p].rows| && s.processes[p].rows[i].id == id ::
      s.processes[p].rows[i].task.schedule == schedule && s.processes[p].rows[i].task.zone == zone
  }

  ghost predicate Steady(s: State, id: string, schedule: Schedule, zone: int, first: int) {
    OnSchedule(s.tables, id, schedule, zone, first) && RowsAgree(s, id, schedule, zone)
  }

  lemma ClaimStaysOnSchedule(t: Tables, row: DueRow, next: int, id: string, schedule: Schedule, zone: int, first: int)
    requires OnSchedule(t, id, schedule, zone, first) && row.task.nextRun.Some?
    requires row.id == id ==> Follows(schedule, zone, row.task.nextRun.value, next)
    ensures OnSchedule(Claim(t, row, next), id, schedule, zone, first)
  {
    var after := Claim(t, row, next);
    if row.id != id {
      forall u ensures Run(id, u) in after.runs <==> Run(id, u) in t.runs {
      }
    } else if Unmoved(t, row) {
      var due := row.task.nextRun.value;
      assert Run(id, due) !in t.runs;
      assert after.runs == t.runs + [Run(id, due)];
      forall u ensures Run(id, u) in after.runs <==> first <= u < next && Occurs(schedule, u + zone) {
        assert Run(id, u) in after.runs <==> Run(id, u) in t.runs || u == due;
        if due < u < next {
          assert !Occurs(schedule, u + zone);
        }
      }
      forall i, j | 0 <= i < j < |after.runs| && after.runs[i].task == id && after.runs[j].task == id
        ensures after.runs[i].scheduledFor < after.runs[j].scheduledFor
      {
        if j == |t.runs| {
          assert Run(id, after.runs[i].scheduledFor) == t.runs[i];
        }
      }
    }
  }

  /** A row that is still current is always claimed: its run is new, and the task moves on to a later time. */
  lemma CurrentRowIsClaimed(t: Tables, id: string, next: int, schedule: Schedule, zone: int, first: int)
    requires OnSchedule(t, id, schedule, zone, first) && t.tasks[id].enabled && !t.tasks[id].deleted
    requires Follows(schedule, zone, t.tasks[id].nextRun.value, next)
    ensures var row, after := DueRow(id, t.tasks[id]), Claim(t, DueRow(id, t.tasks[id]), next);
      && Claims(t, row) && after.runs == t.runs + [Run(id, t.tasks[id].nextRun.value)]
      && after.tasks[id].nextRun == Some(next) && next > t.tasks[id].nextRun.value
  {
    assert Run(id, t.tasks[id].nextRun.value) !in t.runs;
  }

  /** A task that was disabled, deleted or moved on since its row was read is left alone. */
  lemma MovedRowIsNotClaimed(t: Tables, row: DueRow, next: int)
    requires row.task.nextRun.Some?
    requires row.id in t.tasks ==>
      t.tasks[row.id].deleted || !t.tasks[row.id].enabled || t.tasks[row.id].nextRun != row.task.nextRun
    ensures Claim(t, row, next) == t && !Claims(t, row)
  {
  }

  /** What an edit does to the next run: a task that is switched off has none, and one that is not touched keeps it. */
  lemma EditingNextRun(t: Task, existing: Task, c: Changes, next: int)
    ensures var e := Edited(t, existing, c, next);
      && (c.enabled == Some(true) ==> e.enabled && e.nextRun == Some(next))
      && (c.enabled == Some(false) ==> !e.enabled && e.nextRun == None)
      && (c.enabled == None ==> e.enabled == t.enabled)
      && (c.enabled == None && c.schedule == None && c.zone == None ==> e == t)
      && (c.enabled == None && (c.schedule != None || c.zone != None) ==>
            e.nextRun == if existing.enabled then Some(next) else t.nextRun)
      && (c.schedule == None ==> e.schedule == t.schedule) && (c.zone == None ==> e.zone == t.zone)
      && (c.schedule.Some? ==> e.schedule == c.schedule.value) && (c.zone.Some? ==> e.zone == c.zone.value)
      && e.deleted == t.deleted
  {
  }

  /** Deleting a task also disables it, and keeps its runs and every other task. */
  lemma DeletingDisables(s: State, id: string)
    requires Enabled(s, Delete(id))
    ensures var t := Apply(s, Delete(id));
      && t.tables.runs == s.tables.runs && t.processes == s.processes && t.started == s.started
      && t.tables.tasks.Keys == s.tables.tasks.Keys
      && t.tables.tasks[id] == s.tables.tasks[id].(enabled := false, deleted := true)
      && forall x :: x in s.tables.tasks && x != id ==> t.tables.tasks[x] == s.tables.tasks[x]
  {
  }

  /** A scheduler reads only rows that are enabled, not deleted, and due by its clock. */
  lemma FetchedAreDue(s: State, process: int, now: int, rows: seq<DueRow>, i: nat)
    requires Enabled(s, Fetch(process, now, rows)) && i < |rows|
    ensures rows[i].id in s.tables.tasks && s.tables.tasks[rows[i].id] == rows[i].task
    ensures rows[i].task.enabled && !rows[i].task.deleted
    ensures rows[i].task.nextRun.Some? && rows[i].task.nextRun.value <= now
  {
  }

  predicate Edits(op: Op, id: string) {
    op.Update? && op.id == id
  }

  lemma StepStaysSteady(s: State, op: Op, id: string, schedule: Schedule, zone: int, first: int)
    requires Enabled(s, op) && !Edits(op, id) && Steady(s, id, schedule, zone, first)
    ensures Steady(Apply(s, op), id, schedule, zone, first)
  {
    if op.ClaimNext? {
      var row := s.processes[op.process].rows[0];
      ClaimStaysOnSchedule(s.tables, row, op.next, id, schedule, zone, first);
    }
  }

  lemma {:induction false} RunStaysSteady(s: State, ops: seq<Op>, id: string, schedule: Schedule, zone: int, first: int)
    requires Possible(s, ops) && Steady(s, id, schedule, zone, first)
    requires forall i :: 0 <= i < |ops| ==> !Edits(ops[i], id)
    ensures Steady(After(s, ops), id, schedule, zone, first)
    decreases |ops|
  {
    if ops != [] {
      StepStaysSteady(s, ops[0], id, schedule, zone, first);
      RunStaysSteady(Apply(s, ops[0]), ops[1..], id, schedule, zone, first);
    }
  }

  lemma CreatedIsSteady(s: State, create: Op)
    requires Inv(s) && create.Create? && create.enabled && Enabled(s, create)
    ensures Steady(Apply(s, create), create.id, create.schedule, create.zone, create.next)
  {
    forall u ensures Run(create.id, u) !in s.tables.runs {
      assert Run(create.id, u).task == create.id;
    }
    var t := Apply(s, create);
    assert t.tables.runs == s.tables.runs && t.processes == s.processes;
    assert OnSchedule(t.tables, create.id, create.schedule, create.zone, create.next);
  }

  /**
   * From its creation on, and as long as nobody edits it, a task is claimed at every time its schedule names
   * from the first, without a gap, in order, and at no other time.
   */
  lemma ClaimsAreGapFree(before: seq<Op>, create: Op, more: seq<Op>)
    requires Possible(EMPTY, before) && create.Create? && create.enabled && Enabled(After(EMPTY, before), create)
    requires Possible(Apply(After(EMPTY, before), create), more)
    requires forall i :: 0 <= i < |more| ==> !Edits(more[i], create.id)
    ensures var s := After(Apply(After(EMPTY, before), create), more);
      OnSchedule(s.tables, create.id, create.schedule, create.zone, create.next)
  {
    RunKeepsInv(EMPTY, before);
    CreatedIsSteady(After(EMPTY, before), create);
    RunStaysSteady(Apply(After(EMPTY, before), create), more, create.id, create.schedule, create.zone, create.next);
  }

  // The tables as an object, and the body of claim_due_tasks.

  class TaskStore {
    var tasks: map<string, Task>
    var runs: seq<Run>

    ghost function View(): Tables
      reads this
    {
      Tables(tasks, runs)
    }

    constructor ()
      ensures View() == EMPTY.tables
    {
      tasks, runs := map[], [];
    }

    /** One row of the due list: compute its next time, then claim it in a transaction. */
    method ClaimDue(row: DueRow, reference: Wall, now: Wall) returns (claimed: bool, ghost next: Option<int>)
      requires row.task.nextRun.Some? && (!row.task.schedule.CronLine? ==> ClockOk(row.task.schedule))
      requires WallOk(reference) && WallOk(now) && Time(reference) == row.task.nextRun.value + row.task.zone
      modifies this
      ensures next.Some? ==> Follows(row.task.schedule, row.task.zone, row.task.nextRun.value, next.value)
      ensures View() == if next.Some? then Claim(old(View()), row, next.value) else old(View())
      ensures claimed == (next.Some? && Claims(old(View()), row))
      ensures claimed ==>
        && row.id in old(tasks) && old(tasks)[row.id].enabled && !old(tasks)[row.id].deleted
        && old(tasks)[row.id].nextRun == row.task.nextRun && Run(row.id, row.task.nextRun.value) !in old(runs)
        && runs == old(runs) + [Run(row.id, row.task.nextRun.value)]
        && tasks == old(tasks)[row.id := old(tasks)[row.id].(nextRun := next)]
      ensures !claimed ==> runs == old(runs)
      ensures !row.task.schedule.CronLine? ==> next.Some?
    {
      claimed := false;
      var found := NextRun(row.task.schedule, row.task.zone, row.task.nextRun.value, reference, now);
      next := found;
      if found.None? {
        return;
      }
      if row.id in tasks && !tasks[row.id].deleted {
        var current := tasks[row.id];
        if current.enabled && current.nextRun == row.task.nextRun {
          if RunOf(row) !in runs {
            runs := runs + [RunOf(row)];
            claimed := true;
          }
          tasks := tasks[row.id := current.(nextRun := found)];
        }
      }
    }
  }
}
