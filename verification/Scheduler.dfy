/** The deferred-task store (`ScheduledTasks` rows) and the background
    scheduler (`TaskSchedulerService`, `CreateTask`, `ITaskSchedulerService`).

    One iteration of the polling loop is the pure function `Tick`: which
    handler calls fail, and whether the store itself fails, are inputs. The
    loop is the fold `Run` over the inputs of successive iterations; it ends
    when they run out, which is where cancellation is requested. */
module Scheduler {
  import opened Common

  /** The direct message the test task sends. */
  const TestTaskMessage: string := "This is a task that's been run."

  /** The task kinds the source names. Only `TestTask` has a handler case. */
  datatype TaskKind = TestTask | UnMute

  /** One `ScheduledTasks` row; `id` is assigned by the store. */
  datatype ScheduledTask = ScheduledTask(
    id: nat,
    kind: TaskKind,
    executeAt: Time,
    guild: Option<Id>,
    channel: Option<Id>,
    user: Option<Id>)

  /** The table, in insertion order, and the next identity value. */
  datatype TaskStore = TaskStore(rows: seq<ScheduledTask>, nextId: nat)

  predicate IdsIncreasing(rows: seq<ScheduledTask>) {
    forall i, j :: 0 <= i < j < |rows| ==> rows[i].id < rows[j].id
  }

  /** Identities are unique (increasing in insertion order) and below `nextId`. */
  predicate Valid(st: TaskStore) {
    && IdsIncreasing(st.rows)
    && forall i :: 0 <= i < |st.rows| ==> st.rows[i].id < st.nextId
  }

  /** The rows of `rows` that satisfy `keep`, in order. */
  function Filter(rows: seq<ScheduledTask>, keep: ScheduledTask -> bool): (r: seq<ScheduledTask>)
    ensures |r| <= |rows|
    ensures forall t :: t in r <==> t in rows && keep(t)
  {
    if |rows| == 0 then []
    else (if keep(rows[0]) then [rows[0]] else []) + Filter(rows[1..], keep)
  }

  /** Filtering keeps the relative order, so identities stay increasing. */
  lemma {:induction false} FilterIncreasing(rows: seq<ScheduledTask>, keep: ScheduledTask -> bool)
    requires IdsIncreasing(rows)
    ensures IdsIncreasing(Filter(rows, keep))
  {
    if |rows| > 0 {
      var rest := Filter(rows[1..], keep);
      FilterIncreasing(rows[1..], keep);
      if keep(rows[0]) {
        var r := Filter(rows, keep);
        assert r == [rows[0]] + rest;
        forall i, j | 0 <= i < j < |r|
          ensures r[i].id < r[j].id
        {
          if i == 0 {
            assert r[j] == rest[j - 1];
            assert r[j] in rows[1..];
            var k :| 0 <= k < |rows[1..]| && rows[1..][k] == r[j];
            assert rows[k + 1] == r[j];
          } else {
            assert r[i] == rest[i - 1] && r[j] == rest[j - 1];
          }
        }
      }
    }
  }

  /** Deleting rows keeps a valid store valid. */
  lemma FilterValid(st: TaskStore, keep: ScheduledTask -> bool)
    ensures Valid(st) ==> Valid(TaskStore(Filter(st.rows, keep), st.nextId))
  {
    if Valid(st) {
      FilterIncreasing(st.rows, keep);
      var r := Filter(st.rows, keep);
      forall i | 0 <= i < |r|
        ensures r[i].id < st.nextId
      {
        assert r[i] in st.rows;
      }
    }
  }

  // ---------------------------------------------------------------------------
  // Add and remove
  // ---------------------------------------------------------------------------

  /** `AddTaskAsync`: append one row for the given kind, guild, user and time;
      the channel stays unset. There is no duplicate check. */
  function AddTask(st: TaskStore, kind: TaskKind, guild: Id, user: Id, executeAt: Time): (r: TaskStore)
    ensures |r.rows| == |st.rows| + 1 && r.rows[..|st.rows|] == st.rows
    ensures var t := r.rows[|st.rows|];
            && t.kind == kind && t.guild == Some(guild) && t.user == Some(user)
            && t.executeAt == executeAt && t.channel.None?
    ensures Valid(st) ==> Valid(r) && forall t :: t in st.rows ==> t.id != r.rows[|st.rows|].id
  {
    TaskStore(st.rows + [ScheduledTask(st.nextId, kind, executeAt, Some(guild), None, Some(user))], st.nextId + 1)
  }

  /** The rows `RemoveTaskAsync(kind, guild, user)` deletes. */
  predicate Targets(t: ScheduledTask, kind: TaskKind, guild: Id, user: Id) {
    t.kind == kind && t.guild == Some(guild) && t.user == Some(user)
  }

  function CountTargets(rows: seq<ScheduledTask>, kind: TaskKind, guild: Id, user: Id): nat {
    if |rows| == 0 then 0
    else CountTargets(rows[..|rows| - 1], kind, guild, user)
         + (if Targets(rows[|rows| - 1], kind, guild, user) then 1 else 0)
  }

  /** Adding the same (kind, guild, user) twice leaves two rows for it. */
  lemma AddTwiceKeepsBoth(st: TaskStore, kind: TaskKind, guild: Id, user: Id, at1: Time, at2: Time)
    ensures var r := AddTask(AddTask(st, kind, guild, user, at1), kind, guild, user, at2);
            CountTargets(r.rows, kind, guild, user) == CountTargets(st.rows, kind, guild, user) + 2
  {
    var r1 := AddTask(st, kind, guild, user, at1);
    var r2 := AddTask(r1, kind, guild, user, at2);
    assert r2.rows[..|r2.rows| - 1] == r1.rows;
    assert r1.rows[..|r1.rows| - 1] == st.rows;
  }

  /** `RemoveTaskAsync`: delete every row of the given kind for the given
      guild and user; every other row stays, in order. */
  function RemoveTasks(st: TaskStore, kind: TaskKind, guild: Id, user: Id): (r: TaskStore)
    ensures r.nextId == st.nextId
    ensures forall t :: t in r.rows ==> !Targets(t, kind, guild, user)
    ensures forall t :: t in st.rows && !Targets(t, kind, guild, user) ==> t in r.rows
    ensures forall t :: t in r.rows ==> t in st.rows
    ensures Valid(st) ==> Valid(r)
  {
    var keep := t => !Targets(t, kind, guild, user);
    FilterValid(st, keep);
    TaskStore(Filter(st.rows, keep), st.nextId)
  }

  /** A remove that matches nothing changes nothing, so removing twice is
      removing once. */
  lemma RemoveIdempotent(st: TaskStore, kind: TaskKind, guild: Id, user: Id)
    ensures (forall t :: t in st.rows ==> !Targets(t, kind, guild, user)) ==> RemoveTasks(st, kind, guild, user) == st
    ensures RemoveTasks(RemoveTasks(st, kind, guild, user), kind, guild, user) == RemoveTasks(st, kind, guild, user)
  {
    var keep := t => !Targets(t, kind, guild, user);
    if forall t :: t in st.rows ==> !Targets(t, kind, guild, user) {
      FilterAllKept(st.rows, keep);
    }
    FilterAllKept(RemoveTasks(st, kind, guild, user).rows, keep);
  }

  lemma {:induction false} FilterAllKept(rows: seq<ScheduledTask>, keep: ScheduledTask -> bool)
    requires forall t :: t in rows ==> keep(t)
    ensures Filter(rows, keep) == rows
  {
    if |rows| > 0 {
      FilterAllKept(rows[1..], keep);
      assert rows == [rows[0]] + rows[1..];
    }
  }

  // ---------------------------------------------------------------------------
  // One iteration of the loop
  // ---------------------------------------------------------------------------

  datatype HandlerOutcome = Done(effects: seq<Effect>) | Threw

  /** `HandleTaskAsync`: the test task DMs its user (throwing when the row has
      no user or the platform call fails); a kind without a case does nothing
      and succeeds. */
  function HandleTask(t: ScheduledTask, platformFails: bool): (r: HandlerOutcome)
    ensures t.kind != TestTask ==> r == Done([])
    ensures t.kind == TestTask ==> (r.Done? <==> t.user.Some? && !platformFails)
    ensures t.kind == TestTask && r.Done? ==> r.effects == [DirectMessage(t.user.value, TestTaskMessage)]
  {
    match t.kind
    case TestTask =>
      if t.user.None? || platformFails then Threw
      else Done([DirectMessage(t.user.value, TestTaskMessage)])
    case UnMute => Done([])
  }

  /** A failure of the loop body as a whole. `FetchFails`: reading the due
      rows throws, nothing runs. `SaveFails`: the handlers ran but saving the
      removals throws, so the store keeps every row. */
  datatype StoreFault = NoFault | FetchFails | SaveFails

  /** What one iteration sees: the clock, the ids of the rows whose platform
      calls fail, and whether the store fails. */
  datatype TickInput = TickInput(now: Time, failing: set<nat>, fault: StoreFault)

  predicate IsDue(t: ScheduledTask, now: Time) {
    t.executeAt <= now
  }

  predicate Succeeds(t: ScheduledTask, failing: set<nat>) {
    HandleTask(t, t.id in failing).Done?
  }

  /** The rows `Where(task => task.ExecuteAt <= now)` fetches, in table order. */
  function Due(rows: seq<ScheduledTask>, now: Time): (r: seq<ScheduledTask>)
    ensures forall t :: t in r <==> t in rows && IsDue(t, now)
  {
    Filter(rows, t => IsDue(t, now))
  }

  /** Number of test tasks in `rows`. */
  function CountTestTasks(rows: seq<ScheduledTask>): nat {
    if |rows| == 0 then 0
    else (if rows[0].kind == TestTask then 1 else 0) + CountTestTasks(rows[1..])
  }

  /** The direct messages the test tasks among `rows` send, in row order:
      one per test task that names a user. */
  function TestTaskDms(rows: seq<ScheduledTask>): (r: seq<Effect>)
    ensures |r| <= |rows|
    ensures forall t :: t in rows && t.kind == TestTask && t.user.Some? ==>
              DirectMessage(t.user.value, TestTaskMessage) in r
    ensures forall e :: e in r ==>
              exists t :: t in rows && t.kind == TestTask && t.user.Some? && e == DirectMessage(t.user.value, TestTaskMessage)
  {
    if |rows| == 0 then []
    else
      var t := rows[0];
      (if t.kind == TestTask && t.user.Some? then [DirectMessage(t.user.value, TestTaskMessage)] else [])
      + TestTaskDms(rows[1..])
  }

  /** The `foreach` over the due rows: run each handler; a row whose handler
      returns is marked for removal, a row whose handler throws is skipped and
      the loop goes on. Yields the rows marked and the effects, in order. */
  function RunDue(due: seq<ScheduledTask>, failing: set<nat>): (r: (seq<ScheduledTask>, seq<Effect>))
    ensures forall t :: t in r.0 <==> t in due && Succeeds(t, failing)
    ensures |r.1| == CountTestTasks(r.0)
    ensures r.1 == TestTaskDms(r.0)
  {
    if |due| == 0 then ([], [])
    else
      var rest := RunDue(due[1..], failing);
      match HandleTask(due[0], due[0].id in failing)
      case Threw => rest
      case Done(e) =>
        var done := [due[0]] + rest.0;
        assert done[1..] == rest.0;
        (done, e + rest.1)
  }

  /** One iteration of `StartAsync`'s loop. */
  function Tick(st: TaskStore, input: TickInput): (r: (TaskStore, seq<Effect>))
    ensures r.0.nextId == st.nextId
    ensures input.fault == FetchFails ==> r.0 == st && r.1 == []
    ensures input.fault == SaveFails ==> r.0 == st
    ensures input.fault == NoFault ==>
              forall t :: t in r.0.rows <==> t in st.rows && !(IsDue(t, input.now) && Succeeds(t, input.failing))
    ensures forall t :: t in r.0.rows ==> t in st.rows
    ensures Valid(st) ==> Valid(r.0)
    ensures forall e :: e in r.1 ==>
              exists t :: t in st.rows && IsDue(t, input.now) && Succeeds(t, input.failing)
                          && t.kind == TestTask && t.user.Some? && e == DirectMessage(t.user.value, TestTaskMessage)
    ensures input.fault != FetchFails ==>
              forall t :: t in st.rows && IsDue(t, input.now) && Succeeds(t, input.failing) && t.kind == TestTask ==>
                t.user.Some? && DirectMessage(t.user.value, TestTaskMessage) in r.1
  {
    if input.fault == FetchFails then (st, [])
    else
      var (retired, effects) := RunDue(Due(st.rows, input.now), input.failing);
      if input.fault == SaveFails then (st, effects)
      else
        var keep := t => t !in retired;
        FilterValid(st, keep);
        (TaskStore(Filter(st.rows, keep), st.nextId), effects)
  }

  /** Within one iteration: a row not yet due is neither run nor removed; a
      due row is removed exactly when its handler returns, so a throwing
      handler keeps its row and does not keep any other row from being run
      and retired; a due row of a kind without a handler case is retired. */
  lemma TickPerRow(st: TaskStore, input: TickInput, t: ScheduledTask)
    requires input.fault == NoFault && t in st.rows
    ensures !IsDue(t, input.now) ==> t in Tick(st, input).0.rows
    ensures IsDue(t, input.now) && !Succeeds(t, input.failing) ==> t in Tick(st, input).0.rows
    ensures IsDue(t, input.now) && Succeeds(t, input.failing) ==> t !in Tick(st, input).0.rows
    ensures IsDue(t, input.now) && t.kind == UnMute ==> t !in Tick(st, input).0.rows
    ensures IsDue(t, input.now) && t.kind == TestTask && t.user.None? ==> t in Tick(st, input).0.rows
  {
  }

  // ---------------------------------------------------------------------------
  // The loop
  // ---------------------------------------------------------------------------

  /** The loop: one `Tick` per input, threading the store, collecting the
      effects in order. */
  function Run(st: TaskStore, inputs: seq<TickInput>): (r: (TaskStore, seq<Effect>))
    ensures r.0.nextId == st.nextId
    ensures forall t :: t in r.0.rows ==> t in st.rows
    ensures Valid(st) ==> Valid(r.0)
    decreases |inputs|
  {
    if |inputs| == 0 then (st, [])
    else
      var step := Tick(st, inputs[0]);
      var rest := Run(step.0, inputs[1..]);
      (rest.0, step.1 + rest.1)
  }

  /** Running `a` then `b` is running `a + b`. */
  lemma {:induction false} RunConcat(st: TaskStore, a: seq<TickInput>, b: seq<TickInput>)
    ensures Run(st, a + b).0 == Run(Run(st, a).0, b).0
    decreases |a|
  {
    if |a| > 0 {
      var ab := a + b;
      assert ab[0] == a[0];
      assert ab[1..] == a[1..] + b;
      RunConcat(Tick(st, a[0]).0, a[1..], b);
    } else {
      assert a + b == b;
    }
  }

  /** The store after the first `k + 1` iterations is one `Tick` after the
      store after the first `k`. */
  lemma RunStep(st: TaskStore, inputs: seq<TickInput>, k: nat)
    requires k < |inputs|
    ensures Run(st, inputs[..k + 1]).0 == Tick(Run(st, inputs[..k]).0, inputs[k]).0
  {
    assert inputs[..k + 1] == inputs[..k] + [inputs[k]];
    RunConcat(st, inputs[..k], [inputs[k]]);
  }

  /** Later stores hold only rows of earlier stores. */
  lemma RunShrinks(st: TaskStore, inputs: seq<TickInput>, k: nat, m: nat)
    requires k <= m <= |inputs|
    ensures forall t :: t in Run(st, inputs[..m]).0.rows ==> t in Run(st, inputs[..k]).0.rows
  {
    assert inputs[..m] == inputs[..k] + inputs[k..m];
    RunConcat(st, inputs[..k], inputs[k..m]);
  }

  /** A row retired by iteration `k` is absent after every later iteration,
      so its handler never runs again. */
  lemma RetiredStaysRetired(st: TaskStore, inputs: seq<TickInput>, k: nat, m: nat, t: ScheduledTask)
    requires k < m <= |inputs|
    requires inputs[k].fault == NoFault
    requires t in Run(st, inputs[..k]).0.rows
    requires IsDue(t, inputs[k].now) && Succeeds(t, inputs[k].failing)
    ensures t !in Run(st, inputs[..m]).0.rows
  {
    RunStep(st, inputs, k);
    TickPerRow(Run(st, inputs[..k]).0, inputs[k], t);
    RunShrinks(st, inputs, k + 1, m);
  }

  /** Removing the rows of (kind, guild, user) before they fall due means
      none of them is ever run: no later store holds one. */
  lemma RemovedNeverRuns(st: TaskStore, kind: TaskKind, guild: Id, user: Id, inputs: seq<TickInput>, m: nat)
    requires m <= |inputs|
    ensures forall t :: t in Run(RemoveTasks(st, kind, guild, user), inputs[..m]).0.rows ==> !Targets(t, kind, guild, user)
  {
  }
}
