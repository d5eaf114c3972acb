// compress_chunk as a protocol: the calling thread spawns one task per column, waits for them in
// order and replaces the chunk; tasks start and finish whenever they like.
module Schedule {
  import opened Text
  import opened TableData

  // What a call compresses: chunk id of table.
  datatype Job<!V> = Job(ts: Types<V>, table: Table<V>, id: nat, logOfZero: int) {
    ghost predicate Valid() {
      id < |table.chunks| && |table.chunks[id]| == |table.types| && IsPlain(table.chunks[id])
    }

    function Columns(): nat { |table.types| }

    // The result of the task for column i, None for an exception.
    ghost function Work(i: nat): Option<SegmentData<V>>
      requires Valid() && i < Columns()
    {
      Compressed(ts, table.chunks[id][i], table.types[i], logOfZero)
    }
  }

  datatype Status<!V> = Waiting | Running | Finished(result: Option<SegmentData<V>>)

  // A SegmentCompressionTask: the segment and the column type it was given when it was spawned.
  datatype Task<!V> = Task(segment: SegmentData<V>, column: string, status: Status<V>)

  datatype Phase = Working | Published | Aborted

  // The tasks spawned so far, the segments of dict_chunk, the table as others see it.
  datatype State<!V> = State(tasks: seq<Task<V>>, built: ChunkData<V>, table: Table<V>, phase: Phase)

  // A task may start at any time, also only when it is waited for, or never after an exception.
  datatype Action = Spawn | Start(i: nat) | Finish(i: nat) | Join | Publish

  function Initial<V>(job: Job<V>): State<V> { State([], [], job.table, Working) }

  ghost predicate Enabled<V>(job: Job<V>, s: State<V>, a: Action) {
    match a
    case Spawn => s.phase.Working? && |s.tasks| < job.Columns()
    case Start(i) => i < |s.tasks| && s.tasks[i].status.Waiting?
    case Finish(i) => i < |s.tasks| && s.tasks[i].status.Running?
    case Join =>
      && s.phase.Working? && |s.tasks| == job.Columns() && |s.built| < |s.tasks|
      && s.tasks[|s.built|].status.Finished?
    case Publish => s.phase.Working? && |s.tasks| == job.Columns() && |s.built| == job.Columns()
  }

  // Spawning reads the table as it is then; a task works on what it was given.
  ghost function Apply<V>(job: Job<V>, s: State<V>, a: Action): State<V>
    requires Inv(job, s) && Enabled(job, s, a)
  {
    match a
    case Spawn =>
      var i := |s.tasks|;
      s.(tasks := s.tasks + [Task(s.table.chunks[job.id][i], s.table.types[i], Waiting)])
    case Start(i) => s.(tasks := s.tasks[i := s.tasks[i].(status := Running)])
    case Finish(i) =>
      var task := s.tasks[i];
      var result := Compressed(job.ts, task.segment, task.column, job.logOfZero);
      s.(tasks := s.tasks[i := task.(status := Finished(result))])
    case Join =>
      (match s.tasks[|s.built|].status.result
       case None => s.(phase := Aborted)
       case Some(segment) => s.(built := s.built + [segment]))
    case Publish => s.(phase := Published, table := s.table.(chunks := s.table.chunks[job.id := s.built]))
  }

  // Task i was given column i of the old chunk; if it has finished, it has compressed that.
  ghost predicate OnColumn<V>(job: Job<V>, i: nat, task: Task<V>)
    requires job.Valid() && i < job.Columns()
  {
    && task.segment == job.table.chunks[job.id][i] && task.column == job.table.types[i]
    && (task.status.Finished? ==> task.status.result == job.Work(i))
  }

  // What every step keeps.
  ghost predicate Inv<V>(job: Job<V>, s: State<V>) {
    && job.Valid() && |s.built| <= |s.tasks| <= job.Columns()
    && (forall i :: 0 <= i < |s.tasks| ==> OnColumn(job, i, s.tasks[i]))
    && (forall i :: 0 <= i < |s.built| ==> s.tasks[i].status.Finished? && job.Work(i) == Some(s.built[i]))
    && match s.phase
       case Working => s.table == job.table
       case Aborted => s.table == job.table && |s.built| < job.Columns() && job.Work(|s.built|) == None
       case Published => |s.built| == job.Columns() &&
                         s.table == job.table.(chunks := job.table.chunks[job.id := s.built])
  }

  lemma StepKeepsInv<V>(job: Job<V>, s: State<V>, a: Action)
    requires Inv(job, s) && Enabled(job, s, a)
    ensures Inv(job, Apply(job, s, a))
  {
  }

  // The replacement comes last: no task starts or ends after it.
  lemma NothingAfterPublish<V>(job: Job<V>, s: State<V>, a: Action)
    requires Inv(job, s) && s.phase.Published?
    ensures !Enabled(job, s, a)
  {
  }

  // A schedule: the actions in the order in which they happen.
  ghost predicate IsSchedule<V>(job: Job<V>, s: State<V>, actions: seq<Action>)
    requires Inv(job, s)
    decreases |actions|
  {
    actions == [] ||
    (Enabled(job, s, actions[0]) &&
     (StepKeepsInv(job, s, actions[0]); IsSchedule(job, Apply(job, s, actions[0]), actions[1..])))
  }

  ghost function Execute<V>(job: Job<V>, s: State<V>, actions: seq<Action>): (r: State<V>)
    requires Inv(job, s) && IsSchedule(job, s, actions)
    ensures Inv(job, r)
    decreases |actions|
  {
    if actions == [] then s
    else
      StepKeepsInv(job, s, actions[0]);
      Execute(job, Apply(job, s, actions[0]), actions[1..])
  }

  // Until the final replacement everyone sees the old chunk; afterwards the new one, whole.
  lemma OldChunkUntilPublished<V>(job: Job<V>, actions: seq<Action>)
    requires job.Valid() && IsSchedule(job, Initial(job), actions)
    ensures var s := Execute(job, Initial(job), actions);
            if s.phase.Published? then Compress(job.ts, job.table, job.id, job.logOfZero) == Some(s.table)
            else s.table == job.table
  {
    ResultsAgree(job, Execute(job, Initial(job), actions));
  }

  lemma ResultsAgree<V>(job: Job<V>, s: State<V>)
    requires Inv(job, s)
    ensures s.phase.Published? ==> Compress(job.ts, job.table, job.id, job.logOfZero) == Some(s.table)
    ensures s.phase.Aborted? ==> Compress(job.ts, job.table, job.id, job.logOfZero) == None
  {
    var c, columns := job.table.chunks[job.id], job.table.types;
    var r := CompressChunk(job.ts, c, columns, job.logOfZero);
    assert forall j :: 0 <= j < |c| ==> job.Work(j) == Compressed(job.ts, c[j], columns[j], job.logOfZero);
    if s.phase.Published? {
      assert r.Some? && r.value == s.built;
    } else if s.phase.Aborted? {
      assert Compressed(job.ts, c[|s.built|], columns[|s.built|], job.logOfZero) == None;
    }
  }

  // Work left to do.
  function TaskWork<V>(t: Task<V>): nat {
    match t.status case Waiting => 2 case Running => 1 case Finished(_) => 0
  }

  function TasksWork<V>(tasks: seq<Task<V>>): nat {
    if tasks == [] then 0 else TasksWork(tasks[..|tasks| - 1]) + TaskWork(tasks[|tasks| - 1])
  }

  ghost function Remaining<V>(job: Job<V>, s: State<V>): nat
    requires Inv(job, s)
  {
    3 * (job.Columns() - |s.tasks|) + TasksWork(s.tasks) + (job.Columns() - |s.built|) +
    if s.phase.Working? then 1 else 0
  }

  lemma {:induction false} TasksWorkUpdate<V>(tasks: seq<Task<V>>, i: nat, t: Task<V>)
    requires i < |tasks|
    ensures TasksWork(tasks[i := t]) == TasksWork(tasks) - TaskWork(tasks[i]) + TaskWork(t)
  {
    var n := |tasks| - 1;
    if i < n {
      TasksWorkUpdate(tasks[..n], i, t);
      assert tasks[i := t][..n] == tasks[..n][i := t];
    } else {
      assert tasks[i := t][..n] == tasks[..n];
    }
  }

  // Every action makes progress, so that no schedule is longer than the work there is.
  lemma ActionsMakeProgress<V>(job: Job<V>, s: State<V>, a: Action)
    requires Inv(job, s) && Enabled(job, s, a)
    ensures Inv(job, Apply(job, s, a)) && Remaining(job, Apply(job, s, a)) < Remaining(job, s)
  {
    StepKeepsInv(job, s, a);
    var s' := Apply(job, s, a);
    match a
    case Start(i) => TasksWorkUpdate(s.tasks, i, s'.tasks[i]);
    case Finish(i) => TasksWorkUpdate(s.tasks, i, s'.tasks[i]);
    case Spawn => assert s'.tasks[..|s.tasks|] == s.tasks;
    case _ =>
  }

  lemma {:induction false} SchedulesAreBounded<V>(job: Job<V>, s: State<V>, actions: seq<Action>)
    requires Inv(job, s) && IsSchedule(job, s, actions)
    ensures |actions| <= Remaining(job, s)
    decreases |actions|
  {
    if actions != [] {
      ActionsMakeProgress(job, s, actions[0]);
      SchedulesAreBounded(job, Apply(job, s, actions[0]), actions[1..]);
    }
  }

  // No deadlock: a call that has neither returned nor thrown can go on.
  lemma NeverStuck<V>(job: Job<V>, s: State<V>)
    requires Inv(job, s) && s.phase.Working?
    ensures exists a :: Enabled(job, s, a)
  {
    if |s.tasks| < job.Columns() {
      assert Enabled(job, s, Spawn);
    } else if |s.built| == job.Columns() {
      assert Enabled(job, s, Publish);
    } else {
      var i := |s.built|;
      match s.tasks[i].status
      case Waiting => assert Enabled(job, s, Start(i));
      case Running => assert Enabled(job, s, Finish(i));
      case Finished(_) => assert Enabled(job, s, Join);
    }
  }

  // Every schedule in which the call has returned or thrown, whatever tasks are then still to
  // start or to end, leaves the table that the sequential specification gives: the compressed one,
  // or the old one where the call throws.
  lemma ScheduleDoesNotMatter<V>(job: Job<V>, actions: seq<Action>)
    requires job.Valid() && IsSchedule(job, Initial(job), actions)
    requires !Execute(job, Initial(job), actions).phase.Working?
    ensures var s, r := Execute(job, Initial(job), actions), Compress(job.ts, job.table, job.id, job.logOfZero);
            match r
            case None => s.phase.Aborted? && s.table == job.table
            case Some(t) => s.phase.Published? && s.table == t
  {
    ResultsAgree(job, Execute(job, Initial(job), actions));
  }

  // A schedule that cannot go on has come that far, after a bounded number of steps.
  lemma CompleteSchedules<V>(job: Job<V>, actions: seq<Action>)
    requires job.Valid() && IsSchedule(job, Initial(job), actions)
    ensures |actions| <= 4 * job.Columns() + 1
    ensures (forall a :: !Enabled(job, Execute(job, Initial(job), actions), a)) ==>
              !Execute(job, Initial(job), actions).phase.Working?
  {
    var s := Execute(job, Initial(job), actions);
    if s.phase.Working? { NeverStuck(job, s); }
    SchedulesAreBounded(job, Initial(job), actions);
  }
}
