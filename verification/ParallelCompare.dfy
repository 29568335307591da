/** The parallel comparison as goroutines that share one cancellation flag, under
    every schedule; and the decision procedure that chooses it. */
module ParallelCompare {
  import opened FileCompare

  /** Two files of the planned size. */
  datatype Job = Job(l: Bytes, u: Bytes, plan: Plan, bufSize: nat) {
    predicate Valid() {
      plan.Valid() && bufSize > 0 && |l| == plan.size == |u|
    }

    function End(i: nat): int
      requires plan.Valid()
    {
      plan.Offset(i) + plan.Length(i)
    }

    /** The files agree on [from, to). */
    predicate Agree(from: nat, to: nat)
    {
      from <= to && Slice(l, from, to - from) == Slice(u, from, to - from)
    }
  }

  /** A goroutine: comparing at a position, back from compareSegment, about to
      cancel the others, or finished with its entry of results written. */
  datatype Task = Running(pos: nat) | Returned(equal: bool) | Cancelling | Finished(equal: bool)

  datatype State = State(tasks: seq<Task>, cancelled: bool)

  function Init(j: Job): State
    requires j.Valid()
  {
    State(seq(j.plan.Segments(), i requires 0 <= i < j.plan.Segments() => Running(j.plan.Offset(i))), false)
  }

  /** One turn of the loop of compareSegment. */
  function Turn(j: Job, i: nat, pos: nat, cancelled: bool): Task
    requires j.Valid()
  {
    if pos >= j.End(i) then Returned(true)
    else if cancelled then Returned(false)
    else
      var chunkLen := Min(j.bufSize, j.End(i) - pos);
      var lChunk, uChunk := Slice(j.l, pos, chunkLen), Slice(j.u, pos, chunkLen);
      if lChunk != uChunk then Returned(false)
      else if |lChunk| < chunkLen then Returned(true)
      else Running(pos + |lChunk|)
  }

  /** Goroutine i makes one step. */
  function Step(j: Job, s: State, i: nat): State
    requires j.Valid() && i < |s.tasks|
  {
    match s.tasks[i]
    case Running(pos) => s.(tasks := s.tasks[i := Turn(j, i, pos, s.cancelled)])
    case Returned(equal) => s.(tasks := s.tasks[i := if equal then Finished(true) else Cancelling])
    case Cancelling => State(s.tasks[i := Finished(false)], true)
    case Finished(_) => s
  }

  /** The schedule names the goroutine that moves next. */
  function Run(j: Job, schedule: seq<nat>): (s: State)
    requires j.Valid() && forall k :: 0 <= k < |schedule| ==> schedule[k] < j.plan.Segments()
    ensures |s.tasks| == j.plan.Segments()
  {
    if schedule == [] then Init(j)
    else Step(j, Run(j, schedule[..|schedule| - 1]), schedule[|schedule| - 1])
  }

  predicate AllFinished(s: State) {
    forall i :: 0 <= i < |s.tasks| ==> s.tasks[i].Finished?
  }

  /** The loop over results after wg.Wait. */
  predicate Verdict(s: State) {
    forall i :: 0 <= i < |s.tasks| ==> s.tasks[i] == Finished(true)
  }

  predicate TaskOk(j: Job, i: nat, t: Task)
    requires j.Valid()
  {
    match t
    case Running(pos) => pos <= j.End(i) && j.Agree(j.plan.Offset(i), pos)
    case Returned(equal) => if equal then j.Agree(j.plan.Offset(i), j.End(i)) else j.l != j.u
    case Cancelling => j.l != j.u
    case Finished(equal) => if equal then j.Agree(j.plan.Offset(i), j.End(i)) else j.l != j.u
  }

  /** A goroutine reports a difference, or cancels, only if the files differ. */
  predicate Inv(j: Job, s: State)
    requires j.Valid()
  {
    && |s.tasks| == j.plan.Segments()
    && (s.cancelled ==> j.l != j.u)
    && forall i :: 0 <= i < |s.tasks| ==> TaskOk(j, i, s.tasks[i])
  }

  lemma TurnOk(j: Job, i: nat, pos: nat, cancelled: bool)
    requires j.Valid() && i < j.plan.Segments() && TaskOk(j, i, Running(pos)) && (cancelled ==> j.l != j.u)
    ensures TaskOk(j, i, Turn(j, i, pos, cancelled))
    ensures Turn(j, i, pos, cancelled).Running? ==> Turn(j, i, pos, cancelled).pos > pos
  {
    SegmentInside(j.plan, i);
    if pos < j.End(i) && !cancelled {
      ChunkOk(j, j.plan.Offset(i), pos, Min(j.bufSize, j.End(i) - pos));
    }
  }

  lemma ChunkOk(j: Job, from: nat, pos: nat, chunkLen: nat)
    requires j.Valid() && j.Agree(from, pos) && pos + chunkLen <= j.plan.size
    ensures |Slice(j.l, pos, chunkLen)| == chunkLen
    ensures if Slice(j.l, pos, chunkLen) == Slice(j.u, pos, chunkLen) then j.Agree(from, pos + chunkLen) else j.l != j.u
  {
    if Slice(j.l, pos, chunkLen) == Slice(j.u, pos, chunkLen) {
      EqualSoFar(j.l, j.u, from, pos - from, chunkLen);
    }
  }

  lemma StepKeepsInv(j: Job, s: State, i: nat)
    requires j.Valid() && Inv(j, s) && i < |s.tasks|
    ensures Inv(j, Step(j, s, i))
  {
    assert TaskOk(j, i, s.tasks[i]);
    if s.tasks[i].Running? {
      TurnOk(j, i, s.tasks[i].pos, s.cancelled);
    }
  }

  lemma {:induction false} RunKeepsInv(j: Job, schedule: seq<nat>)
    requires j.Valid() && forall k :: 0 <= k < |schedule| ==> schedule[k] < j.plan.Segments()
    ensures Inv(j, Run(j, schedule))
  {
    if schedule == [] {
      forall i | 0 <= i < j.plan.Segments() ensures TaskOk(j, i, Init(j).tasks[i]) {
        SegmentInside(j.plan, i);
      }
    } else {
      RunKeepsInv(j, schedule[..|schedule| - 1]);
      StepKeepsInv(j, Run(j, schedule[..|schedule| - 1]), schedule[|schedule| - 1]);
    }
  }

  /** Files that agree on every segment are equal. */
  lemma AgreeOnSegments(j: Job)
    requires j.Valid()
    requires forall i :: 0 <= i < j.plan.Segments() ==> j.Agree(j.plan.Offset(i), j.End(i))
    ensures j.l == j.u
  {
    forall pos | 0 <= pos < |j.l| ensures j.l[pos] == j.u[pos] {
      SegmentsTile(j.plan, pos);
      var i := j.plan.SegmentOf(pos);
      assert j.Agree(j.plan.Offset(i), j.End(i));
      AgreeAt(j, j.plan.Offset(i), j.End(i), pos);
    }
  }

  lemma AgreeAt(j: Job, from: nat, to: nat, pos: nat)
    requires j.Valid() && j.Agree(from, to) && from <= pos < to && pos < |j.l|
    ensures j.l[pos] == j.u[pos]
  {
    SliceAt(j.l, from, to - from, pos);
    SliceAt(j.u, from, to - from, pos);
  }

  lemma SliceAt(f: Bytes, from: nat, length: nat, pos: nat)
    requires from <= pos < from + length && pos < |f|
    ensures pos - from < |Slice(f, from, length)| && Slice(f, from, length)[pos - from] == f[pos]
  {
  }

  /** Whatever the schedule, once all goroutines are finished the verdict is whether
      the files are equal: cancellation never turns equal files unequal, and no
      difference is missed. */
  lemma EveryScheduleDecides(j: Job, schedule: seq<nat>)
    requires j.Valid() && forall k :: 0 <= k < |schedule| ==> schedule[k] < j.plan.Segments()
    requires AllFinished(Run(j, schedule))
    ensures Verdict(Run(j, schedule)) <==> j.l == j.u
  {
    var s := Run(j, schedule);
    RunKeepsInv(j, schedule);
    if Verdict(s) {
      forall i | 0 <= i < j.plan.Segments() ensures j.Agree(j.plan.Offset(i), j.End(i)) {
        assert TaskOk(j, i, s.tasks[i]) && s.tasks[i] == Finished(true);
      }
      AgreeOnSegments(j);
    } else {
      var i :| 0 <= i < |s.tasks| && s.tasks[i] != Finished(true);
      assert TaskOk(j, i, s.tasks[i]);
    }
  }

  /** A goroutine that ends with a difference has cancelled the others, and once they are
      cancelled every one of them returns at its next turn: none reads another chunk. */
  lemma {:induction false} DifferenceStopsAll(j: Job, schedule: seq<nat>, i: nat)
    requires j.Valid() && forall k :: 0 <= k < |schedule| ==> schedule[k] < j.plan.Segments()
    requires i < j.plan.Segments()
    ensures Run(j, schedule).tasks[i] == Finished(false) ==> Run(j, schedule).cancelled
    ensures Run(j, schedule).cancelled ==> !Step(j, Run(j, schedule), i).tasks[i].Running?
  {
    if schedule != [] {
      DifferenceStopsAll(j, schedule[..|schedule| - 1], i);
    }
  }

  /* ---- every schedule finishes ---- */

  function TaskWork(j: Job, i: nat, t: Task): nat
    requires j.Valid()
  {
    match t
    case Running(pos) => 3 + if pos < j.End(i) then j.End(i) - pos else 0
    case Returned(_) => 2
    case Cancelling => 1
    case Finished(_) => 0
  }

  function Work(j: Job, tasks: seq<Task>): nat
    requires j.Valid()
  {
    if tasks == [] then 0 else Work(j, tasks[..|tasks| - 1]) + TaskWork(j, |tasks| - 1, tasks[|tasks| - 1])
  }

  lemma {:induction false} WorkUpdate(j: Job, tasks: seq<Task>, i: nat, t: Task)
    requires j.Valid() && i < |tasks|
    ensures Work(j, tasks[i := t]) == Work(j, tasks) - TaskWork(j, i, tasks[i]) + TaskWork(j, i, t)
  {
    var n := |tasks| - 1;
    if i == n {
      assert tasks[i := t][..n] == tasks[..n];
    } else {
      assert tasks[i := t][..n] == tasks[..n][i := t];
      WorkUpdate(j, tasks[..n], i, t);
    }
  }

  /** Every step of an unfinished goroutine uses up work, and an unfinished
      goroutine can always step; so no schedule can go on for ever. */
  lemma StepUsesWork(j: Job, s: State, i: nat)
    requires j.Valid() && Inv(j, s) && i < |s.tasks| && !s.tasks[i].Finished?
    ensures Work(j, Step(j, s, i).tasks) < Work(j, s.tasks)
  {
    assert TaskOk(j, i, s.tasks[i]);
    var t := Step(j, s, i).tasks[i];
    WorkUpdate(j, s.tasks, i, t);
    if s.tasks[i].Running? {
      TurnOk(j, i, s.tasks[i].pos, s.cancelled);
    }
  }

  /* ---- the decision procedure ---- */

  datatype FileInfo = FileInfo(inode: nat, size: nat, mtime: int)

  datatype Hasher = Hasher(threshold: nat, workers: nat, minSegment: nat, bufSize: nat) {
    predicate Valid() { workers > 0 && minSegment > 0 && bufSize > 0 }
  }

  /** compareRegularFiles: it answers content equality, except that files of the
      same size and modification time are taken to be equal unread. */
  method CompareRegularFiles(h: Hasher, li: FileInfo, ui: FileInfo, l: Bytes, u: Bytes) returns (equal: bool)
    requires h.Valid() && li.size == |l| && ui.size == |u| && (li.inode == ui.inode ==> l == u)
    ensures equal <==> l == u || (li.size == ui.size && li.mtime == ui.mtime)
  {
    if li.inode == ui.inode {
      return true;
    }
    if li.size != ui.size {
      return false;
    }
    if li.mtime == ui.mtime {
      return true;
    }
    if li.size >= h.threshold {
      equal := CompareParallel(Job(l, u, Plan(li.size, h.workers, h.minSegment), h.bufSize));
    } else {
      equal := CompareSequential(l, u, h.bufSize);
    }
  }

  /** compareContentsParallel under some schedule: an unfinished goroutine is picked
      and stepped until none is left. */
  method CompareParallel(j: Job) returns (equal: bool)
    requires j.Valid()
    ensures equal <==> j.l == j.u
  {
    var s := Init(j);
    ghost var schedule: seq<nat> := [];
    while exists i :: 0 <= i < |s.tasks| && !s.tasks[i].Finished?
      invariant forall k :: 0 <= k < |schedule| ==> schedule[k] < j.plan.Segments()
      invariant s == Run(j, schedule)
      decreases Work(j, s.tasks)
    {
      var i :| 0 <= i < |s.tasks| && !s.tasks[i].Finished?;
      RunKeepsInv(j, schedule);
      StepUsesWork(j, s, i);
      s := Step(j, s, i);
      assert (schedule + [i])[..|schedule|] == schedule;
      schedule := schedule + [i];
    }
    EveryScheduleDecides(j, schedule);
    equal := forall i :: 0 <= i < |s.tasks| ==> s.tasks[i] == Finished(true);
  }
}
