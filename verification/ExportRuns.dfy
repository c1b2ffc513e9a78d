/** What the export manager promises over whole runs. */
module ExportRuns {
  import opened Common
  import opened TreeGraph
  import opened TreeWalk
  import opened TreeReference
  import opened TreeBounds
  import opened TreeRefinement
  import opened Exports
  import opened ExportInvariant

  /** A state that some run of the manager leads to. */
  ghost predicate Reachable(m: Manager) {
    exists restricted: bool, events: seq<Event> ::
      && Possible(Exports.Initial(m.graph, m.lineOf, restricted), events)
      && Exports.Run(Exports.Initial(m.graph, m.lineOf, restricted), events) == m
  }

  lemma ReachableFits(m: Manager)
    requires Reachable(m)
    ensures Invariant(m)
  {
    var restricted: bool, events: seq<Event> :|
      && Possible(Exports.Initial(m.graph, m.lineOf, restricted), events)
      && Exports.Run(Exports.Initial(m.graph, m.lineOf, restricted), events) == m;
    InitialInvariant(m.graph, m.lineOf, restricted);
    RunKeepsInvariant(Exports.Initial(m.graph, m.lineOf, restricted), events);
  }

  lemma ReachableWalks(m: Manager)
    requires Reachable(m)
    ensures WalksFit(m)
  {
    var restricted: bool, events: seq<Event> :|
      && Possible(Exports.Initial(m.graph, m.lineOf, restricted), events)
      && Exports.Run(Exports.Initial(m.graph, m.lineOf, restricted), events) == m;
    RunKeepsWalks(Exports.Initial(m.graph, m.lineOf, restricted), events);
  }

  // ---------- quotas ----------

  /** In every reachable state the concurrency, retention and storage quotas hold. */
  lemma QuotasAlwaysHold(m: Manager)
    requires Reachable(m)
    ensures ActiveJobs(m.jobs) <= EXPORT_MAX_CONCURRENT
    ensures CompletedJobs(m.jobs) + ActiveJobs(m.jobs) <= EXPORT_MAX_RETAINED_JOBS
    ensures CompletedBytes(m.jobs) <= EXPORT_MAX_TOTAL_BYTES
    ensures forall id :: 0 <= id < |m.jobs| && m.jobs[id].status == Completed ==>
              m.jobs[id].data.Some? && m.jobs[id].bytes == |m.jobs[id].data.value| <= EXPORT_MAX_BYTES
  {
    ReachableFits(m);
    forall id | 0 <= id < |m.jobs| && m.jobs[id].status == Completed
      ensures m.jobs[id].data.Some? && m.jobs[id].bytes == |m.jobs[id].data.value| <= EXPORT_MAX_BYTES
    {
      assert SlotFits(m, id);
    }
  }

  // ---------- what is published ----------

  /** A completed export's file is the whole bounded traversal of its root, line by line, and
      its counters and truncation reasons are the traversal's. */
  lemma PublishedFileIsTheTraversal(m: Manager, id: JobId)
    requires Reachable(m) && id < |m.jobs| && m.jobs[id].status == Completed
    ensures var job := m.jobs[id];
            var t := Traversal(m.graph, EffectiveOptions(job.options), job.root);
            && job.data == Some(FileOf(m.lineOf, t.records))
            && job.nodes == |t.records| && job.bytes == |FileOf(m.lineOf, t.records)|
            && job.reasons == t.reasons
  {
    ReachableFits(m);
    ReachableWalks(m);
    assert SlotFits(m, id) && WalkFits(m, m.jobs[id]);
    var job := m.jobs[id];
    WalkerRefinesRecursion(m.graph, EffectiveOptions(job.options), job.root, job.steps);
  }

  lemma ProductGrows(a: nat, b: nat, c: nat, d: nat)
    requires a <= b && c <= d
    ensures a * c <= b * d
  {
  }

  /** Every export's walk ends, on any graph, within a bound that the request cannot raise,
      and never holds more than one frame for each level. */
  lemma ExportWalkIsBounded(graph: Graph, options: Limits, root: Option<Obj>, k: nat)
    requires k >= EXPORT_MAX_NODES * (2 * EXPORT_MAX_CHILDREN + 1) + 2
    ensures TreeWalk.Run(graph, EffectiveOptions(options), Start(root), k).walk.done
    ensures forall j: nat :: |TreeWalk.Run(graph, EffectiveOptions(options), Start(root), j).walk.stack| <= EXPORT_MAX_DEPTH + 1
  {
    var limits := EffectiveOptions(options);
    forall j: nat
      ensures |TreeWalk.Run(graph, limits, Start(root), j).walk.stack| <= EXPORT_MAX_DEPTH + 1
    {
      FrontierIsOneFramePerLevel(graph, limits, root, j);
    }
    ProductGrows(limits.maxNodes.value, EXPORT_MAX_NODES, 2 * Width(limits) + 1, 2 * EXPORT_MAX_CHILDREN + 1);
    WalkFinishesWithin(graph, limits, root, k);
  }

  // ---------- the security check comes last ----------

  predicate Clears(m: Manager, e: Event, id: JobId) {
    e.Work? && e.id == id && e.w.FinalCheck? && e.w.allowed && !m.restricted
  }

  predicate IsBatchOf(e: Event, id: JobId) {
    e.Work? && e.id == id && e.w.Batch?
  }

  predicate NoBatch(events: seq<Event>, id: JobId) {
    forall i :: 0 <= i < |events| ==> !IsBatchOf(events[i], id)
  }

  /** Somewhere in the run the job passed the security check, unrestricted, and no batch followed. */
  predicate ClearedAfterLastBatch(m: Manager, events: seq<Event>, id: JobId)
    requires Possible(m, events)
    decreases |events|
  {
    && events != []
    && (ClearedAfterLastBatch(Exports.Step(m, events[0]), events[1..], id)
        || (Clears(m, events[0], id) && NoBatch(events[1..], id)))
  }

  predicate Secured(m: Manager, id: JobId) {
    id < |m.jobs| && m.jobs[id].secured
  }

  lemma WorkerSecures(m: Manager, job: Job, retained: nat, w: WorkerEvent)
    requires SecuredFits(job) && WorkerCan(job.worker, m.sweep.Idle?, w) && WorkerStep(m, job, retained, w).secured
    ensures (w.FinalCheck? && w.allowed && !m.restricted) || (job.secured && !w.Batch?)
  {
  }

  lemma StepSecures(m: Manager, e: Event, id: JobId)
    requires Invariant(m) && Enabled(m, e) && Secured(Exports.Step(m, e), id)
    ensures Clears(m, e, id) || (Secured(m, id) && !IsBatchOf(e, id))
  {
    if id < |m.jobs| {
      assert SlotFits(m, id);
    }
    if e.Work? {
      if e.id == id {
        WorkerSecures(m, m.jobs[id], CompletedBytes(m.jobs), e.w);
      }
    } else if Changed(m, e).Some? {
      ChangeKeepsJob(m, e);
    }
  }

  lemma {:induction false} SecuredWasCleared(m: Manager, events: seq<Event>, id: JobId)
    requires Invariant(m) && Possible(m, events) && Secured(Exports.Run(m, events), id)
    ensures ClearedAfterLastBatch(m, events, id) || (Secured(m, id) && NoBatch(events, id))
    decreases |events|
  {
    if events == [] {
    } else {
      StepKeepsInvariant(m, events[0]);
      SecuredWasCleared(Exports.Step(m, events[0]), events[1..], id);
      if !ClearedAfterLastBatch(m, events, id) {
        StepSecures(m, events[0], id);
        assert events == [events[0]] + events[1..];
      }
    }
  }

  /** In every run that leaves a job completed, the job passed the security check on the main
      thread in an unrestricted session, and read nothing from the tree after that. */
  lemma CompletedWasCleared(graph: Graph, lineOf: Record -> Bytes, restricted: bool, events: seq<Event>, id: JobId)
    requires Possible(Exports.Initial(graph, lineOf, restricted), events)
    requires var m := Exports.Run(Exports.Initial(graph, lineOf, restricted), events);
             id < |m.jobs| && m.jobs[id].status == Completed
    ensures ClearedAfterLastBatch(Exports.Initial(graph, lineOf, restricted), events, id)
  {
    var start := Exports.Initial(graph, lineOf, restricted);
    InitialInvariant(graph, lineOf, restricted);
    RunKeepsInvariant(start, events);
    assert SlotFits(Exports.Run(start, events), id);
    SecuredWasCleared(start, events, id);
  }

  // ---------- cancellation ----------

  lemma StepKeepsCancel(m: Manager, e: Event, id: JobId)
    requires Invariant(m) && Enabled(m, e) && id < |m.jobs| && m.jobs[id].cancel
    ensures id < |Exports.Step(m, e).jobs| && Exports.Step(m, e).jobs[id].cancel
  {
    if Changed(m, e).Some? {
      ChangeKeepsJob(m, e);
    }
  }

  lemma {:induction false} CanceledStaysUnavailable(m: Manager, later: seq<Event>, id: JobId)
    requires Invariant(m) && Possible(m, later) && id < |m.jobs| && m.jobs[id].cancel
    ensures var q := Exports.Run(m, later); id < |q.jobs| && q.jobs[id].cancel && q.jobs[id].status != Completed
    decreases |later|
  {
    if later != [] {
      StepKeepsInvariant(m, later[0]);
      StepKeepsCancel(m, later[0], id);
      CanceledStaysUnavailable(Exports.Step(m, later[0]), later[1..], id);
    } else {
      assert SlotFits(m, id);
    }
  }

  /** Once a cancel, a security transition or an expiry pass has reached a job, the job is not
      downloadable in any later state, wherever its worker was. */
  lemma CancelIsFinal(m: Manager, e: Event, later: seq<Event>, id: JobId, now: Time)
    requires Reachable(m) && Enabled(m, e) && (e.Cancel? || e.SweepCancels? || e.Expire?) && e.id == id
    requires Possible(Exports.Step(m, e), later)
    ensures var q := Exports.Run(Exports.Step(m, e), later); id < |q.jobs| && !Downloadable(q.jobs[id], now)
  {
    ReachableFits(m);
    StepKeepsInvariant(m, e);
    CanceledStaysUnavailable(Exports.Step(m, e), later, id);
  }

  ghost predicate AllHarmless(jobs: seq<Job>) {
    forall id :: 0 <= id < |jobs| ==> Harmless(jobs[id])
  }

  lemma StepKeepsHarmless(m: Manager, e: Event)
    requires Invariant(m) && m.restricted && AllHarmless(m.jobs) && Enabled(m, e) && !e.Unrestrict?
    ensures AllHarmless(Exports.Step(m, e).jobs) && Exports.Step(m, e).restricted
  {
    if Changed(m, e).Some? {
      ChangeKeepsJob(m, e);
    } else if e.Create? {
      NewJobFits(m, e.options, e.now);
    }
  }

  lemma {:induction false} StaysHarmless(m: Manager, later: seq<Event>)
    requires Invariant(m) && m.restricted && AllHarmless(m.jobs) && Possible(m, later)
    requires forall i :: 0 <= i < |later| ==> !later[i].Unrestrict?
    ensures AllHarmless(Exports.Run(m, later).jobs)
    decreases |later|
  {
    if later == [] {
    } else {
      assert !later[0].Unrestrict?;
      StepKeepsInvariant(m, later[0]);
      StepKeepsHarmless(m, later[0]);
      StaysHarmless(Exports.Step(m, later[0]), later[1..]);
    }
  }

  /** From the end of a transition to restricted until the session is freed nothing is
      downloadable: not in the middle of further transitions, and no job that was created
      after a transition had listed the jobs. */
  lemma RestrictedMeansNothingDownloadable(m: Manager, later: seq<Event>, id: JobId, now: Time)
    requires Reachable(m) && m.restricted && m.sweep.Idle? && Possible(m, later)
    requires forall i :: 0 <= i < |later| ==> !later[i].Unrestrict?
    requires id < |Exports.Run(m, later).jobs|
    ensures !Downloadable(Exports.Run(m, later).jobs[id], now)
  {
    ReachableFits(m);
    forall j | 0 <= j < |m.jobs|
      ensures Harmless(m.jobs[j])
    {
      assert SlotFits(m, j);
    }
    StaysHarmless(m, later);
    RunKeepsInvariant(m, later);
    assert SlotFits(Exports.Run(m, later), id);
  }

  // ---------- files ----------

  /** A file on disk belongs to a job that is still in the table. */
  lemma NoFileIsForgotten(m: Manager, id: JobId)
    requires Reachable(m) && id < |m.jobs| && (m.jobs[id].part.Some? || m.jobs[id].data.Some?)
    ensures m.jobs[id].listed
  {
    ReachableFits(m);
    assert SlotFits(m, id);
  }

  lemma StepThenRun(m: Manager, e: Event, rest: seq<Event>)
    requires Enabled(m, e) && Possible(Exports.Step(m, e), rest)
    ensures Possible(m, [e] + rest) && Exports.Run(m, [e] + rest) == Exports.Run(Exports.Step(m, e), rest)
  {
    assert ([e] + rest)[1..] == rest;
  }

  /** So a later cleanup pass can always remove it: if neither deletion is refused, the pass
      leaves no file and takes the job out of the table. */
  lemma CleanupPassRemoves(m: Manager, id: JobId, cleaner: CleanerId, now: Time)
    requires Reachable(m) && id < |m.jobs| && ExpiredAt(m.jobs[id], now) && cleaner !in m.cleaners
    ensures var pass := [Expire(cleaner, id, now)] + ([Delete(cleaner, true, true)] + ([Pop(cleaner)] + []));
            && Possible(m, pass)
            && var q := Exports.Run(m, pass);
            && id < |q.jobs| && NoFiles(q.jobs[id]) && !q.jobs[id].listed
  {
    var a := Exports.Step(m, Expire(cleaner, id, now));
    assert a.cleaners[cleaner] == Deleting(id) && |a.jobs| == |m.jobs|;
    var b := Exports.Step(a, Delete(cleaner, true, true));
    assert b.cleaners[cleaner] == Popping(id) && |b.jobs| == |m.jobs| && NoFiles(b.jobs[id]);
    StepThenRun(b, Pop(cleaner), []);
    StepThenRun(a, Delete(cleaner, true, true), [Pop(cleaner)] + []);
    StepThenRun(m, Expire(cleaner, id, now), [Delete(cleaner, true, true)] + ([Pop(cleaner)] + []));
  }
}
