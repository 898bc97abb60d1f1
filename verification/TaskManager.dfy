/** Background tasks: their status in memory, its mirror on disk, restarts and the expiry sweep. */
module TaskManager {
  import opened Wrappers

  datatype Phase = Running | Done | Failed

  datatype WebError = WebError(code: string, message: string)

  /** A status dictionary; the reserved progress entry is always empty. */
  datatype Status = Status(phase: Phase, result: Option<string>, error: Option<WebError>, created: real)

  /** What a task's coroutine comes to: a payload or a mapped exception. */
  type Outcome = Result<string, WebError>

  function Started(now: real): Status {
    Status(Running, None, None, now)
  }

  function Finished(st: Status, outcome: Outcome): Status {
    match outcome
    case Ok(payload) => st.(phase := Done, result := Some(payload))
    case Err(e) => st.(phase := Failed, error := Some(e))
  }

  /** Memory of the process, its unfinished tasks, and the directory that outlives it. */
  datatype State = State(status: map<string, Status>, tasks: set<string>, files: map<string, Status>)

  datatype Event =
    | Submit(id: string, now: real)
    | Finish(id: string, outcome: Outcome)
    | Poll(id: string)
    | Sweep(now: real)
    | Restart

  const INITIAL := State(map[], {}, map[])

  function Swept(files: map<string, Status>, now: real, ttl: real): map<string, Status> {
    map id | id in files && !(now - files[id].created > ttl) :: files[id]
  }

  function Step(s: State, e: Event, ttl: real): State {
    match e
    case Submit(id, now) => s.(status := s.status[id := Started(now)], tasks := s.tasks + {id})
    case Finish(id, outcome) =>
      if id in s.status then
        var st := Finished(s.status[id], outcome);
        State(s.status[id := st], s.tasks - {id}, s.files[id := st])
      else s
    case Poll(_) => s
    case Sweep(now) => s.(files := Swept(s.files, now, ttl))
    case Restart => State(map[], {}, s.files)
  }

  /** What a poll answers: memory first, then the file. */
  function Answer(s: State, id: string): Option<Status> {
    if id in s.status then Some(s.status[id])
    else if id in s.files then Some(s.files[id])
    else None
  }

  class Manager {
    const ttl: real
    var status: map<string, Status>
    var tasks: set<string>
    var files: map<string, Status>

    function View(): State
      reads this
    {
      State(status, tasks, files)
    }

    /** Starting the process on a directory that may already hold files. */
    constructor (ttl: real, files: map<string, Status>)
      ensures this.ttl == ttl && View() == State(map[], {}, files)
    {
      this.ttl, this.files := ttl, files;
      status, tasks := map[], {};
    }

    method Submit(id: string, now: real) returns (taskId: string)
      modifies this
      ensures taskId == id && View() == Step(old(View()), Event.Submit(id, now), ttl)
    {
      status := status[id := Status(Running, None, None, now)];
      tasks := tasks + {id};
      return id;
    }

    /** The part of `_run` after its coroutine has returned or raised. */
    method FinishRun(id: string, outcome: Outcome)
      requires id in status
      modifies this
      ensures View() == Step(old(View()), Finish(id, outcome), ttl)
    {
      var st := status[id];
      match outcome {
        case Ok(payload) => st := st.(phase := Done, result := Some(payload));
        case Err(e) => st := st.(phase := Failed, error := Some(e));
      }
      status := status[id := st];
      Persist(id);
      tasks := tasks - {id};
    }

    method Persist(id: string)
      requires id in status
      modifies this`files
      ensures files == old(files)[id := status[id]]
    {
      files := files[id := status[id]];
    }

    method GetStatus(id: string) returns (r: Option<Status>)
      ensures r == Answer(View(), id)
    {
      if id in status {
        return Some(status[id]);
      }
      if id in files {
        return Some(files[id]);
      }
      return None;
    }

    method CleanupExpired(now: real)
      modifies this`files
      ensures View() == Step(old(View()), Sweep(now), ttl)
    {
      var left := files.Keys;
      while left != {}
        invariant left <= old(files).Keys
        invariant files == map id | id in old(files) &&
                  (id in left || !(now - old(files)[id].created > ttl)) :: old(files)[id]
        decreases left
      {
        var id :| id in left;
        if now - files[id].created > ttl {
          files := files - {id};
        }
        left := left - {id};
      }
    }
  }

  // --- runs ---

  function Run(trace: seq<Event>, ttl: real): State {
    if trace == [] then INITIAL else Step(Run(trace[..|trace| - 1], ttl), trace[|trace| - 1], ttl)
  }

  /** Task ids are never reused, and only an unfinished task of the current process can finish. */
  ghost predicate Feasible(trace: seq<Event>, ttl: real) {
    trace == [] ||
    var front, last := trace[..|trace| - 1], trace[|trace| - 1];
    && Feasible(front, ttl)
    && (last.Submit? ==> forall i :: 0 <= i < |front| && front[i].Submit? ==> front[i].id != last.id)
    && (last.Finish? ==> last.id in Run(front, ttl).tasks)
  }

  ghost predicate SubmittedAt(trace: seq<Event>, id: string, i: nat, now: real) {
    i < |trace| && trace[i] == Submit(id, now)
  }

  ghost predicate FinishedAt(trace: seq<Event>, id: string, i: nat, outcome: Outcome) {
    i < |trace| && trace[i] == Finish(id, outcome)
  }

  /** Submitted, and the process not restarted since. */
  ghost predicate InMemory(trace: seq<Event>, id: string) {
    exists i: nat, now :: SubmittedAt(trace, id, i, now) && forall k :: i < k < |trace| ==> trace[k] != Restart
  }

  /** Finished, and not swept since by a sweep later than its creation by more than the time to live. */
  ghost predicate OnDisk(trace: seq<Event>, id: string, ttl: real) {
    exists s: nat, now, i: nat, outcome ::
      && SubmittedAt(trace, id, s, now) && FinishedAt(trace, id, i, outcome)
      && forall k :: i < k < |trace| && trace[k].Sweep? ==> trace[k].now - now <= ttl
  }

  ghost predicate NeverFinished(trace: seq<Event>, id: string) {
    forall i :: 0 <= i < |trace| && trace[i].Finish? ==> trace[i].id != id
  }

  /** `st` is the status of `id` that the events of the trace call for. */
  ghost predicate Describes(trace: seq<Event>, id: string, st: Status) {
    || (exists s: nat :: SubmittedAt(trace, id, s, st.created) && st == Started(st.created) && NeverFinished(trace, id))
    || (exists s: nat, i: nat, outcome ::
          SubmittedAt(trace, id, s, st.created) && FinishedAt(trace, id, i, outcome) &&
            st == Finished(Started(st.created), outcome))
  }

  lemma {:induction false} HappensOnce(trace: seq<Event>, ttl: real, id: string)
    requires Feasible(trace, ttl)
    ensures forall i, j :: 0 <= i < j < |trace| && trace[i].Submit? && trace[i].id == id && trace[j].Submit? ==>
            trace[j].id != id
    ensures forall i, j :: 0 <= i < j < |trace| && trace[i].Finish? && trace[i].id == id && trace[j].Finish? ==>
            trace[j].id != id
    ensures Run(trace, ttl).tasks <= Run(trace, ttl).status.Keys
    ensures id in Run(trace, ttl).tasks ==>
            NeverFinished(trace, id) && exists i: nat, now :: SubmittedAt(trace, id, i, now)
    ensures !NeverFinished(trace, id) ==> exists i: nat, now :: SubmittedAt(trace, id, i, now)
  {
    if trace != [] {
      var front, last := trace[..|trace| - 1], trace[|trace| - 1];
      HappensOnce(front, ttl, id);
      if i: nat, now :| SubmittedAt(front, id, i, now) {
        assert SubmittedAt(trace, id, i, now);
      }
      if last.Submit? && last.id == id {
        assert SubmittedAt(trace, id, |trace| - 1, last.now);
        assert forall i: nat, now :: !SubmittedAt(front, id, i, now);
      }
      assert forall i :: 0 <= i < |front| ==> front[i] == trace[i];
      if id in Run(trace, ttl).tasks {
        assert NeverFinished(front, id);
      }
    }
  }

  /** Each way the last event can change whether `id` is in memory. */
  lemma InMemoryNext(trace: seq<Event>, id: string)
    requires trace != []
    ensures var front, last := trace[..|trace| - 1], trace[|trace| - 1];
            InMemory(trace, id) <==> (last.Submit? && last.id == id) || (last != Restart && InMemory(front, id))
  {
    var front, last := trace[..|trace| - 1], trace[|trace| - 1];
    if last.Submit? && last.id == id {
      assert SubmittedAt(trace, id, |trace| - 1, last.now);
    } else if last != Restart && InMemory(front, id) {
      var i: nat, now :| SubmittedAt(front, id, i, now) && forall k :: i < k < |front| ==> front[k] != Restart;
      assert SubmittedAt(trace, id, i, now);
      assert forall k :: i < k < |trace| ==> trace[k] != Restart;
    }
    if InMemory(trace, id) && !(last.Submit? && last.id == id) {
      var i: nat, now :| SubmittedAt(trace, id, i, now) && forall k :: i < k < |trace| ==> trace[k] != Restart;
      assert SubmittedAt(front, id, i, now);
      assert trace[|trace| - 1] != Restart;
    }
  }

  /** Each way the last event can change whether the file of `id`, created at `created`, is on disk. */
  lemma OnDiskNext(trace: seq<Event>, ttl: real, id: string, created: real, s: nat)
    requires trace != [] && Feasible(trace, ttl) && SubmittedAt(trace, id, s, created)
    ensures var front, last := trace[..|trace| - 1], trace[|trace| - 1];
            OnDisk(trace, id, ttl) <==>
              (last.Finish? && last.id == id) || (OnDisk(front, id, ttl) && (last.Sweep? ==> last.now - created <= ttl))
  {
    var front, last := trace[..|trace| - 1], trace[|trace| - 1];
    if last.Finish? && last.id == id {
      assert FinishedAt(trace, id, |trace| - 1, last.outcome);
    } else {
      if OnDisk(front, id, ttl) && (last.Sweep? ==> last.now - created <= ttl) {
        OnDiskStays(trace, ttl, id, created, s);
      }
      if OnDisk(trace, id, ttl) {
        OnDiskBefore(trace, ttl, id, created, s);
      }
    }
  }

  lemma OnDiskStays(trace: seq<Event>, ttl: real, id: string, created: real, s: nat)
    requires trace != [] && Feasible(trace, ttl) && SubmittedAt(trace, id, s, created)
    requires OnDisk(trace[..|trace| - 1], id, ttl)
    requires var last := trace[|trace| - 1]; last.Sweep? ==> last.now - created <= ttl
    ensures OnDisk(trace, id, ttl)
  {
    var front := trace[..|trace| - 1];
    var s': nat, now, i: nat, outcome :|
      && SubmittedAt(front, id, s', now) && FinishedAt(front, id, i, outcome)
      && forall k :: i < k < |front| && front[k].Sweep? ==> front[k].now - now <= ttl;
    assert SubmittedAt(trace, id, s', now) && FinishedAt(trace, id, i, outcome);
    SubmittedOnce(trace, ttl, id, s, created, s', now);
    assert forall k :: i < k < |trace| && trace[k].Sweep? ==> trace[k].now - now <= ttl;
  }

  lemma OnDiskBefore(trace: seq<Event>, ttl: real, id: string, created: real, s: nat)
    requires trace != [] && Feasible(trace, ttl) && SubmittedAt(trace, id, s, created) && OnDisk(trace, id, ttl)
    requires var last := trace[|trace| - 1]; !(last.Finish? && last.id == id)
    ensures OnDisk(trace[..|trace| - 1], id, ttl)
    ensures var last := trace[|trace| - 1]; last.Sweep? ==> last.now - created <= ttl
  {
    var front, last := trace[..|trace| - 1], trace[|trace| - 1];
    var s': nat, now, i: nat, outcome :|
      && SubmittedAt(trace, id, s', now) && FinishedAt(trace, id, i, outcome)
      && forall k :: i < k < |trace| && trace[k].Sweep? ==> trace[k].now - now <= ttl;
    SubmittedOnce(trace, ttl, id, s, created, s', now);
    assert FinishedAt(front, id, i, outcome);
    FinishedWasSubmitted(front, ttl, id, i);
    var s'': nat, now'' :| SubmittedAt(front, id, s'', now'');
    SubmittedOnce(trace, ttl, id, s, created, s'', now'');
    assert forall k :: i < k < |front| && front[k].Sweep? ==> front[k].now - now <= ttl;
    assert last.Sweep? ==> trace[|trace| - 1].now - now <= ttl;
  }

  lemma SubmittedOnce(trace: seq<Event>, ttl: real, id: string, s: nat, created: real, s': nat, created': real)
    requires Feasible(trace, ttl) && SubmittedAt(trace, id, s, created) && SubmittedAt(trace, id, s', created')
    ensures s == s' && created == created'
  {
    HappensOnce(trace, ttl, id);
  }

  lemma FinishedWasSubmitted(trace: seq<Event>, ttl: real, id: string, i: nat)
    requires Feasible(trace, ttl) && i < |trace| && trace[i].Finish? && trace[i].id == id
    ensures exists s: nat, now :: SubmittedAt(trace, id, s, now)
  {
    HappensOnce(trace, ttl, id);
  }

  /** A status that no longer changes. */
  predicate Terminal(st: Status) {
    st.phase != Running
  }

  /** A status is terminal with its one matching payload, or running with none. */
  predicate WellFormed(st: Status) {
    match st.phase
    case Running => st.result.None? && st.error.None?
    case Done => st.result.Some? && st.error.None?
    case Failed => st.result.None? && st.error.Some?
  }

  /** What memory and disk hold of `id` after a run. */
  ghost predicate MatchesTrace(trace: seq<Event>, ttl: real, id: string) {
    var s := Run(trace, ttl);
    && (id in s.status <==> InMemory(trace, id))
    && (id in s.files <==> OnDisk(trace, id, ttl))
    && (id in s.status ==> Describes(trace, id, s.status[id]) && (id in s.tasks <==> !Terminal(s.status[id])))
    && (id in s.files ==> Describes(trace, id, s.files[id]) && Terminal(s.files[id]))
  }

  /** A description of a trace still holds after an event that does not finish the task. */
  lemma DescribesNext(trace: seq<Event>, id: string, st: Status)
    requires trace != [] && Describes(trace[..|trace| - 1], id, st)
    requires var last := trace[|trace| - 1]; !(last.Finish? && last.id == id)
    ensures Describes(trace, id, st)
  {
    var front := trace[..|trace| - 1];
    assert forall i :: 0 <= i < |front| ==> front[i] == trace[i];
    if s: nat :| SubmittedAt(front, id, s, st.created) && st == Started(st.created) && NeverFinished(front, id) {
      assert SubmittedAt(trace, id, s, st.created) && NeverFinished(trace, id);
    } else {
      var s: nat, i: nat, outcome :|
        SubmittedAt(front, id, s, st.created) && FinishedAt(front, id, i, outcome) &&
          st == Finished(Started(st.created), outcome);
      assert SubmittedAt(trace, id, s, st.created) && FinishedAt(trace, id, i, outcome);
    }
  }

  lemma {:induction false} RunFaithful(trace: seq<Event>, ttl: real, id: string)
    requires Feasible(trace, ttl)
    ensures MatchesTrace(trace, ttl, id)
  {
    if trace != [] {
      var front, last := trace[..|trace| - 1], trace[|trace| - 1];
      var s := Run(front, ttl);
      RunFaithful(front, ttl, id);
      HappensOnce(front, ttl, id);
      InMemoryNext(trace, id);
      if last.Submit? && last.id == id {
        SubmitFaithful(trace, ttl, id);
      } else if last.Finish? && last.id == id {
        FinishFaithful(trace, ttl, id);
      } else {
        OtherFaithful(trace, ttl, id);
      }
    }
  }

  lemma SubmitFaithful(trace: seq<Event>, ttl: real, id: string)
    requires Feasible(trace, ttl) && trace != [] && MatchesTrace(trace[..|trace| - 1], ttl, id)
    requires var last := trace[|trace| - 1]; last.Submit? && last.id == id
    ensures MatchesTrace(trace, ttl, id)
  {
    var front, last := trace[..|trace| - 1], trace[|trace| - 1];
    InMemoryNext(trace, id);
    HappensOnce(front, ttl, id);
    assert SubmittedAt(trace, id, |trace| - 1, last.now);
    assert forall i: nat, now :: !SubmittedAt(front, id, i, now);
    assert NeverFinished(trace, id);
    OnDiskNext(trace, ttl, id, last.now, |trace| - 1);
  }

  lemma FinishFaithful(trace: seq<Event>, ttl: real, id: string)
    requires Feasible(trace, ttl) && trace != [] && MatchesTrace(trace[..|trace| - 1], ttl, id)
    requires var last := trace[|trace| - 1]; last.Finish? && last.id == id
    ensures MatchesTrace(trace, ttl, id)
  {
    var front, last := trace[..|trace| - 1], trace[|trace| - 1];
    HappensOnce(front, ttl, id);
    InMemoryNext(trace, id);
    var st := Run(front, ttl).status[id];
    var s: nat :| SubmittedAt(front, id, s, st.created) && st == Started(st.created) && NeverFinished(front, id);
    assert SubmittedAt(trace, id, s, st.created) && FinishedAt(trace, id, |trace| - 1, last.outcome);
    OnDiskNext(trace, ttl, id, st.created, s);
  }

  lemma OtherFaithful(trace: seq<Event>, ttl: real, id: string)
    requires Feasible(trace, ttl) && trace != [] && MatchesTrace(trace[..|trace| - 1], ttl, id)
    requires var last := trace[|trace| - 1]; !((last.Submit? || last.Finish?) && last.id == id)
    ensures MatchesTrace(trace, ttl, id)
  {
    var front, last := trace[..|trace| - 1], trace[|trace| - 1];
    var s := Run(front, ttl);
    InMemoryNext(trace, id);
    HappensOnce(front, ttl, id);
    if id in s.status {
      DescribesNext(trace, id, s.status[id]);
    }
    if id in s.files {
      DescribesNext(trace, id, s.files[id]);
    }
    FilesNext(trace, ttl, id);
  }

  lemma FilesNext(trace: seq<Event>, ttl: real, id: string)
    requires Feasible(trace, ttl) && trace != [] && MatchesTrace(trace[..|trace| - 1], ttl, id)
    requires var last := trace[|trace| - 1]; !((last.Submit? || last.Finish?) && last.id == id)
    ensures id in Run(trace, ttl).files <==> OnDisk(trace, id, ttl)
  {
    var front := trace[..|trace| - 1];
    var files := Run(front, ttl).files;
    HappensOnce(front, ttl, id);
    if s: nat, created :| SubmittedAt(front, id, s, created) {
      assert SubmittedAt(trace, id, s, created);
      OnDiskNext(trace, ttl, id, created, s);
      if id in files {
        var s': nat :| SubmittedAt(front, id, s', files[id].created);
        assert s' == s;
      }
    } else {
      assert forall s: nat, now :: SubmittedAt(trace, id, s, now) ==> SubmittedAt(front, id, s, now);
    }
  }

  // --- what pollers see ---

  lemma DescriptionsAgree(trace: seq<Event>, ttl: real, id: string, a: Status, b: Status)
    requires Feasible(trace, ttl) && Describes(trace, id, a) && Describes(trace, id, b)
    ensures a == b
  {
    HappensOnce(trace, ttl, id);
  }

  /**
   * After any feasible run: a task is answerable exactly when it is in memory or its file survives; its answer is
   * the one status its events call for, well formed; and where both places hold a finished task they agree.
   */
  lemma AnswersAreFaithful(trace: seq<Event>, ttl: real, id: string)
    requires Feasible(trace, ttl)
    ensures var s := Run(trace, ttl);
            && (Answer(s, id).Some? <==> InMemory(trace, id) || OnDisk(trace, id, ttl))
            && (Answer(s, id).Some? ==> Describes(trace, id, Answer(s, id).value) && WellFormed(Answer(s, id).value))
            && (id in s.files ==> Terminal(s.files[id]) && WellFormed(s.files[id]))
            && (id in s.files && id in s.status ==> s.status[id] == s.files[id])
  {
    var s := Run(trace, ttl);
    RunFaithful(trace, ttl, id);
    if id in s.files && id in s.status {
      DescriptionsAgree(trace, ttl, id, s.status[id], s.files[id]);
    }
  }

  /** After a restart a task is answerable if and only if its file survives. */
  lemma RestartKeepsFiles(trace: seq<Event>, ttl: real, id: string)
    requires Feasible(trace, ttl)
    ensures Answer(Run(trace + [Restart], ttl), id).Some? <==> OnDisk(trace, id, ttl)
  {
    assert (trace + [Restart])[..|trace|] == trace;
    RunFaithful(trace, ttl, id);
  }

  lemma DescribesLater(trace: seq<Event>, more: seq<Event>, id: string, st: Status)
    requires Describes(trace, id, st) && Terminal(st)
    ensures Describes(trace + more, id, st)
  {
    var s: nat, i: nat, outcome :|
      SubmittedAt(trace, id, s, st.created) && FinishedAt(trace, id, i, outcome) &&
        st == Finished(Started(st.created), outcome);
    assert SubmittedAt(trace + more, id, s, st.created) && FinishedAt(trace + more, id, i, outcome);
  }

  /** A finished task never changes its answer again: later polls repeat it or no longer know the task. */
  lemma TerminalForGood(trace: seq<Event>, more: seq<Event>, ttl: real, id: string)
    requires Feasible(trace, ttl) && Feasible(trace + more, ttl)
    requires Answer(Run(trace, ttl), id).Some? && Terminal(Answer(Run(trace, ttl), id).value)
    ensures var later := Answer(Run(trace + more, ttl), id);
            later.None? || later == Answer(Run(trace, ttl), id)
  {
    var st := Answer(Run(trace, ttl), id).value;
    var later := Answer(Run(trace + more, ttl), id);
    AnswersAreFaithful(trace, ttl, id);
    AnswersAreFaithful(trace + more, ttl, id);
    DescribesLater(trace, more, id, st);
    if later.Some? {
      DescriptionsAgree(trace + more, ttl, id, st, later.value);
    }
  }

  // --- the answer, field by field ---

  /** What a poll answers of a task, by the outcome its coroutine came to. */
  lemma AnswerIs(trace: seq<Event>, ttl: real, id: string, s: nat, created: real)
    requires Feasible(trace, ttl) && SubmittedAt(trace, id, s, created) && Answer(Run(trace, ttl), id).Some?
    ensures var st := Answer(Run(trace, ttl), id).value;
            && st.created == created
            && (forall i: nat, payload :: FinishedAt(trace, id, i, Ok(payload)) ==>
                  st.phase == Done && st.result == Some(payload) && st.error == None)
            && (forall i: nat, e :: FinishedAt(trace, id, i, Err(e)) ==>
                  st.phase == Failed && st.result == None && st.error == Some(e))
            && (NeverFinished(trace, id) ==> st.phase == Running && st.result == None && st.error == None)
  {
    AnswersAreFaithful(trace, ttl, id);
    HappensOnce(trace, ttl, id);
  }
}
