/** The event queue and the completion object that counts its events, run by one thread:
    dancex11/scheduler/deployment_scheduler.cpp, deployment_default_wait_strategy.cpp,
    completion_base.h and completion_counter_base.cpp. */
module Scheduling {
  import opened Collections
  import opened Words

  datatype Kind =
    | InstallInstance | EndpointReference | ConnectInstance | InstanceConfigured
    | StartInstance | DisconnectInstance | PassivateInstance | RemoveInstance

  /** `ref` is the index of an instance or, for the connection kinds, of a connection. */
  datatype Event = Event(kind: Kind, ref: nat, name: string, instType: Word)

  datatype EventResult = EventResult(id: string, failed: bool)

  /** A queued event and the future that its `call` will set. */
  datatype Job = Job(event: Event, future: nat)

  function Futures(jobs: seq<Job>): seq<nat> {
    seq(|jobs|, i requires 0 <= i < |jobs| => jobs[i].future)
  }

  function Events(jobs: seq<Job>): seq<Event> {
    seq(|jobs|, i requires 0 <= i < |jobs| => jobs[i].event)
  }

  lemma AppendJob(jobs: seq<Job>, job: Job)
    ensures Futures(jobs + [job]) == Futures(jobs) + [job.future]
    ensures Events(jobs + [job]) == Events(jobs) + [job.event]
  {
  }

  // ------------------------------------------------------------------ counting, on values

  /** `list` holds the elements of `s`, each once. */
  ghost predicate ListsOnce(list: seq<nat>, s: set<nat>) {
    if list == [] then s == {}
    else list[|list| - 1] in s && ListsOnce(list[..|list| - 1], s - {list[|list| - 1]})
  }

  lemma OnceAppend(list: seq<nat>, s: set<nat>, f: nat)
    requires ListsOnce(list, s) && f !in s
    ensures ListsOnce(list + [f], s + {f})
  {
    assert (list + [f])[..|list|] == list && s + {f} - {f} == s;
  }

  lemma {:induction false} OnceMeans(list: seq<nat>, s: set<nat>)
    requires ListsOnce(list, s)
    ensures forall f :: f in list <==> f in s
    ensures forall i, j :: 0 <= i < j < |list| ==> list[i] != list[j]
    ensures |list| == |s|
  {
    if list != [] {
      var last := list[|list| - 1];
      OnceMeans(list[..|list| - 1], s - {last});
      assert list == list[..|list| - 1] + [last];
    }
  }

  /** The queued futures are the elements of `s`, each once. */
  ghost predicate Matches(queue: seq<Job>, s: set<nat>) {
    if queue == [] then s == {}
    else queue[0].future in s && Matches(queue[1..], s - {queue[0].future})
  }

  lemma {:induction false} MatchesAppend(queue: seq<Job>, s: set<nat>, job: Job)
    requires Matches(queue, s) && job.future !in s
    ensures Matches(queue + [job], s + {job.future})
  {
    if queue != [] {
      var f := queue[0].future;
      MatchesAppend(queue[1..], s - {f}, job);
      assert (queue + [job])[1..] == queue[1..] + [job];
      assert s - {f} + {job.future} == s + {job.future} - {f};
    } else {
      assert s + {job.future} - {job.future} == {};
    }
  }

  lemma {:induction false} MatchesSize(queue: seq<Job>, s: set<nat>)
    requires Matches(queue, s)
    ensures |queue| == |s|
  {
    if queue != [] {
      MatchesSize(queue[1..], s - {queue[0].future});
    }
  }

  /** The counter counts, modulo 2^32, the accepted futures without a value; those with a value have
      been handed out or wait to be, each once. */
  ghost predicate Counts(attached: set<nat>, values: set<nat>, count: nat, handedOut: seq<nat>, completed: seq<nat>) {
    && count == |attached - values| % U32
    && ListsOnce(handedOut + completed, attached * values)
  }

  lemma AcceptOne(attached: set<nat>, values: set<nat>, count: nat, handedOut: seq<nat>, completed: seq<nat>, f: nat)
    requires Counts(attached, values, count, handedOut, completed) && f !in attached
    ensures f in values ==> Counts(attached + {f}, values, count, handedOut, completed + [f])
    ensures f !in values ==> Counts(attached + {f}, values, (count + 1) % U32, handedOut, completed)
  {
    if f in values {
      assert attached + {f} - values == attached - values;
      assert (attached + {f}) * values == attached * values + {f};
      OnceAppend(handedOut + completed, attached * values, f);
      assert handedOut + (completed + [f]) == (handedOut + completed) + [f];
    } else {
      assert attached + {f} - values == (attached - values) + {f};
      assert (attached + {f}) * values == attached * values;
    }
  }

  lemma CallOne(attached: set<nat>, values: set<nat>, count: nat, handedOut: seq<nat>, completed: seq<nat>, f: nat)
    requires Counts(attached, values, count, handedOut, completed) && f in attached && f !in values
    ensures Counts(attached, values + {f}, (count + U32 - 1) % U32, handedOut, completed + [f])
    ensures attached - (values + {f}) == attached - values - {f}
  {
    assert attached - values == (attached - (values + {f})) + {f};
    assert attached * (values + {f}) == attached * values + {f};
    OnceAppend(handedOut + completed, attached * values, f);
    assert handedOut + (completed + [f]) == (handedOut + completed) + [f];
  }

  // ------------------------------------------------------------------ the classes

  class Completion {
    var execCount: nat
    var completed: seq<nat>
    /** The futures observed by this object. */
    var attached: set<nat>
    ghost var handedOut: seq<nat>

    constructor ()
      ensures execCount == 0 && completed == [] && attached == {} && handedOut == []
    {
      execCount, completed, attached, handedOut := 0, [], {}, [];
    }

    ghost predicate Valid(values: set<nat>)
      reads this
    {
      Counts(attached, values, execCount, handedOut, completed)
    }

    method Update(f: nat)
      modifies this`execCount, this`completed
      ensures completed == old(completed) + [f]
      ensures execCount == (old(execCount) + U32 - 1) % U32
    {
      completed := completed + [f];
      execCount := (execCount + U32 - 1) % U32;
    }

    /** An observed future gets its value, which notifies this object. */
    method Notify(f: nat, ghost values: set<nat>)
      requires Valid(values) && f in attached && f !in values
      modifies this`execCount, this`completed
      ensures Valid(values + {f})
      ensures completed == old(completed) + [f]
    {
      CallOne(attached, values, execCount, handedOut, completed, f);
      Update(f);
    }

    /** `attach` comes before the increment: a future that already has its value runs `Update` first,
        which takes the counter one step down, from zero to 2^32 - 1. */
    method Accept(f: nat, values: set<nat>)
      requires Valid(values) && f !in attached
      modifies this`execCount, this`completed, this`attached
      ensures Valid(values)
      ensures attached == old(attached) + {f}
      ensures completed == old(completed) + (if f in values then [f] else [])
    {
      AcceptOne(attached, values, execCount, handedOut, completed, f);
      attached := attached + {f};
      if f in values {
        Update(f);
      }
      execCount := (execCount + 1) % U32;
    }

    method CompletedEvents(ghost values: set<nat>) returns (events: seq<nat>)
      requires Valid(values)
      modifies this`completed, this`handedOut
      ensures Valid(values)
      ensures events == old(completed) && completed == [] && handedOut == old(handedOut) + events
    {
      events := completed;
      handedOut := handedOut + completed;
      completed := [];
      assert handedOut + completed == old(handedOut + completed);
    }
  }

  class Scheduler {
    var queue: seq<Job>
    var values: map<nat, EventResult>
    var nextFuture: nat
    /** Every event called so far, in order. */
    var executed: seq<Event>
    /** What the n-th call of an event ends with: the instance handlers are not part of this model. */
    const fails: (nat, Event) -> bool

    constructor (fails: (nat, Event) -> bool)
      ensures queue == [] && values == map[] && nextFuture == 0 && executed == [] && this.fails == fails
    {
      queue, values, nextFuture, executed := [], map[], 0, [];
      this.fails := fails;
    }

    function Outcome(n: nat, event: Event): EventResult {
      EventResult(event.name, fails(n, event))
    }

    /** What `c` waits for is what is queued: an event is queued when `c` has accepted it, and runs at the earliest then. */
    ghost predicate Serves(c: Completion)
      reads this, c
    {
      c.Valid(values.Keys) && Matches(queue, c.attached - values.Keys)
    }

    method NewFuture() returns (f: nat)
      modifies this`nextFuture
      ensures f == old(nextFuture) && nextFuture == f + 1
    {
      f := nextFuture;
      nextFuture := nextFuture + 1;
    }

    method ScheduleEvent(job: Job)
      modifies this`queue
      ensures queue == old(queue) + [job]
    {
      queue := queue + [job];
    }

    /** Dequeues one event and calls it; the call sets the event's future once, which notifies the
        completion object attached to it. */
    method PerformWork(c: Completion)
      requires Serves(c) && queue != []
      modifies this`queue, this`values, this`executed, c`execCount, c`completed
      ensures Serves(c)
      ensures queue == old(queue)[1..] && executed == old(executed) + [old(queue)[0].event]
      ensures c.completed == old(c.completed) + [old(queue)[0].future]
      ensures old(queue)[0].future !in old(values) && old(queue)[0].future in c.attached
      ensures var job := old(queue)[0]; values == old(values)[job.future := Outcome(|old(executed)|, job.event)]
    {
      var job := queue[0];
      CallOne(c.attached, values.Keys, c.execCount, c.handedOut, c.completed, job.future);
      queue := queue[1..];
      values := values[job.future := Outcome(|executed|, job.event)];
      executed := executed + [job.event];
      assert values.Keys == old(values).Keys + {job.future};
      c.Update(job.future);
    }

    /** The jobs have run, the first of them as the `first`-th event, and their futures tell how. */
    ghost predicate Ran(jobs: seq<Job>, first: nat, values: map<nat, EventResult>) {
      forall i :: 0 <= i < |jobs| ==>
                  && jobs[i].future in values
                  && values[jobs[i].future] == Outcome(first + i, jobs[i].event)
    }

    lemma RanOneMore(jobs: seq<Job>, job: Job, first: nat, values: map<nat, EventResult>)
      requires Ran(jobs, first, values) && job.future !in values
      ensures Ran(jobs + [job], first, values[job.future := Outcome(first + |jobs|, job.event)])
    {
    }

    lemma FuturesHaveValues(jobs: seq<Job>, first: nat)
      requires Ran(jobs, first, values)
      ensures |Futures(jobs)| == |jobs|
      ensures forall i :: 0 <= i < |jobs| ==> Futures(jobs)[i] == jobs[i].future && Futures(jobs)[i] in values
    {
    }

    /** The results, in order, of events called from the `first` on. */
    ghost predicate ResultsOf(results: seq<EventResult>, events: seq<Event>, first: nat) {
      && |results| == |events|
      && forall i :: 0 <= i < |results| ==> results[i] == Outcome(first + i, events[i])
    }

    lemma {:induction false} ResultsFromRun(jobs: seq<Job>, first: nat, values: map<nat, EventResult>, results: seq<EventResult>)
      requires Ran(jobs, first, values) && |results| == |jobs|
      requires forall i :: 0 <= i < |jobs| ==> results[i] == values[jobs[i].future]
      ensures ResultsOf(results, Events(jobs), first)
    {
    }

    lemma RanNothing(first: nat)
      ensures Ran([], first, values)
    {
    }

    /** `done` of the jobs in `all` have run, after the events in `before` and the completions in `had`. */
    ghost predicate Underway(c: Completion, before: seq<Event>, had: seq<nat>, done: seq<Job>, all: seq<Job>)
      reads this, c
    {
      && Serves(c)
      && done + queue == all
      && executed == before + Events(done)
      && c.completed == had + Futures(done)
      && |executed| == |before| + |done|
      && Ran(done, |before|, values)
    }

    method PerformNext(c: Completion, ghost before: seq<Event>, ghost had: seq<nat>, ghost done: seq<Job>, ghost all: seq<Job>)
      requires Underway(c, before, had, done, all) && queue != []
      modifies this`queue, this`values, this`executed, c`execCount, c`completed
      ensures Underway(c, before, had, done + [old(queue)[0]], all)
      ensures |queue| == |old(queue)| - 1
      ensures values.Keys <= old(values).Keys + c.attached
    {
      ghost var job, known := queue[0], values;
      MoveOne(done, queue);
      OneMoreDone(before, had, done, job);
      PerformWork(c);
      RanOneMore(done, job, |before|, known);
    }

    /** Works off the queue until it is empty, or until the time is up: `deadline` is the number of events
        after which the timer reads zero. */
    method WaitOnCompletion(c: Completion, deadline: nat) returns (ok: bool)
      requires Serves(c)
      modifies this`queue, this`values, this`executed, c`execCount, c`completed
      ensures ok <==> |old(queue)| <= deadline
      ensures Underway(c, old(executed), old(c.completed), if ok then old(queue) else old(queue)[..deadline], old(queue))
      ensures values.Keys <= old(values).Keys + c.attached
      ensures ok ==> queue == [] && c.execCount == 0
    {
      hide Counts, Matches, ListsOnce, Scheduler.Ran, Futures, Events;
      ghost var all, before, had, done := queue, executed, c.completed, [];
      NothingDone(before, had);
      RanNothing(|before|);
      var n := 0;
      while queue != []
        invariant n == |done| <= deadline && |all| == n + |queue|
        invariant Underway(c, before, had, done, all)
        invariant values.Keys <= old(values).Keys + c.attached
        decreases |queue|
      {
        if n == deadline {
          assert all[..deadline] == done;
          return false;
        }
        ghost var job := queue[0];
        PerformNext(c, before, had, done, all);
        done := done + [job];
        n := n + 1;
      }
      assert done == all;
      CounterIsQueueLength(this, c);
      ok := true;
    }
  }

  lemma NothingDone(before: seq<Event>, had: seq<nat>)
    ensures before + Events([]) == before && had + Futures([]) == had
  {
  }

  lemma OneMoreDone(before: seq<Event>, had: seq<nat>, done: seq<Job>, job: Job)
    ensures before + Events(done + [job]) == before + Events(done) + [job.event]
    ensures had + Futures(done + [job]) == had + Futures(done) + [job.future]
  {
    AppendJob(done, job);
  }

  lemma MoveOne<T>(done: seq<T>, rest: seq<T>)
    requires rest != []
    ensures done + [rest[0]] + rest[1..] == done + rest
  {
  }

  /** Between operations the 32 bit counter is the number of queued events. */
  lemma CounterIsQueueLength(s: Scheduler, c: Completion)
    requires s.Serves(c)
    ensures c.execCount == |s.queue| % U32
  {
    MatchesSize(s.queue, c.attached - s.values.Keys);
  }
}
