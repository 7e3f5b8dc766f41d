/** The launchers of a plan and their shutdown: Domain_Launcher of
    dancex11/domain_deployment_handler/dancex11_domain_deployment_handler.cpp and Node_Launcher of
    dancex11/node_deployment_handler/dancex11_node_deployment_handler.cpp, which differ in how a failed launch is
    cleaned up. */
module Launchers {
  import opened Collections

  datatype Kind = Domain | Node

  type Reference = nat

  /** A remote call and what it is called on: an execution (or node) manager, an application manager or an application. */
  datatype Call =
    | PreparePlan(em: Reference)
    | StartLaunch(am: Reference)
    | FinishLaunch(app: Reference)
    | StartApplication(app: Reference)
    | StopApplication(app: Reference)
    | DestroyApplication(am: Reference, app: Reference)
    | DestroyManager(em: Reference, am: Reference)
    | CallShutdownHandler
    | ShutdownOrb

  datatype Outcome = Returns | UserException | OtherException

  // ------------------------------------------------------------------ properties of logs of calls

  predicate IsDestroyCall(call: Call) {
    call.StopApplication? || call.DestroyApplication? || call.DestroyManager?
  }

  function LastCalls(handler: bool): seq<Call> {
    if handler then [CallShutdownHandler, ShutdownOrb] else [ShutdownOrb]
  }

  /** From position `from` on, things are stopped and destroyed, and then the handler is called if there is one, once,
      and last of all the ORB is shut down. */
  ghost predicate EndsProcess(log: seq<Call>, from: nat, handler: bool) {
    var n := |log| - if handler then 2 else 1;
    && from <= n && log[n..] == (if handler then [CallShutdownHandler, ShutdownOrb] else [ShutdownOrb])
    && forall i :: from <= i < n ==> IsDestroyCall(log[i])
  }

  lemma ManagerThenEnd(before: seq<Call>, stopped: seq<Call>, calls: seq<Call>, log: seq<Call>, handler: bool)
    requires before <= stopped && forall i :: |before| <= i < |stopped| ==> IsDestroyCall(stopped[i])
    requires |calls| <= 1 && (calls != [] ==> calls[0].DestroyManager?) && log == stopped + calls + LastCalls(handler)
    ensures EndsProcess(log, |before|, handler)
  {
    var n := |stopped| + |calls|;
    assert log[n..] == LastCalls(handler);
    assert forall i :: |before| <= i < n ==> log[i] == if i < |stopped| then stopped[i] else calls[i - |stopped|];
  }

  predicate DestroysApp(call: Call, app: Reference) {
    call.DestroyApplication? && call.app == app
  }

  predicate DestroysManager(call: Call, am: Reference) {
    call.DestroyManager? && call.am == am
  }

  /** No application and no application manager is destroyed twice. */
  ghost predicate DestroyedOnce(log: seq<Call>) {
    && (forall i, j, app :: 0 <= i < j < |log| && DestroysApp(log[i], app) ==> !DestroysApp(log[j], app))
    && (forall i, j, am :: 0 <= i < j < |log| && DestroysManager(log[i], am) ==> !DestroysManager(log[j], am))
  }

  /** An application is destroyed right after it was stopped. */
  ghost predicate StoppedFirst(log: seq<Call>) {
    forall j :: 0 <= j < |log| && log[j].DestroyApplication? ==> j > 0 && log[j - 1] == StopApplication(log[j].app)
  }

  predicate IsLaunchCall(call: Call) {
    call.PreparePlan? || call.StartLaunch? || call.FinishLaunch? || call.StartApplication?
  }

  ghost predicate NoLaunchCalls(log: seq<Call>) {
    forall i :: 0 <= i < |log| ==> !IsLaunchCall(log[i])
  }

  /** The calls of one launch, of which a failed launch makes only the first ones. */
  function LaunchOrder(em: Reference, am: Reference, app: Reference): seq<Call> {
    [PreparePlan(em), StartLaunch(am), FinishLaunch(app), StartApplication(app)]
  }

  lemma OneMoreCall(log: seq<Call>, call: Call)
    requires DestroyedOnce(log) && StoppedFirst(log)
    requires call.DestroyApplication? ==> && (forall i :: 0 <= i < |log| ==> !DestroysApp(log[i], call.app))
                                           && log != [] && log[|log| - 1] == StopApplication(call.app)
    requires call.DestroyManager? ==> forall i :: 0 <= i < |log| ==> !DestroysManager(log[i], call.am)
    ensures DestroyedOnce(log + [call]) && StoppedFirst(log + [call])
  {
    var more := log + [call];
    assert more[|log|] == call && forall i :: 0 <= i < |log| ==> more[i] == log[i];
  }

  // ------------------------------------------------------------------ calls made until one raises

  /** The log after making the planned calls in order until one raises, and how the last of them ended. */
  function Logged(outcome: (nat, Call) -> Outcome, log: seq<Call>, planned: seq<Call>): (r: (seq<Call>, Outcome))
    ensures log <= r.0
    decreases |planned|
  {
    if planned == [] then (log, Returns)
    else
      var r := outcome(|log|, planned[0]);
      if r != Returns then (log + [planned[0]], r) else Logged(outcome, log + [planned[0]], planned[1..])
  }

  lemma LoggedNone(outcome: (nat, Call) -> Outcome, log: seq<Call>)
    ensures Logged(outcome, log, []) == (log, Returns)
  {
  }

  lemma LoggedFirst(outcome: (nat, Call) -> Outcome, log: seq<Call>, planned: seq<Call>)
    requires planned != []
    ensures Logged(outcome, log, planned)
         == if outcome(|log|, planned[0]) != Returns then (log + [planned[0]], outcome(|log|, planned[0]))
            else Logged(outcome, log + [planned[0]], planned[1..])
  {
  }

  lemma LoggedTwo(outcome: (nat, Call) -> Outcome, log: seq<Call>, a: Call, b: Call)
    ensures Logged(outcome, log, [a, b])
         == if outcome(|log|, a) != Returns then (log + [a], outcome(|log|, a))
            else (log + [a] + [b], outcome(|log| + 1, b))
  {
    hide Logged;
    LoggedFirst(outcome, log, [a, b]);
    assert [a, b][1..] == [b];
    LoggedFirst(outcome, log + [a], [b]);
    assert [b][1..] == [];
    LoggedNone(outcome, log + [a] + [b]);
  }

  lemma LoggedThree(outcome: (nat, Call) -> Outcome, log: seq<Call>, a: Call, b: Call, c: Call)
    ensures Logged(outcome, log, [a, b, c])
         == if outcome(|log|, a) != Returns then (log + [a], outcome(|log|, a))
            else Logged(outcome, log + [a], [b, c])
    ensures Logged(outcome, log + [a], [b, c])
         == if outcome(|log| + 1, b) != Returns then (log + [a] + [b], outcome(|log| + 1, b))
            else (log + [a] + [b] + [c], outcome(|log| + 2, c))
  {
    hide Logged;
    var planned := [a, b, c];
    RestOfThree(a, b, c);
    LoggedFirst(outcome, log, planned);
    LoggedTwo(outcome, log + [a], b, c);
  }

  lemma RestOfThree(a: Call, b: Call, c: Call)
    ensures [a, b, c][1..] == [b, c] && [a, b, c][0] == a
  {
  }

  lemma {:induction false} LoggedAppend(outcome: (nat, Call) -> Outcome, log: seq<Call>, a: seq<Call>, b: seq<Call>)
    ensures var r := Logged(outcome, log, a);
            Logged(outcome, log, a + b) == if r.1 == Returns then Logged(outcome, r.0, b) else r
    decreases |a|
  {
    if a == [] {
      assert a + b == b;
    } else {
      assert (a + b)[0] == a[0] && (a + b)[1..] == a[1..] + b;
      LoggedAppend(outcome, log + [a[0]], a[1..], b);
    }
  }

  lemma LoggedMore(outcome: (nat, Call) -> Outcome, log: seq<Call>, a: seq<Call>, last: Call)
    ensures var r := Logged(outcome, log, a);
            Logged(outcome, log, a + [last]).0 == if r.1 == Returns then r.0 + [last] else r.0
  {
    LoggedAppend(outcome, log, a, [last]);
    assert [last][1..] == [];
  }

  /** Planned calls that all return are all made. */
  lemma {:induction false} AllLogged(outcome: (nat, Call) -> Outcome, log: seq<Call>, planned: seq<Call>)
    ensures Logged(outcome, log, planned).1 == Returns ==> Logged(outcome, log, planned).0 == log + planned
    decreases |planned|
  {
    if planned != [] {
      AllLogged(outcome, log + [planned[0]], planned[1..]);
      assert log + [planned[0]] + planned[1..] == log + planned;
    }
  }

  function AppCalls(am: Option<Reference>, app: Option<Reference>): seq<Call> {
    if app.Some? && am.Some? then [StopApplication(app.value), DestroyApplication(am.value, app.value)] else []
  }

  function ShutdownOrder(em: Option<Reference>, am: Option<Reference>, app: Option<Reference>, handler: bool): seq<Call> {
    AppCalls(am, app)
    + (if am.Some? && em.Some? then [DestroyManager(em.value, am.value)] else [])
    + (if handler then [CallShutdownHandler] else []) + [ShutdownOrb]
  }

  lemma OrderInParts(em: Option<Reference>, am: Option<Reference>, app: Option<Reference>, handler: bool)
    ensures ShutdownOrder(em, am, app, handler) == AppCalls(am, app) + ShutdownOrder(em, am, None, handler)
  {
  }

  lemma AppCallsAre(am: Option<Reference>, app: Option<Reference>)
    ensures forall i :: 0 <= i < |AppCalls(am, app)| ==> IsDestroyCall(AppCalls(am, app)[i])
    ensures am.Some? && app.Some? ==>
              AppCalls(am, app) == [StopApplication(app.value), DestroyApplication(am.value, app.value)]
  {
  }

  /** The log after the cleanup of a failed launch. */
  function CleanedUp(kind: Kind, outcome: (nat, Call) -> Outcome, log: seq<Call>, em: Reference, am: Reference,
                     app: Option<Reference>): seq<Call> {
    if kind == Domain then Logged(outcome, log, AppCalls(Some(am), app)).0 + [DestroyManager(em, am)]
    else Logged(outcome, log, AppCalls(Some(am), app) + [DestroyManager(em, am)]).0
  }

  /** From call `n` on, preparePlan and startLaunch return: an application is launched. */
  predicate StartsApplication(outcome: (nat, Call) -> Outcome, n: nat, em: Reference, am: Reference) {
    outcome(n, PreparePlan(em)) == Returns && outcome(n + 1, StartLaunch(am)) == Returns
  }

  /** Then finishLaunch, or start after it, raises a user exception and stop, called in the cleanup, does not return. */
  predicate FailsAndCannotStop(outcome: (nat, Call) -> Outcome, n: nat, app: Reference) {
    || (outcome(n + 2, FinishLaunch(app)) == UserException && outcome(n + 3, StopApplication(app)) != Returns)
    || (&& outcome(n + 2, FinishLaunch(app)) == Returns && outcome(n + 3, StartApplication(app)) == UserException
        && outcome(n + 4, StopApplication(app)) != Returns)
  }

  /** How the calls of a launch go. */
  lemma LaunchSteps(outcome: (nat, Call) -> Outcome, log: seq<Call>, em: Reference, am: Reference, app: Reference)
    ensures var r := Logged(outcome, log, LaunchOrder(em, am, app));
            if outcome(|log|, PreparePlan(em)) != Returns then
              r == (log + [PreparePlan(em)], outcome(|log|, PreparePlan(em)))
            else
              && r == Logged(outcome, log + [PreparePlan(em)], LaunchOrder(em, am, app)[1..])
              && |r.0| > |log| + 1
              && (|r.0| > |log| + 2 <==> outcome(|log| + 1, StartLaunch(am)) == Returns)
    ensures var (launched, raised) := Logged(outcome, log, LaunchOrder(em, am, app));
            raised == Returns ==>
              && StartsApplication(outcome, |log|, em, am)
              && launched == log + [PreparePlan(em), StartLaunch(am), FinishLaunch(app), StartApplication(app)]
    ensures var (launched, raised) := Logged(outcome, log, LaunchOrder(em, am, app));
            StartsApplication(outcome, |log|, em, am) ==>
              (FailsAndCannotStop(outcome, |log|, app) <==>
               raised == UserException && outcome(|launched|, StopApplication(app)) != Returns)
  {
    hide Logged;
    var planned := LaunchOrder(em, am, app);
    var rest := planned[1..];
    LoggedFirst(outcome, log, planned);
    assert rest == [rest[0], rest[1], rest[2]];
    LoggedThree(outcome, log + [planned[0]], rest[0], rest[1], rest[2]);
    assert log + [planned[0]] + [rest[0]] + [rest[1]] + [rest[2]] == log + planned;
  }

  // ------------------------------------------------------------------ the launcher

  class Launcher {
    const kind: Kind
    /** How the n-th remote call ends. */
    const outcome: (nat, Call) -> Outcome
    const hasShutdownHandler: bool
    var em: Option<Reference>
    var am: Option<Reference>
    var app: Option<Reference>
    var log: seq<Call>
    /** Larger than all references handed out so far. */
    var next: Reference

    constructor (kind: Kind, outcome: (nat, Call) -> Outcome, hasShutdownHandler: bool)
      ensures this.kind == kind && this.outcome == outcome && this.hasShutdownHandler == hasShutdownHandler
      ensures Valid() && Linked() && em == None && am == None && app == None && log == [] && next == 0
    {
      this.kind, this.outcome, this.hasShutdownHandler := kind, outcome, hasShutdownHandler;
      em, am, app, log, next := None, None, None, [], 0;
    }

    /** Whatever a call may be made on has what the call needs besides. */
    ghost predicate Linked()
      reads this
    {
      (app.Some? ==> am.Some?) && (am.Some? ==> em.Some?)
    }

    /** What is still referred to has not been destroyed. */
    ghost predicate Valid()
      reads this
    {
      && DestroyedOnce(log) && StoppedFirst(log)
      && (app.Some? ==> app.value < next && Alive(app.value))
      && (am.Some? ==> am.value < next && ManagerAlive(am.value))
      && (forall i :: 0 <= i < |log| && log[i].DestroyApplication? ==> log[i].app < next)
      && (forall i :: 0 <= i < |log| && log[i].DestroyManager? ==> log[i].am < next)
    }

    ghost predicate Alive(a: Reference)
      reads this
    {
      forall i :: 0 <= i < |log| ==> !DestroysApp(log[i], a)
    }

    ghost predicate ManagerAlive(m: Reference)
      reads this
    {
      forall i :: 0 <= i < |log| ==> !DestroysManager(log[i], m)
    }

    /** A call that destroys nothing. */
    method Invoke(call: Call) returns (r: Outcome)
      requires Valid() && !call.DestroyApplication? && !call.DestroyManager?
      modifies this`log
      ensures Valid() && log == old(log) + [call] && r == outcome(|old(log)|, call)
    {
      OneMoreCall(log, call);
      r := outcome(|log|, call);
      log := log + [call];
    }

    /** The field is cleared before the call. */
    method InvokeDestroyApplication() returns (r: Outcome)
      requires Valid() && app.Some? && am.Some? && log != [] && log[|log| - 1] == StopApplication(app.value)
      modifies this`log, this`app
      ensures Valid() && app == None && !Alive(old(app).value)
      ensures log == old(log) + [DestroyApplication(am.value, old(app).value)]
      ensures r == outcome(|old(log)|, DestroyApplication(am.value, old(app).value))
    {
      var call := DestroyApplication(am.value, app.value);
      OneMoreCall(log, call);
      app := None;
      r := outcome(|log|, call);
      log := log + [call];
      assert DestroysApp(log[|old(log)|], old(app).value);
    }

    method InvokeDestroyManager() returns (r: Outcome)
      requires Valid() && am.Some? && em.Some?
      modifies this`log, this`am
      ensures Valid() && am == None && !ManagerAlive(old(am).value)
      ensures forall a :: Alive(a) <==> old(Alive(a))
      ensures log == old(log) + [DestroyManager(em.value, old(am).value)]
      ensures r == outcome(|old(log)|, DestroyManager(em.value, old(am).value))
    {
      var call := DestroyManager(em.value, am.value);
      OneMoreCall(log, call);
      am := None;
      r := outcome(|log|, call);
      log := log + [call];
      assert forall i :: 0 <= i < |old(log)| ==> log[i] == old(log)[i];
      assert DestroysManager(log[|old(log)|], old(am).value);
      forall a
        ensures Alive(a) <==> old(Alive(a))
      {
      }
    }

    /** A new object that nothing has been called on. */
    method NewReference() returns (r: Reference)
      requires Valid()
      modifies this`next
      ensures Valid() && r == old(next) && next == r + 1
    {
      r := next;
      next := next + 1;
    }

    /** Lets go of what is left. */
    method Forget()
      requires Valid()
      modifies this`em, this`am, this`app
      ensures Valid() && Linked() && em == None && am == None && app == None
    {
      em, am, app := None, None, None;
    }

    /** Begins a launch with a new manager. */
    method Restart() returns (m: Reference)
      requires Valid()
      modifies this`em, this`am, this`app, this`next
      ensures Valid() && Linked() && m == old(next) && next == m + 1 && em == Some(m) && am == None && app == None
    {
      m := NewReference();
      em, am, app := Some(m), None, None;
    }

    method AdoptManager() returns (m: Reference)
      requires Valid() && Linked() && em.Some? && am == None
      modifies this`am, this`next
      ensures Valid() && Linked() && m == old(next) && next == m + 1 && am == Some(m)
    {
      m := NewReference();
      am := Some(m);
    }

    method AdoptApplication() returns (a: Reference)
      requires Valid() && Linked() && am.Some? && app == None
      modifies this`app, this`next
      ensures Valid() && Linked() && a == old(next) && next == a + 1 && app == Some(a) && Alive(a)
    {
      a := NewReference();
      app := Some(a);
    }

    /** Stops and destroys the application, if there is one. */
    method StopAndDestroy() returns (raised: Outcome)
      requires Valid() && Linked()
      modifies this`log, this`app
      ensures Valid() && Linked()
      ensures (log, raised) == Logged(outcome, old(log), AppCalls(am, old(app))) && (raised == Returns ==> app == None)
      ensures app == if old(app).Some? && outcome(|old(log)|, StopApplication(old(app).value)) != Returns then old(app) else None
      ensures old(app).Some? ==> (Alive(old(app).value) <==> app.Some?)
    {
      ghost var planned := AppCalls(am, app);
      raised := Returns;
      LoggedNone(outcome, log);
      if app.Some? {
        LoggedTwo(outcome, log, planned[0], planned[1]);
        raised := Invoke(StopApplication(app.value));
        if raised == Returns {
          raised := InvokeDestroyApplication();
        }
      }
    }

    /** The try block of a launch, after the plan was prepared. */
    method TryLaunch(ghost newApp: Reference) returns (raised: Outcome)
      requires Valid() && Linked() && am.Some? && app == None && newApp == next
      modifies this`app, this`log, this`next
      ensures Valid() && Linked()
      ensures (log, raised) == Logged(outcome, old(log), LaunchOrder(em.value, am.value, newApp)[1..])
      ensures app == if outcome(|old(log)|, StartLaunch(am.value)) == Returns then Some(newApp) else None
    {
      ghost var planned := LaunchOrder(em.value, am.value, newApp)[1..];
      LoggedThree(outcome, log, planned[0], planned[1], planned[2]);
      raised := Invoke(StartLaunch(am.value));
      if raised != Returns {
        return;
      }
      var application := AdoptApplication();
      raised := Invoke(FinishLaunch(application));
      if raised == Returns {
        raised := Invoke(StartApplication(application));
      }
    }

    /** The domain launcher tries to destroy the manager in any case, and then forgets everything. */
    method CleanUpDomain()
      requires Valid() && Linked() && am.Some?
      modifies this`em, this`am, this`app, this`log
      ensures Valid() && em == None && am == None && app == None
      ensures var stopped := Logged(outcome, old(log), AppCalls(old(am), old(app))).0;
              log == stopped + [DestroyManager(old(em).value, old(am).value)]
      ensures old(app).Some? ==>
                (Alive(old(app).value) <==> outcome(|old(log)|, StopApplication(old(app).value)) != Returns)
      ensures !ManagerAlive(old(am).value)
    {
      var _ := StopAndDestroy();
      var _ := InvokeDestroyManager();
      Forget();
    }

    /** The node launcher stops at the first exception and keeps what it has not destroyed. */
    method CleanUpNode()
      requires Valid() && Linked() && am.Some?
      modifies this`em, this`am, this`app, this`log
      ensures Valid() && Linked()
      ensures log == Logged(outcome, old(log), AppCalls(old(am), old(app)) + [DestroyManager(old(em).value, old(am).value)]).0
      ensures app == if old(app).Some? && outcome(|old(log)|, StopApplication(old(app).value)) != Returns then old(app) else None
      ensures old(app).Some? ==> (Alive(old(app).value) <==> app.Some?)
      ensures am != old(am) ==> !ManagerAlive(old(am).value)
    {
      ghost var planned := AppCalls(am, app);
      ghost var last := DestroyManager(em.value, am.value);
      LoggedMore(outcome, log, planned, last);
      var raised := StopAndDestroy();
      if raised == Returns {
        raised := InvokeDestroyManager();
        if raised == Returns {
          Forget();
        }
      }
    }

    /** `newEm`, `newAm` and `newApp` are what the calls hand out if they return. */
    method Launch() returns (raised: Outcome, ghost newEm: Reference, ghost newAm: Reference, ghost newApp: Reference)
      requires Valid() && Linked()
      modifies this`em, this`am, this`app, this`log, this`next
      ensures Valid() && Linked()
      ensures var (launched, r) := Logged(outcome, old(log), LaunchOrder(newEm, newAm, newApp));
              && raised == r
              && (raised != UserException || |launched| == |old(log)| + 1 ==> log == launched)
              && (raised == UserException && |launched| > |old(log)| + 1 ==>
                    log == CleanedUp(kind, outcome, launched, newEm, newAm, if |launched| > |old(log)| + 2 then Some(newApp) else None))
              && (raised == UserException && |launched| > |old(log)| + 1 && kind == Domain ==> em == None && am == None)
      ensures newEm == old(next) && newAm == newEm + 1 && newApp == newEm + 2
      ensures raised == Returns ==>
                && em == Some(newEm) && am == Some(newAm) && app == Some(newApp)
                && log == old(log) + [PreparePlan(newEm), StartLaunch(newAm), FinishLaunch(newApp), StartApplication(newApp)]
      // the manager that preparePlan returned is destroyed by a failed launch, or the node launcher keeps it
      ensures raised == UserException && outcome(|old(log)|, PreparePlan(newEm)) == Returns ==>
                !ManagerAlive(newAm) || (kind == Node && am == Some(newAm))
      // a launched application is kept or destroyed, unless the domain launcher cannot stop it in its cleanup
      ensures StartsApplication(outcome, |old(log)|, newEm, newAm) ==>
                (app != Some(newApp) && Alive(newApp) <==>
                 kind == Domain && FailsAndCannotStop(outcome, |old(log)|, newApp))
      ensures !StartsApplication(outcome, |old(log)|, newEm, newAm) ==> app == None
    {
      hide Launcher.Valid, Launcher.Alive, Logged, AppCalls, LaunchOrder, FailsAndCannotStop;
      newEm, newAm, newApp := next, next + 1, next + 2;
      LaunchSteps(outcome, log, newEm, newAm, newApp);
      var manager := Restart();
      raised := Invoke(PreparePlan(manager));
      if raised != Returns {
        return;
      }
      var _ := AdoptManager();
      raised := TryLaunch(newApp);
      if raised == UserException {
        if kind == Domain {
          CleanUpDomain();
        } else {
          CleanUpNode();
        }
      }
    }

    method Shutdown() returns (raised: Outcome)
      requires Valid() && Linked()
      modifies this`em, this`am, this`app, this`log
      ensures Valid() && Linked()
      ensures (log, raised) == Logged(outcome, old(log), ShutdownOrder(old(em), old(am), old(app), hasShutdownHandler))
      ensures raised == Returns ==> app == None && am == None && em == None
      ensures raised == Returns ==>
                && (old(app).Some? ==> !Alive(old(app).value)) && (old(am).Some? ==> !ManagerAlive(old(am).value))
                && EndsProcess(log, |old(log)|, hasShutdownHandler)
      ensures raised == Returns && old(app).Some? && old(am).Some? && old(em).Some? ==>
                log == old(log) + [StopApplication(old(app).value), DestroyApplication(old(am).value, old(app).value),
                                   DestroyManager(old(em).value, old(am).value)]
                     + (if hasShutdownHandler then [CallShutdownHandler, ShutdownOrb] else [ShutdownOrb])
    {
      hide Launcher.Valid, Logged, EndsProcess, AppCalls, Launcher.ManagerAlive;
      ghost var rest := ShutdownOrder(em, am, None, hasShutdownHandler);
      OrderInParts(em, am, app, hasShutdownHandler);
      LoggedAppend(outcome, log, AppCalls(am, app), rest);
      ghost var a, before := app, log;
      raised := StopAndDestroy();
      if raised == Returns {
        ghost var stopped := log;
        AllLogged(outcome, before, AppCalls(am, a));
        AppCallsAre(am, a);
        ghost var calls := if am.Some? && em.Some? then [DestroyManager(em.value, am.value)] else [];
        ghost var i := 0;
        if a.Some? {
          i := AppGone(a.value);
        }
        raised := ShutdownManager();
        if raised == Returns {
          ManagerThenEnd(before, stopped, calls, log, hasShutdownHandler);
          assert a.Some? ==> DestroysApp(log[i], a.value);
        }
      }
    }

    lemma AppGone(a: Reference) returns (i: nat)
      requires !Alive(a)
      ensures i < |log| && DestroysApp(log[i], a)
    {
      i :| 0 <= i < |log| && DestroysApp(log[i], a);
    }

    method ShutdownManager() returns (raised: Outcome)
      requires Valid() && Linked() && app == None
      modifies this`em, this`am, this`app, this`log
      ensures Valid() && Linked() && app == None && old(log) <= log
      ensures (log, raised) == Logged(outcome, old(log), ShutdownOrder(old(em), old(am), None, hasShutdownHandler))
      ensures raised == Returns ==> am == None && em == None
      ensures raised == Returns ==>
                && (old(am).Some? ==> !ManagerAlive(old(am).value))
                && log == old(log) + (if old(am).Some? && old(em).Some? then [DestroyManager(old(em).value, old(am).value)] else [])
                        + LastCalls(hasShutdownHandler)
    {
      hide Launcher.Valid, Logged;
      ghost var end := ShutdownOrder(None, None, None, hasShutdownHandler);
      ghost var m, before := am, log;
      if am.Some? {
        ghost var planned := ShutdownOrder(em, am, None, hasShutdownHandler);
        assert planned == [DestroyManager(em.value, am.value)] + end && planned[1..] == end;
        assert planned[0] == DestroyManager(em.value, am.value);
        LoggedFirst(outcome, log, planned);
        raised := InvokeDestroyManager();
        if raised != Returns {
          return;
        }
      }
      Forget();
      ghost var destroyed := log;
      raised := ShutdownProcess();
      if m.Some? {
        assert DestroysManager(destroyed[|before|], m.value) && log[|before|] == destroyed[|before|];
      }
    }

    method ShutdownProcess() returns (raised: Outcome)
      requires Valid()
      modifies this`log
      ensures Valid()
      ensures (log, raised) == Logged(outcome, old(log), ShutdownOrder(None, None, None, hasShutdownHandler))
      ensures old(log) <= log && (raised == Returns ==> log == old(log) + LastCalls(hasShutdownHandler))
    {
      hide Launcher.Valid, Logged;
      if hasShutdownHandler {
        assert ShutdownOrder(None, None, None, true) == [CallShutdownHandler, ShutdownOrb];
        LoggedTwo(outcome, log, CallShutdownHandler, ShutdownOrb);
        raised := Invoke(CallShutdownHandler);
        if raised != Returns {
          return;
        }
      } else {
        assert ShutdownOrder(None, None, None, false) == [ShutdownOrb];
        LoggedFirst(outcome, log, [ShutdownOrb]);
        assert [ShutdownOrb][1..] == [];
        LoggedNone(outcome, log + [ShutdownOrb]);
      }
      raised := Invoke(ShutdownOrb);
    }
  }

  lemma {:induction false} LoggedPrefix(outcome: (nat, Call) -> Outcome, log: seq<Call>, planned: seq<Call>)
    ensures var r := Logged(outcome, log, planned).0;
            && |log| <= |r| <= |log| + |planned|
            && r == log + planned[..|r| - |log|]
    decreases |planned|
  {
    if planned != [] {
      LoggedPrefix(outcome, log + [planned[0]], planned[1..]);
    }
  }

  /** The log consists of the first calls of a launch, in their order, and then of no such calls. */
  ghost predicate LaunchedInOrder(log: seq<Call>, n: nat, em: Reference, am: Reference, app: Reference) {
    n <= |log| && log[..n] <= LaunchOrder(em, am, app) && NoLaunchCalls(log[n..])
  }

  lemma MoreCalls(log: seq<Call>, more: seq<Call>, n: nat, em: Reference, am: Reference, app: Reference)
    requires LaunchedInOrder(log, n, em, am, app) && NoLaunchCalls(more)
    ensures LaunchedInOrder(log + more, n, em, am, app)
  {
    assert (log + more)[..n] == log[..n] && (log + more)[n..] == log[n..] + more;
  }

  /** Calls made out of calls that are no launch calls. */
  lemma NoLaunchAmong(outcome: (nat, Call) -> Outcome, log: seq<Call>, planned: seq<Call>) returns (more: seq<Call>)
    requires NoLaunchCalls(planned)
    ensures NoLaunchCalls(more) && Logged(outcome, log, planned).0 == log + more
  {
    LoggedPrefix(outcome, log, planned);
    more := planned[..|Logged(outcome, log, planned).0| - |log|];
  }

  lemma AfterLaunch(kind: Kind, outcome: (nat, Call) -> Outcome, em: Reference, am: Reference, app: Reference,
                    log: seq<Call>, a: Option<Reference>)
    requires var launched := Logged(outcome, [], LaunchOrder(em, am, app)).0;
             log == launched || log == CleanedUp(kind, outcome, launched, em, am, a)
    ensures LaunchedInOrder(log, |Logged(outcome, [], LaunchOrder(em, am, app)).0|, em, am, app)
  {
    hide Logged, LaunchOrder;
    var launched := Logged(outcome, [], LaunchOrder(em, am, app)).0;
    LoggedPrefix(outcome, [], LaunchOrder(em, am, app));
    assert launched == LaunchOrder(em, am, app)[..|launched|];
    assert launched[..|launched|] == launched && launched[|launched|..] == [];
    assert LaunchedInOrder(launched, |launched|, em, am, app);
    if log != launched {
      var last := DestroyManager(em, am);
      if kind == Domain {
        var more := NoLaunchAmong(outcome, launched, AppCalls(Some(am), a));
        MoreCalls(launched, more + [last], |launched|, em, am, app);
        assert log == launched + (more + [last]);
      } else {
        var more := NoLaunchAmong(outcome, launched, AppCalls(Some(am), a) + [last]);
        MoreCalls(launched, more, |launched|, em, am, app);
      }
    }
  }

  ghost predicate AllReturn(outcome: (nat, Call) -> Outcome) {
    forall n: nat, call :: outcome(n, call) == Returns
  }

  lemma {:induction false} AllReturnLogged(outcome: (nat, Call) -> Outcome, log: seq<Call>, planned: seq<Call>)
    requires AllReturn(outcome)
    ensures Logged(outcome, log, planned).1 == Returns
    decreases |planned|
  {
    if planned != [] {
      AllReturnLogged(outcome, log + [planned[0]], planned[1..]);
    }
  }

  /** One launch and then any number of shutdowns, with failures possible at each call: the launch calls come first and
      in their order, nothing is destroyed twice, and applications are destroyed right after they were stopped. */
  method RunLauncher(kind: Kind, outcome: (nat, Call) -> Outcome, hasShutdownHandler: bool, shutdowns: nat)
    returns (log: seq<Call>)
    ensures DestroyedOnce(log) && StoppedFirst(log)
    ensures exists n, em, am, app :: LaunchedInOrder(log, n, em, am, app)
  {
    hide Logged, DestroyedOnce, StoppedFirst, LaunchedInOrder, CleanedUp;
    var launcher := new Launcher(kind, outcome, hasShutdownHandler);
    var raised;
    ghost var em, am, app;
    raised, em, am, app := launcher.Launch();
    ghost var launched := Logged(outcome, [], LaunchOrder(em, am, app)).0;
    ghost var n := |launched|;
    LoggedFirst(outcome, [], LaunchOrder(em, am, app));
    AfterLaunch(kind, outcome, em, am, app, launcher.log, if |launched| > 2 then Some(app) else None);
    for k := 0 to shutdowns
      invariant fresh(launcher) && launcher.Valid() && launcher.Linked() && launcher.outcome == outcome
      invariant LaunchedInOrder(launcher.log, n, em, am, app)
    {
      ghost var before, planned := launcher.log,
                                   ShutdownOrder(launcher.em, launcher.am, launcher.app, launcher.hasShutdownHandler);
      ghost var more := NoLaunchAmong(outcome, before, planned);
      MoreCalls(before, more, n, em, am, app);
      raised := launcher.Shutdown();
    }
    log := launcher.log;
    WhatValidSays(launcher);
  }

  /** A launch and a shutdown without failures make exactly these calls. */
  method LaunchAndShutdown(kind: Kind, outcome: (nat, Call) -> Outcome, hasShutdownHandler: bool) returns (log: seq<Call>)
    requires AllReturn(outcome)
    ensures log == [PreparePlan(0), StartLaunch(1), FinishLaunch(2), StartApplication(2),
                    StopApplication(2), DestroyApplication(1, 2), DestroyManager(0, 1)]
                 + (if hasShutdownHandler then [CallShutdownHandler, ShutdownOrb] else [ShutdownOrb])
  {
    hide Logged, DestroyedOnce, StoppedFirst, CleanedUp, AllReturn, Launcher.Valid, EndsProcess;
    var launcher := new Launcher(kind, outcome, hasShutdownHandler);
    AllReturnLogged(outcome, [], LaunchOrder(0, 1, 2));
    var raised, em, am, app := launcher.Launch();
    AllReturnLogged(outcome, launcher.log, ShutdownOrder(launcher.em, launcher.am, launcher.app, hasShutdownHandler));
    raised := launcher.Shutdown();
    log := launcher.log;
  }

  lemma WhatValidSays(launcher: Launcher)
    requires launcher.Valid()
    ensures DestroyedOnce(launcher.log) && StoppedFirst(launcher.log)
  {
  }

  /** A launch in which finishLaunch raises a user exception and stop another exception. */
  function CannotStop(): (nat, Call) -> Outcome {
    (n, call: Call) => if call.FinishLaunch? then UserException else if call.StopApplication? then OtherException else Returns
  }

  lemma FailedRun()
    ensures Logged(CannotStop(), [], LaunchOrder(0, 1, 2)) == ([PreparePlan(0), StartLaunch(1), FinishLaunch(2)], UserException)
  {
    hide Logged;
    var p, s, f, a := PreparePlan(0), StartLaunch(1), FinishLaunch(2), StartApplication(2);
    LoggedFirst(CannotStop(), [], LaunchOrder(0, 1, 2));
    assert LaunchOrder(0, 1, 2)[1..] == [s, f, a];
    LoggedThree(CannotStop(), [p], s, f, a);
    assert [] + [p] == [p] && [p] + [s] + [f] == [p, s, f];
  }

  lemma DroppedRun(launched: seq<Call>, dropped: seq<Call>)
    requires launched == [PreparePlan(0), StartLaunch(1), FinishLaunch(2)]
    requires dropped == launched + [StopApplication(2), DestroyManager(0, 1)]
    ensures CleanedUp(Domain, CannotStop(), launched, 0, 1, Some(2)) == dropped
    ensures Logged(CannotStop(), dropped, ShutdownOrder(None, None, None, false)) == (dropped + [ShutdownOrb], Returns)
  {
    hide Logged;
    LoggedTwo(CannotStop(), launched, StopApplication(2), DestroyApplication(1, 2));
    LoggedFirst(CannotStop(), dropped, [ShutdownOrb]);
    LoggedNone(CannotStop(), dropped + [ShutdownOrb]);
    assert ShutdownOrder(None, None, None, false) == [ShutdownOrb] && [ShutdownOrb][1..] == [];
  }

  /** The domain launcher drops the launched application: it is neither kept nor destroyed, nor does a shutdown
      destroy it. */
  method DroppedUndestroyed() returns (log: seq<Call>, app: Option<Reference>)
    ensures app == None
    ensures log == [PreparePlan(0), StartLaunch(1), FinishLaunch(2), StopApplication(2), DestroyManager(0, 1), ShutdownOrb]
    ensures forall i :: 0 <= i < |log| ==> !DestroysApp(log[i], 2)
  {
    hide Logged, CleanedUp, CannotStop, Launcher.Valid, Launcher.Alive, Launcher.ManagerAlive, ShutdownOrder, LaunchOrder;
    var launcher := new Launcher(Domain, CannotStop(), false);
    ghost var launched := [PreparePlan(0), StartLaunch(1), FinishLaunch(2)];
    ghost var dropped := launched + [StopApplication(2), DestroyManager(0, 1)];
    FailedRun();
    DroppedRun(launched, dropped);
    var raised, em, am, a := launcher.Launch();
    assert launcher.log == dropped;
    raised := launcher.Shutdown();
    log, app := launcher.log, launcher.app;
  }
}
