// At most one reconcile at a time (runReconcile in services/mesh_state.js).
module Serialised {
  import opened Wrappers

  /** What can happen, in any order: a timer tick or a manual request asks for a pass; the running pass
      ends, well or badly; the `finally` handler of an ended pass runs. */
  datatype Happening = Request | PassEnds(ok: bool) | FinallyRuns

  /** Passes are numbered from 0 in the order they start. */
  datatype Phase = Running | Ended(ok: bool) | Over

  /** `inFlight` is the promise of a pass, named by its number. */
  datatype State = State(inFlight: Option<nat>, phases: seq<Phase>)

  const INITIAL := State(None, [])

  /** The pass whose promise a request gets. */
  function Given(s: State): nat {
    if s.inFlight.Some? then s.inFlight.value else |s.phases|
  }

  function After(s: State, h: Happening): State {
    match h
    case Request => if s.inFlight.Some? then s else State(Some(|s.phases|), s.phases + [Running])
    case PassEnds(ok) =>
      if s.inFlight.Some? && s.inFlight.value < |s.phases| && s.phases[s.inFlight.value] == Running
      then s.(phases := s.phases[s.inFlight.value := Ended(ok)]) else s
    case FinallyRuns =>
      if s.inFlight.Some? && s.inFlight.value < |s.phases| && s.phases[s.inFlight.value].Ended?
      then State(None, s.phases[s.inFlight.value := Over]) else s
  }

  function AfterAll(s: State, run: seq<Happening>): State
    decreases run
  {
    if run == [] then s else AfterAll(After(s, run[0]), run[1..])
  }

  /** The module's variable, and the passes it stands for. */
  class Reconciler {
    var inFlight: Option<nat>
    var phases: seq<Phase>

    constructor ()
      ensures State(inFlight, phases) == INITIAL
    {
      inFlight, phases := None, [];
    }

    /** runReconcile: the promise of the running pass, or of a new one. */
    method RunReconcile() returns (promise: nat)
      modifies this
      ensures promise == Given(old(State(inFlight, phases)))
      ensures State(inFlight, phases) == After(old(State(inFlight, phases)), Request)
    {
      if inFlight.Some? {
        return inFlight.value;
      }
      promise := |phases|;
      phases := phases + [Running];
      inFlight := Some(promise);
    }

    /** The pass settles, fulfilled or rejected. */
    method Settle(ok: bool)
      modifies this
      ensures State(inFlight, phases) == After(old(State(inFlight, phases)), PassEnds(ok))
    {
      if inFlight.Some? && inFlight.value < |phases| && phases[inFlight.value] == Running {
        phases := phases[inFlight.value := Ended(ok)];
      }
    }

    /** The handler given to `finally`. */
    method Finally()
      modifies this
      ensures State(inFlight, phases) == After(old(State(inFlight, phases)), FinallyRuns)
    {
      if inFlight.Some? && inFlight.value < |phases| && phases[inFlight.value].Ended? {
        phases := phases[inFlight.value := Over];
        inFlight := None;
      }
    }
  }

  /** At most the last pass is not over, and `inFlight` is that pass. */
  ghost predicate OneAtATime(s: State) {
    && (forall i :: 0 <= i < |s.phases| - 1 ==> s.phases[i] == Over)
    && (s.inFlight == None ==> s.phases == [] || s.phases[|s.phases| - 1] == Over)
    && (s.inFlight.Some? ==> s.phases != [] && s.inFlight.value == |s.phases| - 1 && s.phases[|s.phases| - 1] != Over)
  }

  lemma {:induction false} AlwaysOneAtATime(s: State, run: seq<Happening>)
    requires OneAtATime(s)
    ensures OneAtATime(AfterAll(s, run))
    decreases run
  {
    if run != [] {
      AlwaysOneAtATime(After(s, run[0]), run[1..]);
    }
  }

  /** Under every order of events no two passes run at once, a request gets the promise of the running
      pass or starts the next one, and it never gets the promise of a pass that is over. */
  lemma RequestsShareTheRunningPass(run: seq<Happening>)
    ensures var s := AfterAll(INITIAL, run);
      && (forall i, j :: 0 <= i < |s.phases| && 0 <= j < |s.phases| && s.phases[i] == s.phases[j] == Running ==> i == j)
      && (forall i :: 0 <= i < |s.phases| && s.phases[i] == Running ==> Given(s) == i && After(s, Request) == s)
      && (Given(s) < |s.phases| ==> s.phases[Given(s)] != Over)
  {
    AlwaysOneAtATime(INITIAL, run);
  }

  /** Whether a pass succeeds or fails, once its handler has run the next request starts a new pass. */
  lemma NextRequestStartsAfresh(run: seq<Happening>, ok: bool)
    requires AfterAll(INITIAL, run).inFlight.Some?
    ensures var s := AfterAll(INITIAL, run);
            var done := After(After(s, PassEnds(ok)), FinallyRuns);
      && done.inFlight == None
      && Given(done) == |s.phases|
      && After(done, Request).phases == done.phases + [Running]
  {
    AlwaysOneAtATime(INITIAL, run);
  }
}
