/** Runs between two states, and the requests that arrive on the way. */
module LifecycleRuns {
  import opened Wrappers
  import opened Lifecycle
  import ConfigSpec

  predicate IsArrival(e: Event) {
    e.StartArrives? || e.StopArrives?
  }

  /** The requests that arrive during a run, in order. */
  function Arrivals(es: seq<Event>): seq<Event> {
    if es == [] then []
    else Arrivals(es[..|es| - 1]) + if IsArrival(es[|es| - 1]) then [es[|es| - 1]] else []
  }

  /** Event by event, the states a run passes through; no request arrives. */
  ghost predicate Passes(guarded: bool, s: State, es: seq<Event>, states: seq<State>, s': State) {
    && |states| == |es| + 1 && states[0] == s && states[|es|] == s'
    && forall k {:trigger es[k]} | 0 <= k < |es| ::
      && !IsArrival(es[k]) && Enabled(states[k], es[k]) && states[k + 1] == Apply(guarded, states[k], es[k])
  }

  /** The threads there are can bring the system from `s` to `s'`. */
  ghost predicate Leads(guarded: bool, s: State, s': State) {
    exists es, states :: Passes(guarded, s, es, states, s')
  }

  lemma LeadsNowhere(guarded: bool, s: State)
    ensures Leads(guarded, s, s)
  {
    assert Passes(guarded, s, [], [s], s);
  }

  /** One more event. */
  lemma Step(guarded: bool, s: State, m: State, e: Event) returns (s': State)
    requires Leads(guarded, s, m) && Enabled(m, e) && !IsArrival(e)
    ensures s' == Apply(guarded, m, e) && Leads(guarded, s, s')
  {
    s' := Apply(guarded, m, e);
    var es, states :| Passes(guarded, s, es, states, m);
    var es', states' := es + [e], states + [s'];
    forall k | 0 <= k < |es'|
      ensures !IsArrival(es'[k]) && Enabled(states'[k], es'[k]) && states'[k + 1] == Apply(guarded, states'[k], es'[k])
    {
      assert k < |es| ==> es'[k] == es[k];
    }
    assert Passes(guarded, s, es', states', s');
  }

  lemma PassesJoin(guarded: bool, s: State, es: seq<Event>, states: seq<State>, m: State,
                   es': seq<Event>, states': seq<State>, s': State)
    requires Passes(guarded, s, es, states, m) && Passes(guarded, m, es', states', s')
    ensures Passes(guarded, s, es + es', states[..|es|] + states', s')
  {
    var all, through := es + es', states[..|es|] + states';
    forall k | 0 <= k < |all|
      ensures !IsArrival(all[k]) && Enabled(through[k], all[k]) && through[k + 1] == Apply(guarded, through[k], all[k])
    {
      assert all[k] == if k < |es| then es[k] else es'[k - |es|];
    }
  }

  lemma LeadsOn(guarded: bool, s: State, m: State, s': State)
    requires Leads(guarded, s, m) && Leads(guarded, m, s')
    ensures Leads(guarded, s, s')
  {
    var es, states :| Passes(guarded, s, es, states, m);
    var es', states' :| Passes(guarded, m, es', states', s');
    PassesJoin(guarded, s, es, states, m, es', states', s');
  }

  /** What can be led to is the end of a run without arrivals. */
  lemma LeadsIsRun(guarded: bool, s: State, s': State) returns (es: seq<Event>)
    requires Leads(guarded, s, s')
    ensures After(guarded, s, es) == Some(s') && Arrivals(es) == []
  {
    var states;
    es, states :| Passes(guarded, s, es, states, s');
    PassesIsRun(guarded, s, es, states, |es|);
    assert es[..|es|] == es;
  }

  lemma {:induction false} PassesIsRun(guarded: bool, s: State, es: seq<Event>, states: seq<State>, n: nat)
    requires n <= |es| && |states| == |es| + 1 && Passes(guarded, s, es, states, states[|es|])
    ensures After(guarded, s, es[..n]) == Some(states[n]) && Arrivals(es[..n]) == []
  {
    if n > 0 {
      PassesIsRun(guarded, s, es, states, n - 1);
      assert es[..n][..n - 1] == es[..n - 1] && es[..n][n - 1] == es[n - 1];
    }
  }

  lemma {:induction false} RunsJoin(guarded: bool, s: State, es: seq<Event>, m: State, es': seq<Event>, s': State)
    requires After(guarded, s, es) == Some(m) && After(guarded, m, es') == Some(s')
    ensures After(guarded, s, es + es') == Some(s')
  {
    if es' == [] {
      assert es + es' == es;
    } else {
      var last := |es'| - 1;
      RunsJoin(guarded, s, es, m, es'[..last], After(guarded, m, es'[..last]).value);
      assert (es + es')[..|es + es'| - 1] == es + es'[..last];
    }
  }

  lemma {:induction false} ArrivalsJoin(es: seq<Event>, es': seq<Event>)
    ensures Arrivals(es + es') == Arrivals(es) + Arrivals(es')
  {
    if es' == [] {
      assert es + es' == es;
    } else {
      ArrivalsJoin(es, es'[..|es'| - 1]);
      assert (es + es')[..|es + es'| - 1] == es + es'[..|es'| - 1];
    }
  }
}
