/** Sessions as sequences of user events, each submission settling before the
    next event, and the invariants every reachable state keeps. */
module Trace {
  import opened Wrappers
  import opened Semester
  import opened Session

  /** Typing a registration number, choosing a semester, or submitting the
      form together with the response the lookup (if any) receives. */
  datatype Event = EnterRegdNo(value: string) | ChooseSemester(value: string) | SubmitForm(response: Response)

  /** The state after one event. */
  function Step(s: State, e: Event): State {
    match e
    case EnterRegdNo(v) => s.(regdNo := v)
    case ChooseSemester(v) => s.(semester := v)
    case SubmitForm(resp) => Lookup(s, resp)
  }

  /** The state after a sequence of events. */
  function Run(s: State, events: seq<Event>): State
    decreases |events|
  {
    if events == [] then s else Run(Step(s, events[0]), events[1..])
  }

  /** The requests a sequence of events sends, in order. */
  function Requests(s: State, events: seq<Event>): seq<Request>
    decreases |events|
  {
    if events == [] then []
    else
      var sent :=
        if events[0].SubmitForm? && HandleSubmit(s).Issued? then [HandleSubmit(s).request] else [];
      sent + Requests(Step(s, events[0]), events[1..])
  }

  /** What every state between events satisfies: no lookup is pending, a shown
      table always comes with two non-empty summaries, and a table and a
      message are shown together only when the message is the validation one. */
  predicate Consistent(s: State) {
    && !s.loading
    && (s.results.Some? ==> s.cgpa != "" && s.sgpa != "")
    && (s.results.Some? && s.error.Some? ==> s.error == Some(FillAllFields))
  }

  /** One event keeps the state consistent. */
  lemma StepPreservesConsistent(s: State, e: Event)
    requires Consistent(s)
    ensures Consistent(Step(s, e))
  {
  }

  /** Every state reachable from a consistent one is consistent. */
  lemma {:induction false} RunPreservesConsistent(s: State, events: seq<Event>)
    requires Consistent(s)
    ensures Consistent(Run(s, events))
    decreases |events|
  {
    if events != [] {
      StepPreservesConsistent(s, events[0]);
      RunPreservesConsistent(Step(s, events[0]), events[1..]);
    }
  }

  /** Every state a session reaches from the initial one is consistent. */
  lemma ReachableConsistent(events: seq<Event>)
    ensures Consistent(Run(Init(), events))
  {
    RunPreservesConsistent(Init(), events);
  }

  /** A request naming someone and a semester the service knows. */
  predicate WellFormed(r: Request) {
    r.regdNo != "" && exists n :: 1 <= n <= 8 && r.semester == "Semester-" + Roman(n)
  }

  /** Semester choices made through the select. */
  predicate ChosenFromSelect(events: seq<Event>) {
    forall i :: 0 <= i < |events| && events[i].ChooseSemester? ==> events[i].value in SelectOptions
  }

  /** When the semester only ever comes from the select, every request sent
      carries a non-empty registration number and a label the translator
      produced for a real semester. */
  lemma {:induction false} RequestsAreWellFormed(s: State, events: seq<Event>)
    requires s.semester in SelectOptions
    requires ChosenFromSelect(events)
    ensures forall r :: r in Requests(s, events) ==> WellFormed(r)
    decreases |events|
  {
    if events != [] {
      var e := events[0];
      var t := Step(s, e);
      assert t.semester in SelectOptions by {
        if e.ChooseSemester? { assert events[0] == e; }
      }
      assert ChosenFromSelect(events[1..]) by {
        forall i | 0 <= i < |events[1..]| && events[1..][i].ChooseSemester?
          ensures events[1..][i].value in SelectOptions
        {
          assert events[1..][i] == events[i + 1];
        }
      }
      RequestsAreWellFormed(t, events[1..]);
      if e.SubmitForm? && HandleSubmit(s).Issued? {
        var r := HandleSubmit(s).request;
        SelectOptionsTranslate(s.semester);
        var n := CodeValue(s.semester);
        assert r.semester == "Semester-" + Roman(n);
        assert WellFormed(r);
        assert Requests(s, events) == [r] + Requests(t, events[1..]);
      } else {
        assert Requests(s, events) == Requests(t, events[1..]);
      }
    }
  }
}
