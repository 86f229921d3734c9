/** The page component as a state machine: its state is the list of rows, and
    each input (the fetch completing, an UPDATE event arriving, a button being
    pressed) yields the next state and, for a button, the write to send. */
module Dashboard {
  import opened Wrappers
  import opened Progress
  import opened Sync

  /** What can happen to the page. */
  datatype Action =
    | Loaded(result: Option<seq<PersonData>>)
    | Updated(row: PersonData)
    | Pressed(name: string, field: Counter, change: int)

  /** The state after one action, and the write request it sends, if any. */
  datatype Outcome = Outcome(state: seq<PersonData>, write: Option<Write>)

  /** The page starts with no rows. */
  const Initial: seq<PersonData> := []

  /** One input handled by the page. */
  function Step(s: seq<PersonData>, a: Action): (o: Outcome)
    ensures o.write.Some? ==> a.Pressed? && o.write.value.value >= 0
    ensures a.Pressed? ==> o.state == s
    ensures !a.Loaded? ==> |o.state| == |s| && Ids(o.state) == Ids(s)
  {
    match a
    case Loaded(result) => Outcome(Load(s, result), None)
    case Updated(row) => Outcome(ApplyEvent(s, row), None)
    case Pressed(name, field, change) => Outcome(s, PlanUpdate(s, name, field, change))
  }

  /** Before the initial load completes, buttons send nothing. */
  lemma PressBeforeLoadWritesNothing(name: string, field: Counter, change: int)
    ensures Step(Initial, Pressed(name, field, change)).write == None
  {
  }

  /** The final state after a series of actions, and every write sent on the way. */
  datatype Trace = Trace(state: seq<PersonData>, writes: seq<Write>)

  /** The number of button presses among `actions`. */
  function Presses(actions: seq<Action>): nat {
    if |actions| == 0 then 0
    else (if actions[0].Pressed? then 1 else 0) + Presses(actions[1..])
  }

  /** Handling `actions` in order from state `s`. Every write sent holds a
      non-negative value, there is at most one per press, and without a load
      the rows keep their ids and order. */
  function Run(s: seq<PersonData>, actions: seq<Action>): (t: Trace)
    ensures forall i :: 0 <= i < |t.writes| ==> t.writes[i].value >= 0
    ensures |t.writes| <= Presses(actions)
    ensures (forall i :: 0 <= i < |actions| ==> !actions[i].Loaded?) ==> Ids(t.state) == Ids(s)
    decreases |actions|
  {
    if |actions| == 0 then Trace(s, [])
    else
      var o := Step(s, actions[0]);
      var rest := Run(o.state, actions[1..]);
      Trace(rest.state, (match o.write case Some(w) => [w] case None => []) + rest.writes)
  }

  /** Pressing buttons alone never changes what the page shows. */
  lemma {:induction false} PressesKeepState(s: seq<PersonData>, actions: seq<Action>)
    requires forall i :: 0 <= i < |actions| ==> actions[i].Pressed?
    ensures Run(s, actions).state == s
    decreases |actions|
  {
    if |actions| > 0 {
      PressesKeepState(s, actions[1..]);
    }
  }

  /** A fetch that returns nothing is invisible: the page behaves as if it
      had not happened. */
  lemma FailedLoadIsNoOp(s: seq<PersonData>, rest: seq<Action>)
    ensures Run(s, [Loaded(None)] + rest) == Run(s, rest)
  {
    assert ([Loaded(None)] + rest)[1..] == rest;
  }

  /** A fetch that returns rows discards everything that happened before it:
      what the page shows afterwards depends only on the rows and later actions. */
  lemma {:induction false} LoadDiscardsHistory(s: seq<PersonData>, before: seq<Action>, rows: seq<PersonData>, after: seq<Action>)
    ensures Run(s, before + [Loaded(Some(rows))] + after).state == Run(rows, after).state
    decreases |before|
  {
    var all := before + [Loaded(Some(rows))] + after;
    if |before| == 0 {
      assert all[0] == Loaded(Some(rows)) && all[1..] == after;
    } else {
      assert all[0] == before[0];
      assert all[1..] == before[1..] + [Loaded(Some(rows))] + after;
      LoadDiscardsHistory(Step(s, before[0]).state, before[1..], rows, after);
    }
  }
}
