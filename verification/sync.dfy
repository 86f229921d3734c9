/** The pure state handling of the dashboard page: reconciling an update event,
    replacing state on the initial load, and planning the write a counter button
    sends. Local state is a sequence of rows; the remote table is another. */
module Sync {
  import opened Wrappers
  import opened Progress

  // ---------------------------------------------------------------------------
  // Update events
  // ---------------------------------------------------------------------------

  /** Local reconciliation of an UPDATE event carrying the new image `row`:
      every local record whose `id` equals `row.id` is replaced by `row`. */
  function ApplyEvent(s: seq<PersonData>, row: PersonData): (r: seq<PersonData>)
    ensures |r| == |s|
    ensures forall i :: 0 <= i < |s| && s[i].id != row.id ==> r[i] == s[i]
    ensures forall i :: 0 <= i < |s| && s[i].id == row.id ==> r[i] == row
  {
    if |s| == 0 then []
    else [if s[0].id == row.id then row else s[0]] + ApplyEvent(s[1..], row)
  }

  /** The event keeps the list's shape: same length, same ids in the same order. */
  lemma ApplyEventPreservesIds(s: seq<PersonData>, row: PersonData)
    ensures Ids(ApplyEvent(s, row)) == Ids(s)
  {
  }

  /** An event leaves the list unchanged exactly when every record it matches
      already equals the event's row; in particular when no `id` matches. */
  lemma ApplyEventUnchangedIff(s: seq<PersonData>, row: PersonData)
    ensures ApplyEvent(s, row) == s <==> forall i :: 0 <= i < |s| && s[i].id == row.id ==> s[i] == row
  {
  }

  /** Of two events for the same `id`, the later one wins. */
  lemma ApplyEventLastWins(s: seq<PersonData>, a: PersonData, b: PersonData)
    requires a.id == b.id
    ensures ApplyEvent(ApplyEvent(s, a), b) == ApplyEvent(s, b)
  {
  }

  /** Events for different rows may arrive in either order. */
  lemma ApplyEventCommutes(s: seq<PersonData>, a: PersonData, b: PersonData)
    requires a.id != b.id
    ensures ApplyEvent(ApplyEvent(s, a), b) == ApplyEvent(ApplyEvent(s, b), a)
  {
  }

  /** Ids that were unique, or ascending, stay so after an event. */
  lemma ApplyEventPreservesIdOrder(s: seq<PersonData>, row: PersonData)
    ensures UniqueIds(s) ==> UniqueIds(ApplyEvent(s, row))
    ensures SortedById(s) ==> SortedById(ApplyEvent(s, row))
  {
  }

  // ---------------------------------------------------------------------------
  // Initial load
  // ---------------------------------------------------------------------------

  /** The initial fetch: a present result replaces local state wholesale,
      an absent one (a failed query) leaves it as it was. */
  function Load(s: seq<PersonData>, result: Option<seq<PersonData>>): (r: seq<PersonData>)
    ensures result.Some? ==> r == result.value
    ensures result.None? ==> r == s
  {
    match result
    case Some(rows) => rows
    case None => s
  }

  // ---------------------------------------------------------------------------
  // Counter mutation
  // ---------------------------------------------------------------------------

  /** `i` is the position of the first record named `name` (what `find` returns). */
  ghost predicate IsFirstMatch(s: seq<PersonData>, name: string, i: int) {
    && 0 <= i < |s|
    && s[i].person == name
    && forall j :: 0 <= j < i ==> s[j].person != name
  }

  /** The position of the first record whose `person` is `name`, if any. */
  function FirstMatch(s: seq<PersonData>, name: string): (r: Option<nat>)
    ensures r.Some? ==> IsFirstMatch(s, name, r.value)
    ensures r.None? <==> forall i :: 0 <= i < |s| ==> s[i].person != name
  {
    if |s| == 0 then None
    else if s[0].person == name then Some(0)
    else match FirstMatch(s[1..], name)
      case None => None
      case Some(k) => Some(k + 1)
  }

  /** `max(0, current + change)`: the new counter value, never below zero. */
  function ClampedAdd(current: int, change: int): (r: int)
    ensures r >= 0
    ensures current + change >= 0 ==> r == current + change
    ensures current + change < 0 ==> r == 0
  {
    if current + change < 0 then 0 else current + change
  }

  /** An increment followed by a decrement restores any non-negative counter;
      a decrement at zero stays at zero, so the reverse order does not. */
  lemma IncrementDecrement(v: int)
    requires v >= 0
    ensures ClampedAdd(ClampedAdd(v, 1), -1) == v
    ensures ClampedAdd(ClampedAdd(0, -1), 1) == 1
  {
  }

  /** A single-field update request: set counter `field` to `value` on every
      remote row whose `person` is `person`. */
  datatype Write = Write(person: string, field: Counter, value: int)

  /** The write a counter button sends, or nothing when no local record
      has that person. Local state is not touched; see `Dashboard.Step`. */
  function PlanUpdate(s: seq<PersonData>, name: string, field: Counter, change: int): (r: Option<Write>)
    ensures r.None? <==> forall i :: 0 <= i < |s| ==> s[i].person != name
    ensures r.Some? ==> r.value.person == name && r.value.field == field && r.value.value >= 0
    ensures r.Some? ==> exists i :: IsFirstMatch(s, name, i)
                                    && r.value.value == ClampedAdd(Get(s[i], field), change)
  {
    match FirstMatch(s, name)
    case None => None
    case Some(i) => Some(Write(name, field, ClampedAdd(Get(s[i], field), change)))
  }

  /** With one record per person, the planned value is read from that record,
      wherever it sits. */
  lemma PlanUpdateReadsOwnRecord(s: seq<PersonData>, k: int, field: Counter, change: int)
    requires UniquePersons(s)
    requires 0 <= k < |s|
    ensures PlanUpdate(s, s[k].person, field, change)
            == Some(Write(s[k].person, field, ClampedAdd(Get(s[k], field), change)))
  {
  }

  /** The meaning of a write request on a table: rows of that person get the
      field set, every other row is left alone. */
  function ApplyWrite(t: seq<PersonData>, w: Write): (r: seq<PersonData>)
    ensures |r| == |t|
    ensures forall i :: 0 <= i < |t| && t[i].person == w.person ==> r[i] == Set(t[i], w.field, w.value)
    ensures forall i :: 0 <= i < |t| && t[i].person != w.person ==> r[i] == t[i]
  {
    if |t| == 0 then []
    else [if t[0].person == w.person then Set(t[0], w.field, w.value) else t[0]]
         + ApplyWrite(t[1..], w)
  }

  /** The round trip of a button press. When local state equals the table, and
      ids and names are unique, the write changes the one row of that person;
      applying the update event that storage echoes for it makes local state
      equal to the new table. */
  lemma EchoConverges(s: seq<PersonData>, name: string, field: Counter, change: int, w: Write, k: int)
    requires UniqueIds(s) && UniquePersons(s)
    requires PlanUpdate(s, name, field, change) == Some(w)
    requires 0 <= k < |s| && s[k].person == name
    ensures ApplyEvent(s, ApplyWrite(s, w)[k]) == ApplyWrite(s, w)
    ensures Get(ApplyEvent(s, ApplyWrite(s, w)[k])[k], field) == ClampedAdd(Get(s[k], field), change)
  {
    PlanUpdateReadsOwnRecord(s, k, field, change);
    var t := ApplyWrite(s, w);
    var r := ApplyEvent(s, t[k]);
    assert t[k] == Set(s[k], field, w.value);
    forall i | 0 <= i < |s|
      ensures r[i] == t[i]
    {
      if i != k {
        assert s[i].id != s[k].id && s[i].person != s[k].person;
      }
    }
  }

  /** Three concrete presses: +1 on 10 writes 11; -1 on 0 writes 0, not -1;
      a name with no record writes nothing. */
  lemma PlanUpdateExamples()
    ensures PlanUpdate([PersonData(1, "A", 10, 0, 0)], "A", Movies, 1) == Some(Write("A", Movies, 11))
    ensures PlanUpdate([PersonData(1, "A", 0, 0, 0)], "A", Movies, -1) == Some(Write("A", Movies, 0))
    ensures PlanUpdate([PersonData(1, "A", 0, 0, 0), PersonData(2, "B", 0, 0, 0)], "C", Movies, 1) == None
  {
  }
}
