/** The one entity of the dashboard: a row of the `progress` table, holding one
    person's three counters, and the fixed per-counter goals used for display. */
module Progress {

  /** One row of the `progress` table. `id` is the storage identity used to
      reconcile update events; `person` is the name used to target writes. */
  datatype PersonData = PersonData(
    id: int,
    person: string,
    movies: int,
    workouts: int,
    smashSets: int
  )

  /** The counters a user can increment or decrement. */
  datatype Counter = Movies | Workouts | SmashSets

  /** The display goal of each counter; all three are 100 and never change. */
  function Goal(c: Counter): (g: int)
    ensures g > 0
  {
    match c
    case Movies => 100
    case Workouts => 100
    case SmashSets => 100
  }

  /** The value of counter `c` in `p` (the page's `personStats[category]`). */
  function Get(p: PersonData, c: Counter): int {
    match c
    case Movies => p.movies
    case Workouts => p.workouts
    case SmashSets => p.smashSets
  }

  /** `p` with counter `c` set to `v`: the row image after a single-field update. */
  function Set(p: PersonData, c: Counter, v: int): (q: PersonData)
    ensures Get(q, c) == v
    ensures forall d :: d != c ==> Get(q, d) == Get(p, d)
    ensures q.id == p.id && q.person == p.person
  {
    match c
    case Movies => p.(movies := v)
    case Workouts => p.(workouts := v)
    case SmashSets => p.(smashSets := v)
  }

  /** Setting a counter to the value it already holds changes nothing. */
  lemma SetGetIdentity(p: PersonData, c: Counter)
    ensures Set(p, c, Get(p, c)) == p
  {
  }

  /** The identities of the rows of `s`, in order. */
  function Ids(s: seq<PersonData>): (ids: seq<int>)
    ensures |ids| == |s|
    ensures forall i :: 0 <= i < |s| ==> ids[i] == s[i].id
  {
    seq(|s|, i requires 0 <= i < |s| => s[i].id)
  }

  /** No two rows share an `id` (storage assigns them). */
  ghost predicate UniqueIds(s: seq<PersonData>) {
    forall i, j :: 0 <= i < j < |s| ==> s[i].id != s[j].id
  }

  /** No two rows share a `person` name (the table is seeded with one row per person). */
  ghost predicate UniquePersons(s: seq<PersonData>) {
    forall i, j :: 0 <= i < j < |s| ==> s[i].person != s[j].person
  }

  /** Rows are in ascending `id` order, as the initial query requests. */
  ghost predicate SortedById(s: seq<PersonData>) {
    forall i, j :: 0 <= i < j < |s| ==> s[i].id < s[j].id
  }
}
