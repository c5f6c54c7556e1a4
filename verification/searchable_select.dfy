/** The contact search box (`SearchableSelect`): the typed term, whether
    suggestions are open, and what the box shows for a given set of search
    results. The search request is a parameter: its results and whether one
    is in flight are inputs. */
module SearchableSelect {
  import opened Base
  import Lists

  /** A search result (`results[]`). */
  datatype Person = Person(id: Id, firstName: string, lastName: string)

  function PersonId(p: Person): Id { p.id }

  /** `${first_name} ${last_name}`. */
  function DisplayName(p: Person): string {
    p.firstName + " " + p.lastName
  }

  /** `searchTerm` and `showSuggestions`. */
  datatype SelectState = SelectState(term: string, open: bool)

  const Initial := SelectState("", false)

  /** `handleChange`: the term follows the input and suggestions open. */
  function OnInput(st: SelectState, typed: string): (r: SelectState)
    ensures r.term == typed && r.open
  {
    SelectState(typed, true)
  }

  /** `handleSelect(id)`: an id not among the results changes nothing and
      reports nothing; a known id shows the first such person's name,
      closes the list and reports that person. */
  function OnSelect(st: SelectState, results: seq<Person>, id: Id): (r: (SelectState, Option<Person>))
    ensures !Lists.HasKey(results, PersonId, id) ==> r.0 == st && r.1.None?
    ensures Lists.HasKey(results, PersonId, id) ==>
              && r.1.Some?
              && r.1.value.id == id
              && (exists i :: 0 <= i < |results| && results[i] == r.1.value
                   && forall j :: 0 <= j < i ==> results[j].id != id)
              && r.0 == SelectState(DisplayName(r.1.value), false)
  {
    match Lists.Find(results, PersonId, id)
    case None => (st, None)
    case Some(p) => (SelectState(DisplayName(p), false), Some(p))
  }

  /** `handleClickAway`: suggestions close, the term stays. */
  function OnClickAway(st: SelectState): (r: SelectState)
    ensures r.term == st.term && !r.open
  {
    st.(open := false)
  }

  /** The effect on the `value` prop: a non-empty value replaces the term;
      an absent or empty one leaves the state alone. */
  function SyncValue(st: SelectState, value: Option<string>): (r: SelectState)
    ensures value.Some? && value.value != "" ==> r == st.(term := value.value)
    ensures value.None? || value.value == "" ==> r == st
  {
    if value.Some? && value.value != "" then st.(term := value.value) else st
  }

  /** For a caller that passes the picked person's display name back as
      `value`, syncing it changes nothing the pick did not already do. The
      contact form passes a different expression, so this is a property of
      the component, not of that caller. */
  lemma SyncAfterPickIsStable(st: SelectState, results: seq<Person>, id: Id)
    requires Lists.HasKey(results, PersonId, id)
    ensures OnSelect(st, results, id).1.Some?
    ensures SyncValue(OnSelect(st, results, id).0, Some(DisplayName(OnSelect(st, results, id).1.value)))
         == OnSelect(st, results, id).0
  {
  }

  /** While the parent's value is still empty, syncing it does not undo what
      the user is typing. */
  lemma SyncEmptyKeepsTyping(st: SelectState, typed: string, value: Option<string>)
    requires value.None? || value.value == ""
    ensures SyncValue(OnInput(st, typed), value) == OnInput(st, typed)
    ensures SyncValue(OnInput(st, typed), value).term == typed
  {
  }

  /** A value synced twice is synced once, and of two non-empty values the
      later one wins; the open flag is never touched. */
  lemma SyncLastValueWins(st: SelectState, v1: Option<string>, v2: Option<string>)
    ensures SyncValue(SyncValue(st, v1), v1) == SyncValue(st, v1)
    ensures v2.Some? && v2.value != "" ==> SyncValue(SyncValue(st, v1), v2) == SyncValue(st, v2)
    ensures SyncValue(st, v1).open == st.open
  {
  }

  /** What the box shows under the text field. */
  datatype View = View(dropdown: bool, noResults: bool)

  /** The two render conditions: the dropdown needs an open, non-empty term
      with results; the "No results found" line needs the same without
      results and without a request in flight. */
  function Visibility(st: SelectState, fetching: bool, results: seq<Person>): (v: View)
    ensures v.dropdown <==> st.open && st.term != "" && |results| > 0
    ensures v.noResults <==> !fetching && st.term != "" && st.open && |results| == 0
  {
    View(st.open && st.term != "" && |results| > 0,
         !fetching && st.term != "" && st.open && |results| == 0)
  }

  /** The dropdown and the "No results found" line never show together,
      and neither shows while suggestions are closed. */
  lemma NeverBothShown(st: SelectState, fetching: bool, results: seq<Person>)
    ensures !(Visibility(st, fetching, results).dropdown && Visibility(st, fetching, results).noResults)
    ensures !st.open ==> Visibility(st, fetching, results) == View(false, false)
  {
  }

  /** After a successful pick or a click away nothing shows, whatever the
      results are. */
  lemma PickAndClickAwayHideEverything(st: SelectState, results: seq<Person>, id: Id,
                                       fetching: bool, later: seq<Person>)
    ensures Lists.HasKey(results, PersonId, id) ==>
              Visibility(OnSelect(st, results, id).0, fetching, later) == View(false, false)
    ensures Visibility(OnClickAway(st), fetching, later) == View(false, false)
  {
  }

  /** Clicking away and typing the same term again reopens the box on it. */
  lemma RetypeReopens(st: SelectState)
    ensures OnInput(OnClickAway(st), st.term) == st.(open := true)
  {
  }

  /** Clearing the input hides both the dropdown and the message, even
      though suggestions are open. */
  lemma EmptyTermShowsNothing(st: SelectState, fetching: bool, results: seq<Person>)
    ensures OnInput(st, "").open
    ensures Visibility(OnInput(st, ""), fetching, results) == View(false, false)
  {
  }
}
