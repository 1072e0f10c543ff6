/** The moderation page: its search over the loaded entries, the status filter toggles,
    the key that re-triggers loading, the list request with its error and loading states,
    the moderation actions, and the fallback shown for an empty detail field.

    The network is a parameter: `fetch` answers the list request and `post` answers an
    action request. The confirmation dialog's answer is a parameter too, and the alert a
    failed action shows is returned instead of displayed. */
module AdminPage {
  import opened Options
  import opened JsStrings
  import opened Entries
  import Sequences
  import StringSort

  // ---------------------------------------------------------------------------
  // Search
  // ---------------------------------------------------------------------------

  /** The text the moderation search looks in: title, type, city, country, zipcode and
      status, the present non-empty ones joined by a space, lower-cased. */
  function Haystack(e: Entry): string {
    SearchText([Some(e.title), e.kind, e.city, e.country, e.zipcode, e.status])
  }

  /** The query: the search box trimmed, then lower-cased. */
  function Query(search: string): (q: string)
    ensures q == "" <==> Blank(search)
    ensures NoUpper(q)
  {
    Lower(Trim(search))
  }

  /** The entries the table lists: all of them for a blank search, otherwise those whose
      haystack contains the query, in order. */
  function FilteredEntries(entries: seq<Entry>, search: string): (r: seq<Entry>)
    ensures Blank(search) ==> r == entries
    ensures Sequences.SubsequenceOf(r, entries)
    ensures !Blank(search) ==> forall e | e in entries :: e in r <==> Contains(Haystack(e), Query(search))
  {
    var q := Query(search);
    Sequences.SubsequenceOfSelf(entries);
    if q == "" then entries else Sequences.Filter(entries, e => Contains(Haystack(e), q))
  }

  // ---------------------------------------------------------------------------
  // Status filter
  // ---------------------------------------------------------------------------

  /** The statuses shown when the page opens. */
  const InitialStatuses: seq<string> := ["pending", "rejected"]

  /** The updater `toggleStatus(value)` applies: remove every occurrence of `value` when it
      is there, append it when it is not, and keep the previous list when removal would
      leave nothing. */
  function Toggled(prev: seq<string>, value: string): (next: seq<string>)
    ensures next != []
    ensures value !in prev ==> next == prev + [value]
    ensures value in prev && (exists x | x in prev :: x != value) ==> next == Sequences.Filter(prev, x => x != value) && value !in next
    ensures value in prev && (forall x | x in prev :: x == value) ==> next == prev
  {
    var others := (x: string) => x != value;
    var candidate := if value in prev then Sequences.Filter(prev, others) else prev + [value];
    assert value in prev && (forall x | x in prev :: x == value) ==> candidate == [] by {
      if value in prev && forall x | x in prev :: x == value {
        Sequences.FilterDropsAll(prev, others);
      }
    }
    if |candidate| == 0 then prev else candidate
  }

  /** Toggling a status that is not selected, twice in a row, gives back the selection. */
  lemma ToggleTwice(prev: seq<string>, value: string)
    requires prev != [] && value !in prev
    ensures Toggled(Toggled(prev, value), value) == prev
  {
    var p := (x: string) => x != value;
    Sequences.FilterConcat(prev, [value], p);
    assert Sequences.Filter([value], p) == [];
    Sequences.FilterKeepsAll(prev, p);
    assert prev[0] in prev + [value];
  }

  /** The key whose changes reload the list: the selected statuses sorted, joined by ",". */
  function StatusKey(statusFilter: seq<string>): string {
    JoinWith(",", StringSort.Sort(statusFilter))
  }

  /** The key names the selection as a set with multiplicities: selections that differ only
      in order share one key, so reordering never reloads. */
  lemma StatusKeyIgnoresOrder(a: seq<string>, b: seq<string>)
    requires multiset(a) == multiset(b)
    ensures StatusKey(a) == StatusKey(b)
  {
    StringSort.SortPermutationInvariant(a, b);
  }

  // ---------------------------------------------------------------------------
  // Loading the list
  // ---------------------------------------------------------------------------

  /** The list request: the value of its `status` query parameter, when it has one. */
  datatype EntriesRequest = EntriesRequest(status: Option<string>)

  /** The answer to a request, once its JSON body is read: the `ok` flag, the body's
      `error` and `entries` members, or an exception from `fetch` or from reading the
      body of a successful response. */
  datatype Reply =
    | Reply(ok: bool, error: Option<string>, entries: Option<seq<Entry>>)
    | Threw(message: string)

  /** The request `loadEntries` sends for a selection. */
  function RequestFor(statusFilter: seq<string>): (r: EntriesRequest)
    ensures r.status.Some? <==> |statusFilter| > 0
  {
    if |statusFilter| > 0 then EntriesRequest(Some(JoinWith(",", statusFilter))) else EntriesRequest(None)
  }

  /** The message a failed request leaves: the body's `error` when it is a non-empty
      string, otherwise `fallback`. */
  function FailureMessage(error: Option<string>, fallback: string): (r: string)
    ensures error.Some? && error.value != "" ==> r == error.value
    ensures error.None? || error.value == "" ==> r == fallback
    ensures fallback != "" ==> r != ""
  {
    if error.Some? && error.value != "" then error.value else fallback
  }

  /** The list and the error message a reply leaves on the page. */
  function LoadResult(reply: Reply): (r: (seq<Entry>, string))
    ensures reply.Reply? && reply.ok ==> r == (reply.entries.GetOr([]), "")
    ensures !(reply.Reply? && reply.ok) ==> r.0 == [] && r.1 != ""
  {
    match reply
    case Threw(message) => ([], if message != "" then message else "Unknown error")
    case Reply(ok, error, entries) =>
      if ok then (entries.GetOr([]), "")
      else ([], FailureMessage(error, "Request failed"))
  }

  /** What an action request answers: the `ok` flag and the body's `error`, or an
      exception. */
  datatype ActReply = ActReply(ok: bool, error: Option<string>) | ActThrew(message: string)

  // ---------------------------------------------------------------------------
  // The page's state
  // ---------------------------------------------------------------------------

  class Admin {
    var token: Option<string>
    var loadingEntries: bool
    var mutating: bool
    var entries: seq<Entry>
    var error: string
    var search: string
    var statusFilter: seq<string>

    /** The status selection is never empty. */
    ghost predicate Valid()
      reads this
    {
      statusFilter != []
    }

    /** Whether requests carry authorisation headers: there is a non-empty session token. */
    predicate HasHeaders()
      reads this
    {
      token.Some? && token.value != ""
    }

    /** The page as first rendered. */
    constructor()
      ensures Valid()
      ensures token == None && !loadingEntries && !mutating && entries == [] && error == ""
      ensures search == "" && statusFilter == InitialStatuses
    {
      token := None;
      loadingEntries := false;
      mutating := false;
      entries := [];
      error := "";
      search := "";
      statusFilter := InitialStatuses;
    }

    /** A click on a status button. */
    method ToggleStatus(value: string)
      requires Valid()
      modifies this
      ensures Valid()
      ensures statusFilter == Toggled(old(statusFilter), value)
      ensures token == old(token) && entries == old(entries) && error == old(error) && search == old(search)
      ensures loadingEntries == old(loadingEntries) && mutating == old(mutating)
    {
      statusFilter := Toggled(statusFilter, value);
    }

    /** `loadEntries`: without a token nothing happens and no request is sent; otherwise
        the request for the current selection is sent, and the list and error message
        become what the reply leaves, with the loading flag cleared at the end. */
    method LoadEntries(fetch: EntriesRequest -> Reply) returns (sent: Option<EntriesRequest>)
      modifies this
      ensures !old(HasHeaders()) ==> sent == None && entries == old(entries) && error == old(error) && loadingEntries == old(loadingEntries)
      ensures old(HasHeaders()) ==> sent == Some(RequestFor(statusFilter))
      ensures old(HasHeaders()) ==> (entries, error) == LoadResult(fetch(sent.value)) && !loadingEntries
      ensures token == old(token) && statusFilter == old(statusFilter) && search == old(search) && mutating == old(mutating)
    {
      if !HasHeaders() {
        return None;
      }
      error := "";
      loadingEntries := true;
      var request := RequestFor(statusFilter);
      sent := Some(request);
      var reply := fetch(request);
      match reply {
        case Threw(message) =>
          error := if message != "" then message else "Unknown error";
          entries := [];
        case Reply(ok, replyError, replyEntries) =>
          if !ok {
            error := FailureMessage(replyError, "Request failed");
            entries := [];
          } else {
            entries := replyEntries.GetOr([]);
          }
      }
      loadingEntries := false;
    }

    /** `act`: a moderation action (approve, reject or delete) on entry `id`. It does nothing
        without a token or when the confirmation is declined. Otherwise it posts the
        action; on success it reloads the list, on failure it returns the alert message.
        The in-progress flag is cleared at the end. */
    method Act(path: string, id: int, confirmed: bool, post: (string, int) -> ActReply, fetch: EntriesRequest -> Reply)
      returns (alert: Option<string>, reloaded: bool)
      modifies this
      ensures !old(HasHeaders()) || !confirmed ==>
        alert == None && !reloaded && entries == old(entries) && error == old(error) && mutating == old(mutating)
        && loadingEntries == old(loadingEntries)
      ensures old(HasHeaders()) && confirmed ==> !mutating
      ensures old(HasHeaders()) && confirmed ==> (reloaded <==> post(path, id).ActReply? && post(path, id).ok)
      ensures old(HasHeaders()) && confirmed ==> (alert.None? <==> reloaded)
      ensures alert.Some? ==>
        alert.value != "" && entries == old(entries) && error == old(error) && loadingEntries == old(loadingEntries)
      ensures reloaded ==> (entries, error) == LoadResult(fetch(RequestFor(statusFilter))) && !loadingEntries
      ensures token == old(token) && statusFilter == old(statusFilter) && search == old(search)
    {
      alert, reloaded := None, false;
      if !HasHeaders() || !confirmed {
        return;
      }
      mutating := true;
      var reply := post(path, id);
      match reply {
        case ActThrew(message) =>
          alert := Some(if message != "" then message else "Action failed");
        case ActReply(ok, replyError) =>
          if !ok {
            alert := Some(FailureMessage(replyError, "Action failed"));
          } else {
            var _ := LoadEntries(fetch);
            reloaded := true;
          }
      }
      mutating := false;
    }
  }

  // ---------------------------------------------------------------------------
  // Entry details
  // ---------------------------------------------------------------------------

  /** What a detail field shows: the value, or "—" when it is missing, empty or only
      whitespace. A field never shows as blank. */
  function DisplayValue(value: Option<string>): (shown: string)
    ensures value.None? || Blank(value.value) ==> shown == "\U{2014}"
    ensures value.Some? && !Blank(value.value) ==> shown == value.value
    ensures !Blank(shown)
  {
    if value.Some? && value.value != "" && |Trim(value.value)| > 0 then value.value
    else
      assert !IsSpace('\U{2014}');
      assert !Blank("\U{2014}") by {
        assert "\U{2014}"[0] == '\U{2014}';
      }
      "\U{2014}"
  }
}
