/** The administrators' list endpoint: it reads the `status` query parameter into the
    statuses to show and asks the database for the entries with those statuses, newest
    first.

    Whether the caller is an administrator is decided by `requireAdmin`, which is not part
    of this model: its verdict is a parameter. The database is a parameter too: `db`
    answers the query with rows or an error. */
module EntriesRoute {
  import opened Options
  import opened JsStrings
  import opened Entries
  import Sequences
  import AdminPage

  /** The statuses listed when the request names none. */
  const DefaultStatuses: seq<string> := ["pending", "rejected"]

  /** One segment of the parameter, trimmed and lower-cased. */
  function NormalizeSegment(segment: string): (r: string)
    ensures Trimmed(r) && NoUpper(r)
    ensures r == "" <==> Blank(segment)
  {
    var t := Trim(segment);
    LowerKeepsShape(t);
    Lower(t)
  }

  /** The normalised comma-separated segments of a parameter, empty ones included. */
  function Segments(param: string): (r: seq<string>)
    ensures |r| == |Split(param, ',')|
    ensures forall k | 0 <= k < |r| :: Trimmed(r[k]) && NoUpper(r[k])
  {
    Sequences.Map(Split(param, ','), NormalizeSegment)
  }

  /** `parseStatuses`: the default when the parameter is missing or empty, otherwise the
      normalised segments that are not empty, in order: every one of them is kept, and only
      the empty ones are dropped. */
  function ParseStatuses(param: Option<string>): (r: seq<string>)
    ensures param.None? || param.value == "" ==> r == DefaultStatuses
    ensures param.Some? && param.value != "" ==>
      Sequences.SubsequenceOf(r, Segments(param.value)) && |r| <= |Split(param.value, ',')|
    ensures param.Some? && param.value != "" ==>
      (forall x | x in Segments(param.value) && x != "" :: x in r)
      && |r| == |Segments(param.value)| - multiset(Segments(param.value))[""]
    ensures forall x | x in r :: x != "" && Trimmed(x) && NoUpper(x)
  {
    if param.None? || param.value == "" then DefaultStatuses
    else
      var segments := Segments(param.value);
      KeptSegments(segments);
      Sequences.Filter(segments, NonEmpty)
  }

  /** Keeping the non-empty ones of normalised segments drops exactly the empty ones. */
  lemma KeptSegments(segments: seq<string>)
    requires forall k | 0 <= k < |segments| :: Trimmed(segments[k]) && NoUpper(segments[k])
    ensures var r := Sequences.Filter(segments, NonEmpty);
      && (forall x | x in segments && x != "" :: x in r)
      && |r| == |segments| - multiset(segments)[""]
      && (forall x | x in r :: x != "" && Trimmed(x) && NoUpper(x))
  {
    Sequences.FilterDropsValue(segments, NonEmpty, "");
    var r := Sequences.Filter(segments, NonEmpty);
    forall x | x in r ensures Trimmed(x) && NoUpper(x) {
      var k :| 0 <= k < |segments| && segments[k] == x;
    }
  }

  /** A parameter made only of commas and whitespace names no status at all, so the query
      lists every entry whatever its status. */
  lemma OnlySeparators(param: string)
    requires param != ""
    requires forall i | 0 <= i < |param| :: param[i] == ',' || IsSpace(param[i])
    ensures ParseStatuses(Some(param)) == []
    ensures QueryFor(ParseStatuses(Some(param))).statuses.None?
  {
    var pieces := Split(param, ',');
    var segs := Segments(param);
    forall k | 0 <= k < |pieces| ensures Blank(pieces[k]) {
      forall i | 0 <= i < |pieces[k]| ensures IsSpace(pieces[k][i]) {
        var c := pieces[k][i];
        JoinHasPieceChars([','], pieces, k, c);
        assert c != ',';
      }
    }
    Sequences.FilterDropsAll(segs, NonEmpty);
  }

  /** A status that the parameter carries unchanged: not empty, not padded, no upper-case
      letter and no comma. */
  predicate CanonicalStatus(s: string) {
    s != "" && Trimmed(s) && NoUpper(s) && ',' !in s
  }

  /** What the moderation page sends is what the endpoint reads back: for a non-empty
      selection of canonical statuses, the request's parameter parses to the selection
      itself, in the same order; for an empty selection the endpoint falls back to the
      default statuses. */
  lemma RequestRoundTrip(statusFilter: seq<string>)
    requires forall k | 0 <= k < |statusFilter| :: CanonicalStatus(statusFilter[k])
    ensures ParseStatuses(AdminPage.RequestFor(statusFilter).status)
         == if statusFilter == [] then DefaultStatuses else statusFilter
  {
    if statusFilter != [] {
      var param := JoinWith(",", statusFilter);
      JoinCanonical(statusFilter);
      Sequences.FilterKeepsAll(statusFilter, NonEmpty);
      assert ParseStatuses(Some(param)) == Sequences.Filter(Segments(param), NonEmpty);
    }
  }

  /** Joining canonical statuses by commas gives a non-empty parameter whose segments are
      those statuses. */
  lemma JoinCanonical(statusFilter: seq<string>)
    requires statusFilter != []
    requires forall k | 0 <= k < |statusFilter| :: CanonicalStatus(statusFilter[k])
    ensures JoinWith(",", statusFilter) != ""
    ensures Segments(JoinWith(",", statusFilter)) == statusFilter
  {
    assert [','] == ",";
    SplitJoin(statusFilter, ',');
    JoinHasPieceChars(",", statusFilter, 0, statusFilter[0][0]);
    NormalizeCanonical(statusFilter);
  }

  /** Normalising canonical statuses changes none of them. */
  lemma NormalizeCanonical(statuses: seq<string>)
    requires forall k | 0 <= k < |statuses| :: CanonicalStatus(statuses[k])
    ensures Sequences.Map(statuses, NormalizeSegment) == statuses
  {
    forall k | 0 <= k < |statuses| ensures NormalizeSegment(statuses[k]) == statuses[k] {
      LowerNoUpper(statuses[k]);
    }
  }

  /** The statuses the moderation page offers as toggles. */
  const OfferedStatuses: seq<string> := ["pending", "approved", "rejected"]

  /** The selection the moderation page starts with is read back as sent. */
  lemma InitialRoundTrip()
    ensures forall k | 0 <= k < |AdminPage.InitialStatuses| :: CanonicalStatus(AdminPage.InitialStatuses[k])
    ensures ParseStatuses(AdminPage.RequestFor(AdminPage.InitialStatuses).status) == AdminPage.InitialStatuses
  {
    RequestRoundTrip(AdminPage.InitialStatuses);
  }

  /** A click on an offered status keeps the selection canonical, so the selection after
      it is read back as sent too: with `InitialRoundTrip`, every selection the page can
      hold round-trips through the parameter. */
  lemma ClickRoundTrip(prev: seq<string>, value: string)
    requires forall k | 0 <= k < |prev| :: CanonicalStatus(prev[k])
    requires value in OfferedStatuses
    ensures forall k | 0 <= k < |AdminPage.Toggled(prev, value)| :: CanonicalStatus(AdminPage.Toggled(prev, value)[k])
    ensures ParseStatuses(AdminPage.RequestFor(AdminPage.Toggled(prev, value)).status) == AdminPage.Toggled(prev, value)
  {
    assert CanonicalStatus(value) by { OfferedCanonical(value); }
    ToggleKeepsCanonical(prev, value);
    RequestRoundTrip(AdminPage.Toggled(prev, value));
  }

  lemma OfferedCanonical(value: string)
    requires value in OfferedStatuses
    ensures CanonicalStatus(value)
  {
  }

  /** Toggling a canonical status in a canonical selection leaves a canonical selection. */
  lemma ToggleKeepsCanonical(prev: seq<string>, value: string)
    requires forall k | 0 <= k < |prev| :: CanonicalStatus(prev[k])
    requires CanonicalStatus(value)
    ensures forall k | 0 <= k < |AdminPage.Toggled(prev, value)| :: CanonicalStatus(AdminPage.Toggled(prev, value)[k])
  {
    var next := AdminPage.Toggled(prev, value);
    forall k | 0 <= k < |next| ensures CanonicalStatus(next[k]) {
      assert next[k] in next;
      if next[k] != value {
        var j :| 0 <= j < |prev| && prev[j] == next[k];
      }
    }
  }

  // ---------------------------------------------------------------------------
  // The handler
  // ---------------------------------------------------------------------------

  /** The database query: every entry ordered by id descending, restricted to the given
      statuses when there are any. */
  datatype Query = Query(statuses: Option<seq<string>>)

  /** What the database answers: rows (possibly none) or an error. */
  datatype DbResult = Rows(data: Option<seq<Entry>>) | DbError(message: string)

  datatype Body = ErrorBody(error: string) | EntriesBody(entries: seq<Entry>)

  datatype Response = Response(status: int, body: Body)

  /** The query built for a list of statuses. */
  function QueryFor(statuses: seq<string>): (q: Query)
    ensures q.statuses.Some? <==> |statuses| > 0
    ensures q.statuses.Some? ==> q.statuses.value == statuses
  {
    if |statuses| > 0 then Query(Some(statuses)) else Query(None)
  }

  /** `GET`: an unauthorised caller gets 401 and no query runs. Otherwise the query for the
      parsed statuses runs; a database error gives 500 with its message, rows give 200
      with the rows, none at all an empty list. Returns the response and the query run. */
  function Get(authorized: bool, param: Option<string>, db: Query -> DbResult): (r: (Response, Option<Query>))
    ensures !authorized <==> r.0 == Response(401, ErrorBody("unauthorized"))
    ensures !authorized ==> r.1.None?
    ensures authorized ==> r.1 == Some(QueryFor(ParseStatuses(param)))
    ensures authorized && db(r.1.value).DbError? ==> r.0 == Response(500, ErrorBody(db(r.1.value).message))
    ensures authorized && db(r.1.value).Rows? ==> r.0 == Response(200, EntriesBody(db(r.1.value).data.GetOr([])))
  {
    if !authorized then (Response(401, ErrorBody("unauthorized")), None)
    else
      var query := QueryFor(ParseStatuses(param));
      match db(query)
      case DbError(message) => (Response(500, ErrorBody(message)), Some(query))
      case Rows(data) => (Response(200, EntriesBody(data.GetOr([]))), Some(query))
  }
}
