/**
 * The map component (`app/lib/MapClient.tsx`): the geocoding key, the enrichment pass that
 * fills in missing coordinates, the type/keyword filter, the pins, the retry throttle, the
 * loading overlay and the description preview.
 *
 * The geocoding service and the database write are oracles: `Geocoder` answers the n-th
 * request of a pass for a key, `Store` answers the n-th coordinate write. The clock is an
 * input (`now`).
 */
module MapClient {
  import opened Options
  import opened JsStrings
  import opened Entries
  import Sequences

  // ---------------------------------------------------------------------------
  // buildKey
  // ---------------------------------------------------------------------------

  /** The trimmed address, city, zipcode and country, in that order, without the empty ones. */
  function KeyParts(e: Entry): seq<string> {
    Sequences.Filter([Trim(Text(e.address)), Trim(Text(e.city)), Trim(Text(e.zipcode)), Trim(Text(e.country))], NonEmpty)
  }

  /** A geocoding key in normal form: not empty, lower case, no whitespace at either end
      and never two whitespace characters in a row. */
  predicate NormalKey(key: string) {
    key != [] && NoUpper(key) && Trimmed(key) && NoDoubleSpace(key)
  }

  /** The key made from a list of parts: joined by spaces, whitespace runs collapsed,
      trimmed and lower-cased; "" when there is no part. */
  function KeyOf(parts: seq<string>): string {
    if |parts| == 0 then "" else Lower(Trim(Collapse(JoinWith(" ", parts))))
  }

  /** `buildKey`. */
  function BuildKey(e: Entry): string {
    KeyOf(KeyParts(e))
  }

  /** Keeping the non-empty strings of a list of trimmed strings. */
  lemma NonEmptyOfTrimmed(all: seq<string>)
    requires forall k | 0 <= k < |all| :: Trimmed(all[k])
    ensures TrimmedParts(Sequences.Filter(all, NonEmpty))
    ensures Sequences.Filter(all, NonEmpty) == [] <==> forall k | 0 <= k < |all| :: all[k] == []
  {
    var parts := Sequences.Filter(all, NonEmpty);
    forall k | 0 <= k < |parts| ensures parts[k] != [] && Trimmed(parts[k]) {
      assert parts[k] in parts;
      var j :| 0 <= j < |all| && all[j] == parts[k];
    }
    if parts == [] {
      forall k | 0 <= k < |all| ensures all[k] == [] {
        assert all[k] in all;
      }
    }
  }

  /** Four trimmed strings without the empty ones. */
  lemma FourTrimmed(t0: string, t1: string, t2: string, t3: string)
    requires Trimmed(t0) && Trimmed(t1) && Trimmed(t2) && Trimmed(t3)
    ensures TrimmedParts(Sequences.Filter([t0, t1, t2, t3], NonEmpty))
    ensures Sequences.Filter([t0, t1, t2, t3], NonEmpty) == [] <==> t0 == [] && t1 == [] && t2 == [] && t3 == []
  {
    var all := [t0, t1, t2, t3];
    assert all[0] == t0 && all[1] == t1 && all[2] == t2 && all[3] == t3;
    NonEmptyOfTrimmed(all);
  }

  /** Four fields, trimmed, without the empty ones. */
  lemma FourPartsShape(a: string, c: string, z: string, n: string)
    ensures TrimmedParts(Sequences.Filter([Trim(a), Trim(c), Trim(z), Trim(n)], NonEmpty))
    ensures Sequences.Filter([Trim(a), Trim(c), Trim(z), Trim(n)], NonEmpty) == [] <==> Blank(a) && Blank(c) && Blank(z) && Blank(n)
  {
    FourTrimmed(Trim(a), Trim(c), Trim(z), Trim(n));
  }

  /** The parts of a key are trimmed and not empty; there are none exactly when the
      address, city, zipcode and country are all blank. */
  lemma KeyPartsShape(e: Entry)
    ensures TrimmedParts(KeyParts(e))
    ensures KeyParts(e) == [] <==> Blank(Text(e.address)) && Blank(Text(e.city)) && Blank(Text(e.zipcode)) && Blank(Text(e.country))
  {
    FourPartsShape(Text(e.address), Text(e.city), Text(e.zipcode), Text(e.country));
  }

  /** Trimmed, non-empty parts always give a key in normal form. */
  lemma KeyOfNormal(parts: seq<string>)
    requires |parts| > 0 && TrimmedParts(parts)
    ensures NormalKey(KeyOf(parts))
  {
    var joined := JoinWith(" ", parts);
    JoinTrimmed(parts);
    CollapseBlank(joined);
    CollapseNoDouble(joined);
    TrimNoDoubleSpace(Collapse(joined));
    LowerKeepsShape(Trim(Collapse(joined)));
  }

  /** `buildKey` returns "" exactly when the address, city, zipcode and country are all
      missing, empty or whitespace; otherwise the key is in normal form. */
  lemma KeyEmptyIffNoLocation(e: Entry)
    ensures BuildKey(e) == [] <==> Blank(Text(e.address)) && Blank(Text(e.city)) && Blank(Text(e.zipcode)) && Blank(Text(e.country))
    ensures BuildKey(e) != [] ==> NormalKey(BuildKey(e))
  {
    KeyPartsShape(e);
    if |KeyParts(e)| > 0 {
      KeyOfNormal(KeyParts(e));
    }
  }

  /** One location part in key form: whitespace collapsed and lower-cased. */
  function NormalizePart(part: string): string {
    Lower(Collapse(part))
  }

  /** Collapse that leaves a trimmed string trimmed. */
  lemma CollapseTrimmed(s: string)
    requires Trimmed(s)
    ensures Trimmed(Collapse(s))
  {
    var r := Collapse(s);
    if s != [] {
      CollapseFirst(s);
      CollapseLast(s);
      assert !IsSpace(r[0]);
      assert !IsSpace(r[|r| - 1]);
    }
  }

  /** Normalising the joined parts is joining the normalised parts. */
  lemma KeyOfJoins(parts: seq<string>)
    requires |parts| > 0 && TrimmedParts(parts)
    ensures KeyOf(parts) == JoinWith(" ", Sequences.Map(parts, NormalizePart))
  {
    var cs := Sequences.Map(parts, Collapse);
    KeyOfCollapses(parts);
    LowerJoin(cs);
    NormalizeEach(parts);
  }

  lemma KeyOfCollapses(parts: seq<string>)
    requires |parts| > 0 && TrimmedParts(parts)
    ensures KeyOf(parts) == Lower(JoinWith(" ", Sequences.Map(parts, Collapse)))
  {
    var joined := JoinWith(" ", parts);
    JoinTrimmed(parts);
    CollapseTrimmed(joined);
    CollapseJoin(parts);
  }

  lemma NormalizeEach(parts: seq<string>)
    ensures Sequences.Map(Sequences.Map(parts, Collapse), Lower) == Sequences.Map(parts, NormalizePart)
  {
    var cs := Sequences.Map(parts, Collapse);
    var ls, ns := Sequences.Map(cs, Lower), Sequences.Map(parts, NormalizePart);
    forall i | 0 <= i < |ls| ensures ls[i] == ns[i] {
      assert ls[i] == Lower(cs[i]) && cs[i] == Collapse(parts[i]);
    }
  }

  /** The key lists the entry's non-blank location parts in the order address, city,
      zipcode, country, each normalised on its own and separated by exactly one space. */
  lemma KeyJoinsParts(e: Entry)
    ensures BuildKey(e) == JoinWith(" ", Sequences.Map(KeyParts(e), NormalizePart))
  {
    if |KeyParts(e)| > 0 {
      KeyPartsShape(e);
      KeyOfJoins(KeyParts(e));
    }
  }

  // ---------------------------------------------------------------------------
  // The enrichment pass (fetchCoords)
  // ---------------------------------------------------------------------------

  /** The first candidate's coordinates after `parseFloat`: `None` when not finite. */
  datatype Candidate = Candidate(lat: Option<real>, lon: Option<real>)

  /** What one geocoding request yields. */
  datatype GeoResponse =
    | Failed                            // `fetch` or `res.json()` threw
    | NotOk                             // `res.ok` was false
    | Candidates(hits: seq<Candidate>)  // the parsed JSON array of matches

  /** What the coordinate write to the `entries` table yields: success, an `error` in the
      result, or a thrown exception. The pass logs it and goes on in every case. */
  datatype WriteOutcome = Stored | StoreError | StoreThrew

  /** One coordinate write issued by the pass. */
  datatype Write = Write(id: int, lat: real, lon: real, outcome: WriteOutcome)

  /** The geocoding service: the answer to the n-th request of a pass, for a key. */
  type Geocoder = (nat, string) -> GeoResponse

  /** The database: the outcome of the n-th coordinate write of a pass. */
  type Store = (nat, int, real, real) -> WriteOutcome

  /** The coordinates a response resolves to: those of the first match, when there is a
      match and both of its coordinates are finite. */
  function Resolved(response: GeoResponse): (c: Option<(real, real)>)
    ensures c.Some? <==> response.Candidates? && |response.hits| > 0 && response.hits[0].lat.Some? && response.hits[0].lon.Some?
    ensures c.Some? ==> c.value == (response.hits[0].lat.value, response.hits[0].lon.value)
  {
    match response
    case Candidates(hits) =>
      if |hits| > 0 && hits[0].lat.Some? && hits[0].lon.Some? then Some((hits[0].lat.value, hits[0].lon.value))
      else None
    case _ => None
  }

  /** `newEntries.map(x => x.id === id ? { ...x, lat, lon } : x)`: the entries with that id
      get the coordinates, nothing else changes, and length and order stay. */
  function SetCoords(entries: seq<Entry>, id: int, lat: real, lon: real): (r: seq<Entry>)
    ensures |r| == |entries|
    ensures forall i | 0 <= i < |entries| && entries[i].id != id :: r[i] == entries[i]
    ensures forall i | 0 <= i < |entries| && entries[i].id == id ::
      r[i] == entries[i].(lat := Some(lat), lon := Some(lon))
  {
    seq(|entries|, i requires 0 <= i < |entries| =>
      if entries[i].id == id then entries[i].(lat := Some(lat), lon := Some(lon)) else entries[i])
  }

  /** The state a pass carries from one entry to the next: the working copy of the list,
      the keys sent to the geocoder and the writes issued, in order. */
  datatype Progress = Progress(entries: seq<Entry>, lookups: seq<string>, writes: seq<Write>)

  /** The entries the pass works on: those without finite coordinates, in list order. */
  function Missing(entries: seq<Entry>): seq<Entry> {
    Sequences.Filter(entries, NeedsCoords)
  }

  /** One iteration of the loop over the missing entries. */
  function Step(p: Progress, e: Entry, geocode: Geocoder, store: Store): Progress {
    if HasCoords(e) then p else Visit(p, e, BuildKey(e), geocode, store)
  }

  /** The iteration for an entry without coordinates whose key is `key`. */
  function Visit(p: Progress, e: Entry, key: string, geocode: Geocoder, store: Store): (q: Progress)
    ensures q.lookups == p.lookups + (if key != "" then [key] else [])
  {
    if key == "" then p
    else
      match Resolved(geocode(|p.lookups|, key))
      case None => p.(lookups := p.lookups + [key])
      case Some((lat, lon)) =>
        Progress(SetCoords(p.entries, e.id, lat, lon), p.lookups + [key],
                 p.writes + [Write(e.id, lat, lon, store(|p.writes|, e.id, lat, lon))])
  }

  /** The loop over `todo`, in order, from progress `p`. */
  function Run(p: Progress, todo: seq<Entry>, geocode: Geocoder, store: Store): Progress
    decreases |todo|
  {
    if todo == [] then p else Run(Step(p, todo[0], geocode, store), todo[1..], geocode, store)
  }

  /** A whole pass over `entries`. */
  function Pass(entries: seq<Entry>, geocode: Geocoder, store: Store): Progress {
    Run(Progress(entries, [], []), Missing(entries), geocode, store)
  }

  /** The keys a pass sends to the geocoder: those of the missing entries, in order, leaving
      out the empty ones. */
  function LookupKeys(todo: seq<Entry>): seq<string> {
    Sequences.Filter(Sequences.Map(todo, BuildKey), NonEmpty)
  }

  /** `after` is `before` with coordinates filled in: same length, and each entry is either
      unchanged or changed only in its coordinates, which are then both finite. */
  predicate Enriched(before: seq<Entry>, after: seq<Entry>) {
    && |after| == |before|
    && forall i | 0 <= i < |before| ::
         after[i] == before[i] || (HasCoords(after[i]) && after[i] == before[i].(lat := after[i].lat, lon := after[i].lon))
  }

  /** The ids the writes are for. */
  function WrittenIds(writes: seq<Write>): set<int> {
    set w | w in writes :: w.id
  }

  lemma EnrichedTrans(a: seq<Entry>, b: seq<Entry>, c: seq<Entry>)
    requires Enriched(a, b) && Enriched(b, c)
    ensures Enriched(a, c)
  {
  }

  lemma LookupKeysCons(todo: seq<Entry>)
    requires todo != []
    ensures LookupKeys(todo) == LookupOf(todo[0]) + LookupKeys(todo[1..])
  {
    var ks := Sequences.Map(todo, BuildKey);
    Sequences.MapTail(todo, BuildKey);
    Sequences.FilterCons(ks, NonEmpty);
  }

  /** The lookup an entry without coordinates causes: its key, unless that is empty. */
  function LookupOf(e: Entry): seq<string> {
    if BuildKey(e) != "" then [BuildKey(e)] else []
  }

  lemma StepLookups(p: Progress, e: Entry, geocode: Geocoder, store: Store)
    requires NeedsCoords(e)
    ensures Step(p, e, geocode, store).lookups == p.lookups + LookupOf(e)
  {
  }

  /** The loop looks up every entry of `todo` that has a key, in order, whatever the
      geocoder answers. */
  lemma {:induction false} RunLookups(p: Progress, todo: seq<Entry>, geocode: Geocoder, store: Store)
    requires forall k | 0 <= k < |todo| :: NeedsCoords(todo[k])
    ensures Run(p, todo, geocode, store).lookups == p.lookups + LookupKeys(todo)
    decreases |todo|
  {
    if todo != [] {
      var q := Step(p, todo[0], geocode, store);
      var head := LookupOf(todo[0]);
      StepLookups(p, todo[0], geocode, store);
      RunLookups(q, todo[1..], geocode, store);
      LookupKeysCons(todo);
      assert Run(p, todo, geocode, store) == Run(q, todo[1..], geocode, store);
      Sequences.AppendAssoc(p.lookups, head, LookupKeys(todo[1..]));
    }
  }

  /** The loop only fills in coordinates. */
  lemma {:induction false} RunEnriches(p: Progress, todo: seq<Entry>, geocode: Geocoder, store: Store)
    ensures Enriched(p.entries, Run(p, todo, geocode, store).entries)
    decreases |todo|
  {
    if todo != [] {
      var q := Step(p, todo[0], geocode, store);
      assert Enriched(p.entries, q.entries);
      RunEnriches(q, todo[1..], geocode, store);
      EnrichedTrans(p.entries, q.entries, Run(p, todo, geocode, store).entries);
    }
  }

  lemma VisitTargetsId(p: Progress, e: Entry, key: string, geocode: Geocoder, store: Store)
    ensures var q := Visit(p, e, key, geocode, store);
      && |q.entries| == |p.entries|
      && p.writes <= q.writes
      && forall i | 0 <= i < |p.entries| && p.entries[i].id !in WrittenIds(q.writes) :: q.entries[i] == p.entries[i]
  {
    if key != "" {
      match Resolved(geocode(|p.lookups|, key))
      case None =>
      case Some((lat, lon)) =>
        var w := Write(e.id, lat, lon, store(|p.writes|, e.id, lat, lon));
        assert Visit(p, e, key, geocode, store).writes == p.writes + [w];
        assert w in p.writes + [w];
    }
  }

  lemma StepTargetsId(p: Progress, e: Entry, geocode: Geocoder, store: Store)
    ensures var q := Step(p, e, geocode, store);
      && |q.entries| == |p.entries|
      && p.writes <= q.writes
      && forall i | 0 <= i < |p.entries| && p.entries[i].id !in WrittenIds(q.writes) :: q.entries[i] == p.entries[i]
  {
    if !HasCoords(e) {
      VisitTargetsId(p, e, BuildKey(e), geocode, store);
    }
  }

  /** The loop only appends writes, and an entry whose id no write is for stays as it was. */
  lemma {:induction false} RunTargetsIds(p: Progress, todo: seq<Entry>, geocode: Geocoder, store: Store)
    ensures var r := Run(p, todo, geocode, store);
      && |r.entries| == |p.entries|
      && p.writes <= r.writes
      && forall i | 0 <= i < |p.entries| && p.entries[i].id !in WrittenIds(r.writes) :: r.entries[i] == p.entries[i]
    decreases |todo|
  {
    if todo != [] {
      var q := Step(p, todo[0], geocode, store);
      RunTargetsIds(q, todo[1..], geocode, store);
      var r := Run(p, todo, geocode, store);
      assert r == Run(q, todo[1..], geocode, store);
      StepTargetsId(p, todo[0], geocode, store);
      assert WrittenIds(q.writes) <= WrittenIds(r.writes);
    }
  }

  /** The outcome of the database writes has no effect on the list or on the lookups. */
  lemma {:induction false} RunIgnoresStore(p1: Progress, p2: Progress, todo: seq<Entry>, geocode: Geocoder, s1: Store, s2: Store)
    requires p1.entries == p2.entries && p1.lookups == p2.lookups
    ensures Run(p1, todo, geocode, s1).entries == Run(p2, todo, geocode, s2).entries
    ensures Run(p1, todo, geocode, s1).lookups == Run(p2, todo, geocode, s2).lookups
    decreases |todo|
  {
    if todo != [] {
      RunIgnoresStore(Step(p1, todo[0], geocode, s1), Step(p2, todo[0], geocode, s2), todo[1..], geocode, s1, s2);
    }
  }

  /** A pass sends exactly the non-empty keys of the entries without coordinates to the
      geocoder, in list order: an entry with an empty key is never sent, and a failed
      lookup does not stop the entries after it. */
  lemma PassLookups(entries: seq<Entry>, geocode: Geocoder, store: Store)
    ensures Pass(entries, geocode, store).lookups == LookupKeys(Missing(entries))
    ensures forall k | k in Pass(entries, geocode, store).lookups :: k != ""
  {
    var todo := Missing(entries);
    forall k | 0 <= k < |todo| ensures NeedsCoords(todo[k]) {
      assert todo[k] in todo;
    }
    RunLookups(Progress(entries, [], []), todo, geocode, store);
  }

  /** With no entry lacking coordinates a pass looks nothing up, writes nothing and
      publishes the list as it came. */
  lemma PassNothingMissing(entries: seq<Entry>, geocode: Geocoder, store: Store)
    requires Missing(entries) == []
    ensures Pass(entries, geocode, store) == Progress(entries, [], [])
  {
  }

  /** A pass keeps the length, order and ids of the list, changes an entry only by giving it
      finite coordinates, leaves every entry that had coordinates with coordinates, and
      leaves alone every entry whose id it wrote no coordinates for. */
  lemma PassOnlyFillsCoords(entries: seq<Entry>, geocode: Geocoder, store: Store)
    ensures var r := Pass(entries, geocode, store);
      && Enriched(entries, r.entries)
      && (forall i | 0 <= i < |entries| :: r.entries[i].id == entries[i].id)
      && (forall i | 0 <= i < |entries| && HasCoords(entries[i]) :: HasCoords(r.entries[i]))
      && (forall i | 0 <= i < |entries| && entries[i].id !in WrittenIds(r.writes) :: r.entries[i] == entries[i])
  {
    RunEnriches(Progress(entries, [], []), Missing(entries), geocode, store);
    RunTargetsIds(Progress(entries, [], []), Missing(entries), geocode, store);
  }

  /** A failed or thrown database write does not undo the in-memory update: the list a pass
      produces does not depend on the database's answers. */
  lemma PassIgnoresStore(entries: seq<Entry>, geocode: Geocoder, s1: Store, s2: Store)
    ensures Pass(entries, geocode, s1).entries == Pass(entries, geocode, s2).entries
    ensures Pass(entries, geocode, s1).lookups == Pass(entries, geocode, s2).lookups
  {
    RunIgnoresStore(Progress(entries, [], []), Progress(entries, [], []), Missing(entries), geocode, s1, s2);
  }

  // ---------------------------------------------------------------------------
  // What a pass writes and what it sets
  // ---------------------------------------------------------------------------

  /** The coordinates the lookup of `e` resolves to when it is the n-th lookup of the pass:
      none for an entry without a key. */
  function AnswerFor(e: Entry, n: nat, geocode: Geocoder): Option<(real, real)> {
    if BuildKey(e) == "" then None else Resolved(geocode(n, BuildKey(e)))
  }

  /** The answer for `todo[j]`: its lookup is numbered by the keys looked up before it. */
  function AnswerAt(todo: seq<Entry>, j: nat, geocode: Geocoder): Option<(real, real)>
    requires j < |todo|
  {
    AnswerFor(todo[j], |LookupKeys(todo[..j])|, geocode)
  }

  /** The write `(id, lat, lon)` an answer calls for, if any. */
  function HitOf(e: Entry, answer: Option<(real, real)>): seq<(int, real, real)> {
    match answer
    case None => []
    case Some((lat, lon)) => [(e.id, lat, lon)]
  }

  /** The writes the first `m` entries of `todo` call for: one per entry whose lookup
      resolves, with its id and the resolved coordinates, in list order. */
  function Hits(todo: seq<Entry>, m: nat, geocode: Geocoder): seq<(int, real, real)>
    requires m <= |todo|
  {
    if m == 0 then [] else Hits(todo, m - 1, geocode) + HitOf(todo[m - 1], AnswerAt(todo, m - 1, geocode))
  }

  /** The id and coordinates of each write, in order. */
  function Targets(writes: seq<Write>): seq<(int, real, real)> {
    seq(|writes|, k requires 0 <= k < |writes| => (writes[k].id, writes[k].lat, writes[k].lon))
  }

  /** Each write carries the database's answer to it: the k-th write the k-th answer. */
  predicate Answered(writes: seq<Write>, store: Store) {
    forall k | 0 <= k < |writes| :: writes[k].outcome == store(k, writes[k].id, writes[k].lat, writes[k].lon)
  }

  /** Running over one more entry is one more step. */
  lemma {:induction false} RunSnoc(p: Progress, todo: seq<Entry>, e: Entry, geocode: Geocoder, store: Store)
    ensures Run(p, todo + [e], geocode, store) == Step(Run(p, todo, geocode, store), e, geocode, store)
    decreases |todo|
  {
    if todo == [] {
      assert [e][1..] == [];
    } else {
      assert (todo + [e])[1..] == todo[1..] + [e];
      RunSnoc(Step(p, todo[0], geocode, store), todo[1..], e, geocode, store);
    }
  }

  /** A visit writes what the answer to its lookup calls for, and records the database's
      answer to that write. */
  lemma VisitWrites(p: Progress, e: Entry, key: string, geocode: Geocoder, store: Store)
    requires Answered(p.writes, store)
    ensures var q := Visit(p, e, key, geocode, store);
      && Targets(q.writes) == Targets(p.writes) + HitOf(e, if key == "" then None else Resolved(geocode(|p.lookups|, key)))
      && Answered(q.writes, store)
  {
    if key != "" {
      match Resolved(geocode(|p.lookups|, key))
      case None =>
      case Some((lat, lon)) =>
        var w := Write(e.id, lat, lon, store(|p.writes|, e.id, lat, lon));
        var q := Visit(p, e, key, geocode, store);
        assert q.writes == p.writes + [w];
        assert Targets(q.writes) == Targets(p.writes) + [(e.id, lat, lon)];
    }
  }

  lemma StepWrites(p: Progress, e: Entry, geocode: Geocoder, store: Store)
    requires NeedsCoords(e) && Answered(p.writes, store)
    ensures var q := Step(p, e, geocode, store);
      && Targets(q.writes) == Targets(p.writes) + HitOf(e, AnswerFor(e, |p.lookups|, geocode))
      && Answered(q.writes, store)
  {
    VisitWrites(p, e, BuildKey(e), geocode, store);
  }

  /** One more entry adds the write its answer calls for, its lookup numbered by the keys
      of the entries before it. */
  lemma RunWritesSnoc(entries: seq<Entry>, done: seq<Entry>, e: Entry, geocode: Geocoder, store: Store)
    requires forall k | 0 <= k < |done| :: NeedsCoords(done[k])
    requires NeedsCoords(e)
    requires Answered(Run(Progress(entries, [], []), done, geocode, store).writes, store)
    ensures var q := Run(Progress(entries, [], []), done, geocode, store);
      var r := Run(Progress(entries, [], []), done + [e], geocode, store);
      && Targets(r.writes) == Targets(q.writes) + HitOf(e, AnswerFor(e, |LookupKeys(done)|, geocode))
      && Answered(r.writes, store)
  {
    var p0 := Progress(entries, [], []);
    var q := Run(p0, done, geocode, store);
    RunSnoc(p0, done, e, geocode, store);
    RunLookups(p0, done, geocode, store);
    assert q.lookups == LookupKeys(done);
    StepWrites(q, e, geocode, store);
  }

  /** The writes of a loop over the first `m` entries are those the entries call for. */
  lemma {:induction false} RunPrefixWrites(entries: seq<Entry>, todo: seq<Entry>, m: nat, geocode: Geocoder, store: Store)
    requires m <= |todo|
    requires forall k | 0 <= k < |todo| :: NeedsCoords(todo[k])
    ensures var r := Run(Progress(entries, [], []), todo[..m], geocode, store);
      Targets(r.writes) == Hits(todo, m, geocode) && Answered(r.writes, store)
    decreases m
  {
    if m == 0 {
      assert todo[..0] == [];
    } else {
      var before := todo[..m - 1];
      RunPrefixWrites(entries, todo, m - 1, geocode, store);
      Sequences.TakeSnoc(todo, m);
      assert forall k | 0 <= k < |before| :: NeedsCoords(before[k]) by {
        forall k | 0 <= k < |before| ensures NeedsCoords(before[k]) {
          assert before[k] == todo[k];
        }
      }
      RunWritesSnoc(entries, before, todo[m - 1], geocode, store);
    }
  }

  /** A pass issues exactly one coordinate write per entry without coordinates whose lookup
      resolves, in list order, with that entry's id and the resolved coordinates, and each
      write gets the database's answer to it. */
  lemma PassWrites(entries: seq<Entry>, geocode: Geocoder, store: Store)
    ensures Targets(Pass(entries, geocode, store).writes) == Hits(Missing(entries), |Missing(entries)|, geocode)
    ensures Answered(Pass(entries, geocode, store).writes, store)
  {
    var todo := Missing(entries);
    forall k | 0 <= k < |todo| ensures NeedsCoords(todo[k]) {
      assert todo[k] in todo;
    }
    RunPrefixWrites(entries, todo, |todo|, geocode, store);
    assert todo[..|todo|] == todo;
  }

  /** The last write in `writes` for `id`, if any. */
  function LastWrite(writes: seq<Write>, id: int): (w: Option<Write>)
    ensures w.Some? <==> id in WrittenIds(writes)
    ensures w.Some? ==> w.value in writes && w.value.id == id
    ensures w.Some? ==> exists k | 0 <= k < |writes| :: writes[k] == w.value && forall j | k < j < |writes| :: writes[j].id != id
    decreases |writes|
  {
    if writes == [] then None
    else
      var init := writes[..|writes| - 1];
      assert writes == init + [writes[|writes| - 1]];
      assert WrittenIds(writes) == WrittenIds(init) + {writes[|writes| - 1].id};
      if writes[|writes| - 1].id == id then Some(writes[|writes| - 1])
      else
        var w := LastWrite(init, id);
        assert w.Some? ==> exists k | 0 <= k < |writes| :: writes[k] == w.value && forall j | k < j < |writes| :: writes[j].id != id by {
          if w.Some? {
            var k :| 0 <= k < |init| && init[k] == w.value && forall j | k < j < |init| :: init[j].id != id;
            assert writes[k] == w.value && forall j | k < j < |writes| :: writes[j].id != id;
          }
        }
        w
  }

  /** `e` with the coordinates of the write `w`, if there is one. */
  function Located(e: Entry, w: Option<Write>): Entry {
    match w
    case None => e
    case Some(w) => e.(lat := Some(w.lat), lon := Some(w.lon))
  }

  /** Every entry of the working list is the entry of `base` at its place with the
      coordinates of the last write for its id. */
  predicate Tracks(base: seq<Entry>, p: Progress) {
    && |p.entries| == |base|
    && forall i | 0 <= i < |base| :: p.entries[i] == Located(base[i], LastWrite(p.writes, base[i].id))
  }

  /** Appending a write makes it the last one for its own id and leaves the others' alone. */
  lemma LastWriteSnoc(writes: seq<Write>, w: Write, id: int)
    ensures LastWrite(writes + [w], id) == if w.id == id then Some(w) else LastWrite(writes, id)
  {
    assert (writes + [w])[..|writes|] == writes;
  }

  /** Merging the coordinates of a new write keeps the working list in step with the writes. */
  lemma TracksSetCoords(base: seq<Entry>, entries: seq<Entry>, writes: seq<Write>, w: Write)
    requires Tracks(base, Progress(entries, [], writes))
    ensures Tracks(base, Progress(SetCoords(entries, w.id, w.lat, w.lon), [], writes + [w]))
  {
    forall i | 0 <= i < |base|
      ensures SetCoords(entries, w.id, w.lat, w.lon)[i] == Located(base[i], LastWrite(writes + [w], base[i].id))
    {
      assert entries[i].id == base[i].id;
      LastWriteSnoc(writes, w, base[i].id);
    }
  }

  lemma VisitTracks(base: seq<Entry>, p: Progress, e: Entry, key: string, geocode: Geocoder, store: Store)
    requires Tracks(base, p)
    ensures Tracks(base, Visit(p, e, key, geocode, store))
  {
    if key != "" {
      match Resolved(geocode(|p.lookups|, key))
      case None =>
      case Some((lat, lon)) =>
        var w := Write(e.id, lat, lon, store(|p.writes|, e.id, lat, lon));
        TracksSetCoords(base, p.entries, p.writes, w);
    }
  }

  lemma StepTracks(base: seq<Entry>, p: Progress, e: Entry, geocode: Geocoder, store: Store)
    requires Tracks(base, p)
    ensures Tracks(base, Step(p, e, geocode, store))
  {
    if !HasCoords(e) {
      VisitTracks(base, p, e, BuildKey(e), geocode, store);
    }
  }

  lemma {:induction false} RunTracks(base: seq<Entry>, p: Progress, todo: seq<Entry>, geocode: Geocoder, store: Store)
    requires Tracks(base, p)
    ensures Tracks(base, Run(p, todo, geocode, store))
    decreases |todo|
  {
    if todo != [] {
      StepTracks(base, p, todo[0], geocode, store);
      RunTracks(base, Step(p, todo[0], geocode, store), todo[1..], geocode, store);
    }
  }

  /** After a pass every entry carries the coordinates of the last write issued for its id,
      and an entry no write is for is as it was. */
  lemma PassSetsWrittenCoords(entries: seq<Entry>, geocode: Geocoder, store: Store)
    ensures var r := Pass(entries, geocode, store);
      && |r.entries| == |entries|
      && forall i | 0 <= i < |entries| :: r.entries[i] == Located(entries[i], LastWrite(r.writes, entries[i].id))
  {
    RunTracks(entries, Progress(entries, [], []), Missing(entries), geocode, store);
  }

  // ---------------------------------------------------------------------------
  // Display filters
  // ---------------------------------------------------------------------------

  /** The search term: the search box lower-cased, then trimmed. */
  function SearchTerm(search: string): (term: string)
    ensures Trimmed(term) && NoUpper(term)
    ensures term == "" <==> Blank(search)
  {
    var lowered := Lower(search);
    assert Blank(lowered) <==> Blank(search) by {
      LowerKeepsShape(search);
    }
    Trim(lowered)
  }

  /** The text the map's search looks in: title, description, community, city, country,
      zipcode and type, the present non-empty ones joined by a space, lower-cased. */
  function Haystack(e: Entry): string {
    SearchText([Some(e.title), e.description, e.community, e.city, e.country, e.zipcode, e.kind])
  }

  /** Whether an entry passes the type filter (when one is set) and the search (when the
      term is not empty). */
  predicate Matches(e: Entry, filter: string, term: string) {
    && (filter == "" || e.kind == Some(filter))
    && (term == "" || Contains(Haystack(e), term))
  }

  /** The entries of the working list that pass the type filter and the search, in order. */
  function Filtered(withCoords: seq<Entry>, filter: string, search: string): (r: seq<Entry>)
    ensures Sequences.SubsequenceOf(r, withCoords)
    ensures forall e | e in r :: filter == "" || e.kind == Some(filter)
    ensures forall e | e in withCoords :: e in r <==> Matches(e, filter, SearchTerm(search))
    ensures filter == "" && Blank(search) ==> r == withCoords
  {
    var term := SearchTerm(search);
    var matches := e => Matches(e, filter, term);
    assert filter == "" && term == "" ==> Sequences.Filter(withCoords, matches) == withCoords by {
      if filter == "" && term == "" {
        Sequences.FilterKeepsAll(withCoords, matches);
      }
    }
    Sequences.Filter(withCoords, matches)
  }

  /** The entries shown as pins: the filtered ones with finite coordinates. */
  function Markers(filtered: seq<Entry>): (r: seq<Entry>)
    ensures Sequences.SubsequenceOf(r, filtered)
    ensures forall e | e in filtered :: e in r <==> HasCoords(e)
  {
    Sequences.Filter(filtered, HasCoords)
  }

  /** An entry gets a pin when it matches the filters and has coordinates. */
  predicate Pinned(e: Entry, filter: string, term: string) {
    Matches(e, filter, term) && HasCoords(e)
  }

  /** Filtering and then keeping the located entries is one filter over the working list. */
  lemma MarkersOfFiltered(withCoords: seq<Entry>, filter: string, search: string)
    ensures Markers(Filtered(withCoords, filter, search))
         == Sequences.Filter(withCoords, e => Pinned(e, filter, SearchTerm(search)))
  {
    var term := SearchTerm(search);
    Sequences.FilterFilter(withCoords, e => Matches(e, filter, term), HasCoords, e => Pinned(e, filter, term));
  }

  /** A pass never takes a pin away: whatever the geocoder and the database answer, the
      list it produces has at least as many pins, under any filter and search, as the list
      it started from. */
  lemma PassKeepsPins(entries: seq<Entry>, geocode: Geocoder, store: Store, filter: string, search: string)
    ensures |Markers(Filtered(entries, filter, search))|
         <= |Markers(Filtered(Pass(entries, geocode, store).entries, filter, search))|
  {
    var after := Pass(entries, geocode, store).entries;
    var term := SearchTerm(search);
    PassOnlyFillsCoords(entries, geocode, store);
    forall i | 0 <= i < |entries| && Pinned(entries[i], filter, term)
      ensures Pinned(after[i], filter, term)
    {
      assert Haystack(after[i]) == Haystack(entries[i]);
    }
    Sequences.FilterCountMonotone(entries, after, e => Pinned(e, filter, term));
    MarkersOfFiltered(entries, filter, search);
    MarkersOfFiltered(after, filter, search);
  }

  /** The popup text: the description, cut to its first 100 characters followed by an
      ellipsis when it is longer. */
  function Preview(description: Option<string>): (r: string)
    ensures |r| <= 101
    ensures |Text(description)| <= 100 ==> r == Text(description)
    ensures |Text(description)| > 100 ==> r == Text(description)[..100] + "\U{2026}"
  {
    var text := Text(description);
    if |text| > 100 then text[..100] + "\U{2026}" else text
  }

  /** Cutting a preview again changes nothing. */
  lemma PreviewIdempotent(description: Option<string>)
    ensures Preview(Some(Preview(description))) == Preview(description)
  {
    var r := Preview(description);
    if |Text(description)| > 100 {
      assert r[..100] == Text(description)[..100];
    }
  }

  // ---------------------------------------------------------------------------
  // The component's state
  // ---------------------------------------------------------------------------

  /** The map component: the working list it draws from, the in-progress flag shared by
      the enrichment pass (`workingRef`) and its rendered mirror (`isGeocoding`), and the
      time of the last retry and the last-missing-key ref. */
  class MapView {
    var withCoords: seq<Entry>
    var working: bool
    var isGeocoding: bool
    var lastRetry: int
    var lastMissingKey: string

    /** The ref and the state flag are set and cleared together. */
    ghost predicate Valid()
      reads this
    {
      working == isGeocoding
    }

    /** The component as first rendered: an empty working list, no pass running. */
    constructor()
      ensures Valid()
      ensures withCoords == [] && !working && !isGeocoding && lastRetry == 0 && lastMissingKey == ""
    {
      withCoords := [];
      working := false;
      isGeocoding := false;
      lastRetry := 0;
      lastMissingKey := "";
    }

    /** The mirroring effect: the working list becomes the `entries` prop. */
    method MirrorEntries(entries: seq<Entry>)
      modifies this
      ensures withCoords == entries
      ensures working == old(working) && isGeocoding == old(isGeocoding)
      ensures lastRetry == old(lastRetry) && lastMissingKey == old(lastMissingKey)
    {
      withCoords := entries;
    }

    /** The enrichment effect, run for the `entries` prop. It does nothing while a pass is
        running; otherwise it runs a whole pass and publishes the list it produced. It
        returns whether it ran, the keys it looked up and the writes it issued. */
    method FetchCoords(entries: seq<Entry>, geocode: Geocoder, store: Store)
      returns (ran: bool, lookups: seq<string>, writes: seq<Write>)
      requires Valid()
      modifies this
      ensures Valid() && ran == !old(working)
      ensures ran ==> !working && !isGeocoding
      ensures ran ==> Progress(withCoords, lookups, writes) == Pass(entries, geocode, store)
      ensures ran && Missing(entries) == [] ==> lastMissingKey == ""
      ensures !ran || Missing(entries) != [] ==> lastMissingKey == old(lastMissingKey)
      ensures !ran ==> withCoords == old(withCoords) && lookups == [] && writes == []
      ensures working == old(working) || ran
      ensures lastRetry == old(lastRetry)
    {
      lookups, writes := [], [];
      if working {
        return false, lookups, writes;
      }
      ran := true;
      working := true;
      isGeocoding := true;
      var missing := Sequences.Filter(entries, NeedsCoords);
      if |missing| == 0 {
        lastMissingKey := "";
        withCoords := entries;
      } else {
        var newEntries := entries;
        for i := 0 to |missing|
          invariant Run(Progress(newEntries, lookups, writes), missing[i..], geocode, store) == Pass(entries, geocode, store)
        {
          var e := missing[i];
          ghost var before := Progress(newEntries, lookups, writes);
          assert missing[i..][0] == e && missing[i..][1..] == missing[i + 1..];
          if HasCoords(e) {
            continue;
          }
          var key := BuildKey(e);
          if key == "" {
            continue;
          }
          var response := geocode(|lookups|, key);
          lookups := lookups + [key];
          if response.Candidates? && |response.hits| > 0 {
            var lat, lon := response.hits[0].lat, response.hits[0].lon;
            if lat.Some? && lon.Some? {
              newEntries := SetCoords(newEntries, e.id, lat.value, lon.value);
              var outcome := store(|writes|, e.id, lat.value, lon.value);
              writes := writes + [Write(e.id, lat.value, lon.value, outcome)];
            }
          }
          assert Progress(newEntries, lookups, writes) == Step(before, e, geocode, store);
        }
        withCoords := newEntries;
      }
      working := false;
      isGeocoding := false;
    }

    /** Whether any filtered entry still lacks coordinates. */
    predicate NeedsRetry(filter: string, search: string)
      reads this
    {
      exists e | e in Filtered(withCoords, filter, search) :: NeedsCoords(e)
    }

    /** The retry effect, run when the filtered list changes at time `now` (milliseconds):
        when a filtered entry lacks coordinates, no pass is running and at least 3000 ms
        have gone by since the last retry, it records `now` and re-publishes the working
        list as a copy. The copy has the same contents, and the enrichment effect does not
        depend on the working list, so the only state that changes is the retry time. */
    method RetryEffect(filter: string, search: string, now: int) returns (fired: bool)
      modifies this
      ensures fired <==> old(NeedsRetry(filter, search)) && !old(working) && now - old(lastRetry) >= 3000
      ensures lastRetry == if fired then now else old(lastRetry)
      ensures withCoords == old(withCoords) && working == old(working) && isGeocoding == old(isGeocoding)
      ensures lastMissingKey == old(lastMissingKey)
    {
      var need := NeedsRetry(filter, search);
      if !need || working {
        return false;
      }
      if now - lastRetry < 3000 {
        return false;
      }
      lastRetry := now;
      fired := true;
    }
  }

  /** Whether the "Loading pins" overlay shows: while a pass runs, and whenever there are
      entries but no pin to show. */
  predicate PinsLoading(entries: seq<Entry>, withCoords: seq<Entry>, filter: string, search: string, isGeocoding: bool) {
    (|entries| > 0 && Markers(Filtered(withCoords, filter, search)) == []) || isGeocoding
  }

  /** Once one entry of the working list has a pin, the overlay shows exactly while a pass
      runs; with entries and no pin at all, it shows whatever the pass state. */
  lemma PinsLoadingWhen(entries: seq<Entry>, withCoords: seq<Entry>, filter: string, search: string, isGeocoding: bool)
    ensures (exists e | e in withCoords :: Pinned(e, filter, SearchTerm(search)))
        ==> (PinsLoading(entries, withCoords, filter, search, isGeocoding) <==> isGeocoding)
    ensures |entries| > 0 && (forall e | e in withCoords :: !Pinned(e, filter, SearchTerm(search)))
        ==> PinsLoading(entries, withCoords, filter, search, isGeocoding)
  {
    var markers := Markers(Filtered(withCoords, filter, search));
    MarkersOfFiltered(withCoords, filter, search);
    if e :| e in withCoords && Pinned(e, filter, SearchTerm(search)) {
      assert e in markers;
    }
    if forall e | e in withCoords :: !Pinned(e, filter, SearchTerm(search)) {
      Sequences.FilterDropsAll(withCoords, e => Pinned(e, filter, SearchTerm(search)));
    }

  }
}
