/** The public page: its keyword filter over the approved entries, the defaults it fills
    in before handing the entries to the map, and the submission form.

    The database and the photo storage are parameters: `upload` answers the photo upload
    with the photo's public URL or a failure, `insert` answers the row insert with an error
    message or success, and `approved` is what the reload after a successful insert reads. */
module HomePage {
  import opened Options
  import opened JsStrings
  import opened Entries
  import Sequences
  import MapClient

  // ---------------------------------------------------------------------------
  // Search
  // ---------------------------------------------------------------------------

  /** The text the page's search looks in: title, description, type, community, city,
      country and zipcode, the present non-empty ones joined by a space, lower-cased. */
  function Haystack(e: Entry): string {
    SearchText([Some(e.title), e.description, e.kind, e.community, e.city, e.country, e.zipcode])
  }

  /** The cards the page lists: all entries for a blank search, otherwise those whose
      haystack contains the lower-cased, trimmed search, in order. */
  function Filtered(entries: seq<Entry>, search: string): (r: seq<Entry>)
    ensures Blank(search) ==> r == entries
    ensures Sequences.SubsequenceOf(r, entries)
    ensures !Blank(search) ==> forall e | e in entries :: e in r <==> Contains(Haystack(e), MapClient.SearchTerm(search))
  {
    var s := MapClient.SearchTerm(search);
    Sequences.SubsequenceOfSelf(entries);
    if s == "" then entries else Sequences.Filter(entries, e => Contains(Haystack(e), s))
  }

  // ---------------------------------------------------------------------------
  // Entries handed to the map
  // ---------------------------------------------------------------------------

  /** An entry with a missing description, country or zipcode given the empty string. */
  function WithDefaults(e: Entry): (d: Entry)
    ensures d.id == e.id && d.description.Some? && d.country.Some? && d.zipcode.Some?
    ensures Text(d.description) == Text(e.description) && Text(d.country) == Text(e.country) && Text(d.zipcode) == Text(e.zipcode)
    ensures d.(description := e.description, country := e.country, zipcode := e.zipcode) == e
  {
    e.(description := Some(Text(e.description)), country := Some(Text(e.country)), zipcode := Some(Text(e.zipcode)))
  }

  /** `mapEntries`: every entry with its defaults, in the same order. */
  function MapEntries(entries: seq<Entry>): (r: seq<Entry>)
    ensures |r| == |entries|
    ensures forall i | 0 <= i < |entries| :: r[i] == WithDefaults(entries[i])
  {
    Sequences.Map(entries, WithDefaults)
  }

  /** Filling in the defaults twice is filling them in once. */
  lemma MapEntriesIdempotent(entries: seq<Entry>)
    ensures MapEntries(MapEntries(entries)) == MapEntries(entries)
  {
    var once := MapEntries(entries);
    var twice := MapEntries(once);
    forall i | 0 <= i < |entries| ensures twice[i] == once[i] {
      assert twice[i] == WithDefaults(WithDefaults(entries[i]));
    }
  }

  /** The defaults change nothing the map's geocoding looks at: every entry keeps its
      coordinates and its geocoding key, so the map geocodes the defaulted list exactly
      as it would the loaded one. */
  lemma WithDefaultsKeepsKey(e: Entry)
    ensures HasCoords(WithDefaults(e)) == HasCoords(e)
    ensures MapClient.BuildKey(WithDefaults(e)) == MapClient.BuildKey(e)
  {
    var d := WithDefaults(e);
    assert MapClient.KeyParts(d) == MapClient.KeyParts(e) by {
      assert [Trim(Text(d.address)), Trim(Text(d.city)), Trim(Text(d.zipcode)), Trim(Text(d.country))]
          == [Trim(Text(e.address)), Trim(Text(e.city)), Trim(Text(e.zipcode)), Trim(Text(e.country))];
    }
  }

  /** Nor anything the map's filters look at: the text its search looks in and the type
      stay, so it filters and pins the defaulted list exactly as the loaded one. */
  lemma WithDefaultsKeepsMatches(e: Entry)
    ensures MapClient.Haystack(WithDefaults(e)) == MapClient.Haystack(e)
    ensures forall filter, term :: MapClient.Matches(WithDefaults(e), filter, term) == MapClient.Matches(e, filter, term)
  {
    var d := WithDefaults(e);
    assert Sequences.Map([Some(d.title), d.description, d.community, d.city, d.country, d.zipcode, d.kind], Text)
        == Sequences.Map([Some(e.title), e.description, e.community, e.city, e.country, e.zipcode, e.kind], Text);
  }

  /** The same holds for the page's own search. */
  lemma WithDefaultsInvisibleToSearch(e: Entry)
    ensures Haystack(WithDefaults(e)) == Haystack(e)
  {
    var d := WithDefaults(e);
    assert Sequences.Map([Some(d.title), d.description, d.kind, d.community, d.city, d.country, d.zipcode], Text)
        == Sequences.Map([Some(e.title), e.description, e.kind, e.community, e.city, e.country, e.zipcode], Text);
  }

  // ---------------------------------------------------------------------------
  // Submission
  // ---------------------------------------------------------------------------

  /** A chosen photo file. */
  datatype Photo = Photo(name: string)

  /** The submission form's fields. */
  datatype Form = Form(
    kind: string, title: string, description: string, country: string, city: string,
    zipcode: string, address: string, community: string, link: string,
    photo: Option<Photo>, consentStore: bool, consentShare: bool)

  /** The form as the page opens it and as a successful submission leaves it. */
  const EmptyForm: Form := Form("artist", "", "", "", "", "", "", "", "", None, false, false)

  /** The row inserted into the `entries` table. */
  datatype Row = Row(
    kind: string, title: string, description: string, country: string, city: string,
    zipcode: string, address: Option<string>, community: Option<string>, link: Option<string>,
    photoUrl: string, lat: Option<real>, lon: Option<real>,
    consentStore: bool, consentShare: bool, status: string)

  const FillRequired := "Please fill in all required fields"
  const UploadPhoto := "Please upload a photo"
  const UploadFailed := "Image upload failed"
  const Submitted := "Submitted!"

  /** Whether every field the form requires is filled: title, description, country, city
      and zipcode non-empty, and for a space an address that is not only whitespace. */
  predicate FieldsFilled(f: Form) {
    && f.title != "" && f.description != "" && f.country != "" && f.city != "" && f.zipcode != ""
    && (f.kind == "space" ==> !Blank(f.address))
  }

  /** The alert a form is refused with before anything is uploaded, if any: missing fields
      first, then a missing photo. */
  function Refusal(f: Form): (r: Option<string>)
    ensures r.None? <==> FieldsFilled(f) && f.photo.Some?
    ensures r == Some(FillRequired) <==> !FieldsFilled(f)
    ensures r == Some(UploadPhoto) <==> FieldsFilled(f) && f.photo.None?
  {
    var requiresAddress := f.kind == "space";
    if f.title == "" || f.description == "" || f.country == "" || f.city == "" || f.zipcode == ""
       || (requiresAddress && Trim(f.address) == "")
    then Some(FillRequired)
    else if f.photo.None? then Some(UploadPhoto)
    else None
  }

  /** An empty optional field is stored as null. */
  function NullIfEmpty(s: string): (r: Option<string>)
    ensures r.None? <==> s == ""
    ensures r.Some? ==> r.value == s
  {
    if s == "" then None else Some(s)
  }

  /** The row built from a form and the uploaded photo's URL. */
  function BuildRow(f: Form, photoUrl: string): (r: Row)
    ensures r.lat.None? && r.lon.None? && r.status == "pending" && r.photoUrl == photoUrl
    ensures r.kind == f.kind && r.title == f.title && r.description == f.description
    ensures r.country == f.country && r.city == f.city && r.zipcode == f.zipcode
    ensures r.address == NullIfEmpty(f.address) && r.community == NullIfEmpty(f.community) && r.link == NullIfEmpty(f.link)
    ensures r.consentStore == f.consentStore && r.consentShare == f.consentShare
  {
    Row(f.kind, f.title, f.description, f.country, f.city, f.zipcode,
        NullIfEmpty(f.address), NullIfEmpty(f.community), NullIfEmpty(f.link),
        photoUrl, None, None, f.consentStore, f.consentShare, "pending")
  }

  /** A form that is not refused gives a pending row without coordinates whose required
      fields are all filled, and whose address, for a space, is present and not blank. */
  lemma AcceptedRowComplete(f: Form, photoUrl: string)
    requires Refusal(f).None?
    ensures var r := BuildRow(f, photoUrl);
      && r.title != "" && r.description != "" && r.country != "" && r.city != "" && r.zipcode != ""
      && (r.kind == "space" ==> r.address.Some? && !Blank(r.address.value))
      && r.lat.None? && r.lon.None? && r.status == "pending"
  {
    assert FieldsFilled(f);
  }

  // ---------------------------------------------------------------------------
  // The page's state
  // ---------------------------------------------------------------------------

  class Home {
    var entries: seq<Entry>
    var loading: bool
    var search: string
    var form: Form

    /** The page as first rendered. */
    constructor()
      ensures entries == [] && !loading && search == "" && form == EmptyForm
    {
      entries := [];
      loading := false;
      search := "";
      form := EmptyForm;
    }

    /** `load`: the list becomes the approved entries the query returned, or empty when it
        returned nothing. */
    method Load(approved: Option<seq<Entry>>)
      modifies this
      ensures entries == approved.GetOr([])
      ensures loading == old(loading) && search == old(search) && form == old(form)
    {
      entries := approved.GetOr([]);
    }

    /** `handleSubmit`. A refused form alerts the refusal and touches nothing: no upload and
        no insert. Otherwise the photo is uploaded; a failed upload alerts and stops.
        Otherwise the row is inserted; an insert error alerts its message and keeps the
        form, success resets the form, reloads the list and alerts "Submitted!". The loading
        flag is cleared on every path that set it. Returns the alert, whether an upload
        was attempted, and the row inserted, if one was. */
    method HandleSubmit(upload: Photo -> Option<string>, insert: Row -> Option<string>, approved: Option<seq<Entry>>)
      returns (alert: string, uploaded: bool, row: Option<Row>)
      modifies this
      ensures search == old(search)
      ensures if Refusal(old(form)).Some? then loading == old(loading) else !loading
      ensures Refusal(old(form)).Some? ==>
        alert == Refusal(old(form)).value && !uploaded && row.None? && form == old(form) && entries == old(entries)
      ensures Refusal(old(form)).None? ==> uploaded
      ensures Refusal(old(form)).None? && upload(old(form).photo.value).None? ==>
        alert == UploadFailed && row.None? && form == old(form) && entries == old(entries)
      ensures Refusal(old(form)).None? && upload(old(form).photo.value).Some? ==>
        row == Some(BuildRow(old(form), upload(old(form).photo.value).value))
      ensures row.Some? && insert(row.value).Some? ==>
        alert == insert(row.value).value && form == old(form) && entries == old(entries)
      ensures row.Some? && insert(row.value).None? ==>
        alert == Submitted && form == EmptyForm && entries == approved.GetOr([])
    {
      uploaded, row := false, None;
      var refusal := Refusal(form);
      if refusal.Some? {
        return refusal.value, uploaded, row;
      }
      loading := true;
      uploaded := true;
      var url := upload(form.photo.value);
      if url.None? {
        loading := false;
        return UploadFailed, uploaded, row;
      }
      var r := BuildRow(form, url.value);
      row := Some(r);
      var error := insert(r);
      loading := false;
      if error.Some? {
        alert := error.value;
      } else {
        form := EmptyForm;
        Load(approved);
        alert := Submitted;
      }
    }
  }
}
