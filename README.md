# culture-map: a verified model of the map enrichment pass and the moderation logic

culture-map is a community map of artists, spaces and artifacts. Visitors submit entries
through a form on the public page. Administrators approve or reject them on a moderation
page. Approved entries appear as pins on a Leaflet map. An entry that has no stored
coordinates is geocoded in the browser from its address, city, zipcode and country.

This project models that logic in Dafny and proves properties about it:

- `map_client.dfy` (module `MapClient`) covers the map component:
  - the geocoding key `buildKey`;
  - the enrichment pass `fetchCoords`, written as a class `MapView` whose method `FetchCoords` runs the source's loop and is proved equal to the function `Pass`;
  - the type/keyword filter and the markers;
  - the 3-second retry throttle;
  - the "Loading pins" predicate;
  - the 100-character popup preview.
- `admin_page.dfy` (module `AdminPage`) covers the moderation page:
  - the search;
  - the status toggles, with their never-empty invariant;
  - the status key;
  - `loadEntries` with its error and loading states;
  - the moderation actions;
  - the "—" fallback in the detail view.

  `string_sort.dfy` (module `StringSort`) models the default `Array.prototype.sort` on strings, which the status key uses.
- `home_page.dfy` (module `HomePage`) covers the public page:
  - the keyword filter;
  - the defaults filled in before entries go to the map;
  - submission: validation, row construction and form reset.
- `entries_route.dfy` (module `EntriesRoute`) covers the moderation list endpoint: `parseStatuses` and the conditional status filter in `GET`.
- `admin_auth.dfy` (module `AdminAuth`) covers the administrator key check `isAuthorized`.
- Shared modules:
  - `entries.dfy` holds the `entries` row;
  - `js_strings.dfy` models the JavaScript string built-ins the code relies on (`trim`, `replace(/\s+/g, " ")`, `toLowerCase`, `join`, `split`, `includes`);
  - `sequences.dfy` models `filter` and `map` on arrays;
  - `options.dfy` holds the option type.

Everything outside the program is a parameter of the model:

- the geocoding service: answers the n-th lookup of a pass for a key;
- the database write of coordinates: answers the n-th write;
- the list and action requests of the moderation page;
- the photo upload and the row insert of the public page;
- the database behind the endpoint;
- the current time;
- the answer to a confirmation dialog.

Coordinates are `Option<real>`: `None` stands for every value that `Number.isFinite` rejects.

`cacheRef` (app/lib/MapClient.tsx:51) is declared but never read or written, so no lookup is deduplicated. `PassLookups` accordingly proves that a pass looks up the non-empty key of every entry without coordinates, repeated keys included.

## Model

| member | source | states |
|---|---|---|
| MapClient.BuildKey | app/lib/MapClient.tsx:63-75 | `buildKey` has no contract of its own. `KeyEmptyIffNoLocation` and `KeyJoinsParts` state what the key is. |
| MapClient.KeyEmptyIffNoLocation | app/lib/MapClient.tsx:63-74 | `buildKey` gives "" exactly when address, city, zipcode and country are all missing, empty or whitespace. Otherwise the key is non-empty, lower-case, has no whitespace at either end and never two whitespace characters in a row. |
| MapClient.KeyJoinsParts | app/lib/MapClient.tsx:64-74 | The key is the non-blank trimmed parts, in the order address, city, zipcode, country, each with its whitespace runs collapsed and lower-cased, joined by single spaces. |
| MapClient.Resolved | app/lib/MapClient.tsx:119-124 | A response yields coordinates exactly when it is OK, has at least one match, and both of the first match's coordinates are finite. The coordinates are that match's. |
| MapClient.SetCoords | app/lib/MapClient.tsx:126-128 | Merging a hit by id sets the coordinates of the entries with that id. Every other entry, the length and the order stay. |
| MapClient.PassLookups | app/lib/MapClient.tsx:88-142 | A pass sends the geocoder exactly the non-empty keys of the entries without coordinates, in list order. An empty key is never sent, and a failed lookup does not stop later entries. |
| MapClient.Visit | app/lib/MapClient.tsx:109-142 | One iteration for an entry without coordinates looks up its key exactly when the key is non-empty. Nothing is added to the lookups when it is empty. |
| MapClient.Step | app/lib/MapClient.tsx:105-110 | One iteration of the loop skips an entry that has coordinates and visits the others. No contract of its own: `PassWrites` and `PassSetsWrittenCoords` state what the iterations add up to. |
| MapClient.Run | app/lib/MapClient.tsx:103-142 | The loop over the missing entries, one `Step` each, in list order. No contract of its own: the `Pass` lemmas state its effect. |
| MapClient.Pass | app/lib/MapClient.tsx:88-155 | A whole pass: the loop run from the given list with no lookups and no writes yet. No contract of its own: `PassLookups`, `PassWrites`, `PassSetsWrittenCoords`, `PassOnlyFillsCoords`, `PassIgnoresStore` and `PassNothingMissing` state what it does. |
| MapClient.PassWrites | app/lib/MapClient.tsx:105-137 | A pass writes exactly once, in list order, for each missing entry whose key is non-empty and whose lookup resolves. That write goes to the entry's id, with the coordinates of the lookup numbered by the keys sent before it. No other write happens. The k-th write receives the database's k-th answer. |
| MapClient.LastWrite | app/lib/MapClient.tsx:124-128 | The last write to an id, found exactly when some write targets that id. It is one of the writes, its id is that id, and no later write targets that id. |
| MapClient.PassSetsWrittenCoords | app/lib/MapClient.tsx:124-128 | After a pass, every entry whose id some write targets has the coordinates of the last such write. Every other entry is unchanged, and the list keeps its length. |
| MapClient.PassNothingMissing | app/lib/MapClient.tsx:88-96 | When no entry lacks coordinates, a pass makes no lookup and no write and publishes the list unchanged. |
| MapClient.PassOnlyFillsCoords | app/lib/MapClient.tsx:103-155 | A pass keeps length, order and ids. It changes an entry only by giving it finite coordinates, so an entry that had coordinates keeps having them. An entry whose id it wrote nothing for stays as it was. |
| MapClient.PassIgnoresStore | app/lib/MapClient.tsx:130-136 | The list and the lookups of a pass do not depend on what the database write answers, so a failed write does not undo the in-memory update. |
| MapClient.MapView.constructor | app/lib/MapClient.tsx:50-55 | The component starts with an empty working list, no pass running, retry time 0 and an empty last-missing key. |
| MapClient.MapView.MirrorEntries | app/lib/MapClient.tsx:57-60 | The working list becomes the `entries` prop. Nothing else changes. |
| MapClient.MapView.FetchCoords | app/lib/MapClient.tsx:78-163 | While a pass is running, the call does nothing. Otherwise it runs a whole pass: the working list, the lookups and the writes are those of `Pass`, and the in-progress ref and state are both false afterwards. With nothing missing, it also clears the last-missing key. |
| MapClient.SearchTerm | app/lib/MapClient.tsx:167 | The search term is trimmed and lower-case. It is empty exactly when the search is blank. |
| MapClient.Filtered | app/lib/MapClient.tsx:166-175 | `filtered` is an order-preserving subsequence of the working list. It keeps an entry exactly when the entry passes the type filter (if one is set) and its joined, lower-cased title/description/community/city/country/zipcode/type contain the term. With no filter and a blank search it is the whole list. |
| MapClient.Markers | app/lib/MapClient.tsx:177-179 | `markers` is the order-preserving subsequence of `filtered` that has finite coordinates. |
| MapClient.MarkersOfFiltered | app/lib/MapClient.tsx:166-179 | Filtering and then keeping located entries equals one filter for "matches and has coordinates" over the working list. |
| MapClient.PassKeepsPins | app/lib/MapClient.tsx:124-179 | Under any filter and search, a pass never lowers the number of pins, whatever the geocoder and database answer. |
| MapClient.MapView.RetryEffect | app/lib/MapClient.tsx:182-190 | The retry fires exactly when some filtered entry lacks coordinates, no pass is running, and at least 3000 ms have passed since the last retry. Firing records `now`. The working list, the flags and the last-missing key do not change, so no pass starts. |
| MapClient.MapView.NeedsRetry | app/lib/MapClient.tsx:184 | Some filtered entry lacks finite coordinates. No contract of its own: `RetryEffect` states when the retry fires. |
| MapClient.PinsLoading | app/lib/MapClient.tsx:193 | The overlay shows when there are entries and no marker, or while a pass runs. No contract of its own: `PinsLoadingWhen` states its cases. |
| MapClient.PinsLoadingWhen | app/lib/MapClient.tsx:193 | If some entry of the working list has a pin, the overlay shows exactly while a pass runs. If there are entries and none has a pin, it always shows. |
| MapClient.Preview | app/lib/MapClient.tsx:233-234 | The preview is the description (missing counts as "") when it has at most 100 characters. Otherwise it is the first 100 characters followed by "…". It is never longer than 101 characters. |
| MapClient.PreviewIdempotent | app/lib/MapClient.tsx:233-234 | Previewing a preview changes nothing. |
| AdminPage.Query | app/admin/page.tsx:136 | The query is lower-case. It is empty exactly when the search is blank. |
| AdminPage.FilteredEntries | app/admin/page.tsx:135-152 | With a blank search, the table lists every entry. Otherwise it lists the order-preserving subsequence whose joined, lower-cased title/type/city/country/zipcode/status contain the query. |
| AdminPage.Toggled | app/admin/page.tsx:154-161 | Toggling removes every occurrence of a selected status and appends an unselected one at the end. It keeps the previous list when removal would leave nothing, so the result is never empty. |
| AdminPage.ToggleTwice | app/admin/page.tsx:156-159 | Toggling an unselected status twice gives back the selection. |
| AdminPage.StatusKey | app/admin/page.tsx:70-73 | The key is the sorted selection joined by ",". No contract of its own: `StatusKeyIgnoresOrder` states what it identifies. |
| AdminPage.StatusKeyIgnoresOrder | app/admin/page.tsx:70-73 | Selections with the same statuses in any order have the same key, so reordering never reloads. |
| StringSort.Sort | app/admin/page.tsx:71 | The sorted copy is in ascending string order and is a permutation of the selection. |
| StringSort.SortPermutationInvariant | app/admin/page.tsx:71 | Sorting gives the same result for any permutation of its input. |
| AdminPage.RequestFor | app/admin/page.tsx:80-83 | The request carries a `status` parameter exactly when the selection is non-empty. |
| AdminPage.FailureMessage | app/admin/page.tsx:86-88 | A failed response's message is the body's `error` when that is a non-empty string, and the fallback otherwise ("Request failed" for the list, "Action failed" for an action). With a non-empty fallback, the message is never empty. |
| AdminPage.LoadResult | app/admin/page.tsx:84-97 | A successful reply leaves its entries (none if missing) and no error. Any failure leaves an empty list and a non-empty error message. |
| AdminPage.Admin.constructor | app/admin/page.tsx:27-34 | The page starts with no token, no entries, no error, an empty search and the selection pending and rejected, which is non-empty. |
| AdminPage.Admin.ToggleStatus | app/admin/page.tsx:154-161 | A click replaces the selection by its toggle and keeps it non-empty. Nothing else changes. |
| AdminPage.Admin.LoadEntries | app/admin/page.tsx:75-98 | Without a session token, no request is sent and nothing changes. Otherwise it sends the request for the current selection, and the list and error become what the reply leaves, with loading false at the end. |
| AdminPage.Admin.Act | app/admin/page.tsx:107-127 | With no token or a declined confirmation, nothing happens. Otherwise it posts the action. Success reloads the list and raises no alert. Failure raises a non-empty alert and leaves the list, the error and the loading flag alone. The in-progress flag is false at the end. |
| AdminPage.DisplayValue | app/admin/page.tsx:172 | A missing, empty or whitespace-only value shows as "—", any other value as itself, so a detail is never shown blank. |
| HomePage.Filtered | app/page.tsx:58-66 | With a blank search, the page lists every entry. Otherwise it lists the order-preserving subsequence whose joined, lower-cased title/description/type/community/city/country/zipcode contain the lower-cased, trimmed search. |
| HomePage.WithDefaults | app/page.tsx:69-74 | A missing description, country or zipcode becomes "". The id and every other field are unchanged. |
| HomePage.MapEntries | app/page.tsx:68-75 | `mapEntries` has the same length and order as the entries, each with its defaults filled in. |
| HomePage.MapEntriesIdempotent | app/page.tsx:68-75 | Filling in the defaults twice is the same as once. |
| HomePage.WithDefaultsKeepsKey | app/page.tsx:68-75 | The defaults change neither whether an entry has coordinates nor its geocoding key, so the map geocodes the defaulted list as it would the loaded one. |
| HomePage.WithDefaultsKeepsMatches | app/page.tsx:68-75 | The defaults change neither the map's search text nor whether an entry passes the map's filters. |
| HomePage.WithDefaultsInvisibleToSearch | app/page.tsx:62-75 | The defaults do not change the page's own search text. |
| HomePage.Refusal | app/page.tsx:77-89 | A form is refused with "Please fill in all required fields" exactly when the title, description, country, city or zipcode is empty, or the type is "space" and the address is blank. It is refused with "Please upload a photo" exactly when the fields are filled and there is no photo. A form is accepted exactly when the fields are filled and a photo is chosen. |
| HomePage.NullIfEmpty | app/page.tsx:110-112 | An empty optional field is stored as null. Any other value is stored as is. |
| HomePage.BuildRow | app/page.tsx:103-118 | The row has no coordinates, status "pending" and the uploaded photo's URL. The form's fields and consent flags are copied, and an empty address, community or link is stored as null. |
| HomePage.AcceptedRowComplete | app/page.tsx:78-118 | An accepted form gives a pending row without coordinates whose required fields are all non-empty. For a space, that row has a present, non-blank address. |
| HomePage.Home.constructor | app/page.tsx:29-46 | The page starts with no entries, not loading, an empty search and the default form. |
| HomePage.Home.Load | app/page.tsx:48-55 | The list becomes the approved entries the query returned, or empty if it returned none. |
| HomePage.Home.HandleSubmit | app/page.tsx:77-132 | A refused form alerts its refusal, with no upload, no insert and no change. A failed upload alerts "Image upload failed" with no insert. Otherwise the built row is inserted. An insert error alerts its message and keeps the form. Success resets the form to its defaults, reloads the list and alerts "Submitted!". Loading is cleared on every path that set it. |
| EntriesRoute.NormalizeSegment | app/api/admin/entries/route.ts:10 | A segment is trimmed and lower-cased. It becomes empty exactly when it was blank. |
| EntriesRoute.ParseStatuses | app/api/admin/entries/route.ts:5-12 | A missing or empty parameter gives exactly pending and rejected. Otherwise the result is an order-preserving subsequence of the normalised comma-separated segments that keeps every non-empty segment and drops only the empty ones: its length is the number of segments minus the number of empty ones. Every status it holds is non-empty, trimmed and lower-case. |
| EntriesRoute.OnlySeparators | app/api/admin/entries/route.ts:8-26 | A parameter made only of commas and whitespace gives no status, and then the query has no status filter. |
| EntriesRoute.RequestRoundTrip | app/api/admin/entries/route.ts:5-12 | The endpoint reads back exactly the selection the moderation page sends, for statuses that are non-empty, trimmed, lower-case and comma-free. An empty selection reads back as the default. |
| EntriesRoute.InitialRoundTrip | app/admin/page.tsx:34 | The moderation page's initial selection, pending and rejected, is read back by the endpoint as sent. |
| EntriesRoute.ClickRoundTrip | app/admin/page.tsx:154-161 | A click on one of the offered statuses (pending, approved, rejected, line 301) keeps a canonical selection canonical, so the endpoint reads back the new selection as sent. With `InitialRoundTrip`, this covers every selection the page can hold. |
| EntriesRoute.JoinCanonical | app/api/admin/entries/route.ts:8-10 | Joining such statuses by commas gives a non-empty parameter whose normalised segments are those statuses. |
| EntriesRoute.QueryFor | app/api/admin/entries/route.ts:23-26 | The query filters by status exactly when the status list is non-empty, and then by that list. |
| EntriesRoute.Get | app/api/admin/entries/route.ts:14-34 | An unauthorised caller gets 401 and no query runs. Otherwise the query for the parsed statuses runs. A database error gives 500 with its message, and rows give 200 with the rows, or an empty list when there are none. |
| AdminAuth.Lookup | app/api/admin/_auth.ts:2-3 | A missing header or variable reads as "". |
| AdminAuth.IsAuthorized | app/api/admin/_auth.ts:1-5 | The result is true exactly when the `x-admin-key` header is present, non-empty and equal to a set `ADMIN_PASSWORD`. It is false when either is missing or empty. |
| AdminAuth.OnlyKeyAndPasswordMatter | app/api/admin/_auth.ts:1-5 | The verdict depends only on the key header and the password variable. |

## Left out

- Rendering is not modelled: JSX, styling, Leaflet's map, markers and popups, the dynamic import, the cards, the entry modal and the input setters have no logic beyond the predicates above.
- Network and database calls are parameters: the geocoding request and its URL encoding, and the Supabase select, update, insert, storage upload, public URL and auth session calls.
- Console logging is left out.
- `parseFloat` is not modelled: a geocoding match arrives with its coordinates already parsed, as optional reals.
- `Date.now()` is left out. The current time is a parameter of the retry, and the upload path built from it is not modelled.
- React scheduling is left out: when effects run, async interleaving, and stale closures. Each modelled method runs to completion. So `FetchCoords` never observes its own in-progress flag set by another call, although the guard branch is modelled.
- The dead code is not modelled, because the source never uses it:
  - the batch upsert of `pendingUpdates` (app/lib/MapClient.tsx:100, 146-153);
  - `cacheRef` (51);
  - `sleep` (39, 112).
- The auth session effect, logout and redirects of the moderation page are left out. Only whether there is a non-empty token matters to the modelled operations.
- `requireAdmin` is not modelled. `app/api/admin/entries/route.ts:2` imports it from `../_auth`, but `app/api/admin/_auth.ts` exports only `isAuthorized` (lines 1-5), so `requireAdmin` has no definition to model. `Get` takes its verdict as a boolean.
- `JsStrings.Lower`: `toLowerCase` is modelled for ASCII letters only. Other characters are unchanged, whereas JavaScript applies full Unicode case mapping.
- `MapClient.Preview`: lengths count Unicode characters, whereas JavaScript counts UTF-16 code units. The preview of text with characters outside the Basic Multilingual Plane can therefore differ.
- `StringSort.LessEq`: strings are compared character by character. JavaScript compares UTF-16 code units, which orders characters outside the Basic Multilingual Plane differently.
- `AdminPage.RequestFor`: the request is the value of its `status` parameter. The percent-encoding of `URLSearchParams` and the URL layout are not modelled.
- `AdminAuth.IsAuthorized`: headers are a map keyed by lower-cased name. The case-insensitive lookup and the joining of repeated headers done by the Fetch `Headers` object are not modelled.
- The JSON parsing of replies is not modelled. A reply is its `ok` flag and its `error` and `entries` members. On a failed response, a body that cannot be read is taken as `{}` (app/admin/page.tsx:87, 118). That is a `Reply` with no `error`, so the fallback message applies. `Threw` stands for a rejected `fetch` and for an unreadable body on a successful list response (line 90).
