# Geolocation enrichment, modelled in Dafny

This project models the logic of `locator.py`, a Streamlit script meant to take an
uploaded table of latitude/longitude rows and fill each row's `state` and `lga`
(Local Government Area) from Google's reverse-geocoding API. As written, the script
stops with an error at its column-renaming line before it reaches the enrichment
(see "## Left out"). The driver below is modelled as if that line left the column
names unchanged.

Two pieces of the script carry real logic, and each becomes one module:

- `Geocode` (`geocode.dfy`) models the response handling of `get_location_info`.
  - The outcome of the HTTP exchange is an input datatype `Fetch`. It is either a
    decoded body (`status` plus `results`, each result a list of address
    components with `types` and `long_name`) or a request failure.
  - `ScanComponents` is the loop over the first result's components. It is proved
    equal to `LastWithType`, and `LastWithTypeIsLastMatch` proves that
    `LastWithType` means "the last component carrying the type wins, `None` if none does".
  - `GetLocationInfo` returns the pair and the message that would be shown
    (`Quiet`, `ApiWarning(status)` or `RequestError`).
- `Enrichment` (`enrichment.dfy`) models the driver.
  - The DataFrame is a class `Table`: a set of column names and an array of `Row`
    records whose `state`/`lga` cells are `Option<string>`.
  - `AddMissingColumns` is `df['state'] = None` / `df['lga'] = None`.
  - `FillRows` is the `iterrows` loop. It mutates the array in place and returns
    the row indices it resolved and the messages shown.
  - `Enrich` is the column check plus both steps.
  - The network is a function parameter `Network` (coordinate to `Fetch`), with the
    API key captured inside it. So the lemmas can say exactly which rows the
    resolver is applied to.
  - `FillRows` is proved equal to the specification `EnrichAll`/`Lookups`/`Messages`.
    The lemmas state the skip, overwrite, frame, ordering and idempotence properties.
- `Wrappers` (`wrappers.dfy`) holds `Option`, the model of a nullable cell.

## Model

| member | source | states |
|---|---|---|
| `Geocode.ScanComponents` | locator.py:23-28 | starting from `(None, None)`, the loop leaves `state` = the last component typed `administrative_area_level_1` and `lga` = the last typed `administrative_area_level_2` (as `LastWithType`) |
| `Geocode.GetLocationInfo` | locator.py:17-35 | an "OK" body yields the scanned pair with no message; any other status yields `(None, None)` plus a warning carrying the literal status; a failed request yields `(None, None)` plus an error; nothing propagates to the caller |
| `Geocode.LastWithTypeIsLastMatch` | locator.py:24-28 | the scanned value is `None` iff no component carries the type, and otherwise it is the `long_name` of the last component that does (last match wins) |
| `Geocode.OkResponseFields` | locator.py:22-29 | on an "OK" body the state and the LGA are each found independently: each is `None` iff its type is absent, and otherwise it is the name of its own last match |
| `Geocode.OneComponentSetsBoth` | locator.py:25-28 | the two tests are independent `if`s, so one component carrying both types (with no later match) sets both fields to its name |
| `Geocode.SantaClaraExample` | locator.py:22-29 | a state component followed by a county component gives `("California", "Santa Clara County")` |
| `Enrichment.AddMissingColumns` | locator.py:57-60 | afterwards both `state` and `lga` columns exist; a column that was missing is null in every row, and the cells of a column that existed are kept |
| `Enrichment.FillRows` | locator.py:62-68 | the rows after the loop are `EnrichAll` of the rows before it; the resolver calls happen for exactly `Lookups`, in row order; the messages shown are `Messages` |
| `Enrichment.Enrich` | locator.py:56-83 | without both `latitude` and `longitude` columns, the table is untouched and the missing-column error is reported; otherwise the columns are set up and every row is visited |
| `Enrichment.EnrichAllIsRowwise` | locator.py:62-68 | the loop keeps the row count, and row `i` of the result depends only on row `i` before the loop |
| `Enrichment.SkipsCompleteRows` | locator.py:63 | a row whose `state` and `lga` are both non-null comes out unchanged |
| `Enrichment.OverwritesIncompleteRows` | locator.py:63-68 | a row with either cell null ends with exactly the resolver's pair for its own coordinates, even if that replaces a present value with null |
| `Enrichment.KeepsRowsAndCoordinates` | locator.py:62-68 | row count, row order, and every latitude and longitude are unchanged |
| `Enrichment.LookupsAreIncompleteRows` | locator.py:62-66 | the resolver is called for a row iff that row has a null cell, and the calls follow increasing row order |
| `Enrichment.MessagesComeFromFailedLookups` | locator.py:31-33 | exactly one message is shown per looked-up row whose request failed or whose status was not "OK" (the number of messages equals the number of such rows), so never more messages than calls, and each is a warning or an error |
| `Enrichment.EnrichIsIdempotent` | locator.py:62-68 | running the loop again with the same resolver leaves the table as the first run left it |
| `Enrichment.RerunLooksUpOnlyPartialResults` | locator.py:63-68 | on a re-run, a row is looked up again iff it was looked up before and the resolver returned a null in its pair |
| `Enrichment.DefaultAllKeepsPresentCells` | locator.py:57-60 | setup keeps existing `state`/`lga` cells and the coordinates, and a row that lacked a column always needs a lookup afterwards |
| `Enrichment.FailedLookupErasesExistingState` | locator.py:63-68 | in any table, a row at any position with a state but no LGA whose request fails ends with both cells null |

## Left out

- Streamlit UI (title, inputs, file uploader, dataframe display, download button): UI side effects. Each warning or error message is modelled as a returned `Notice` tag, not as text.
- The API-key gate (locator.py:40-41) and the choice between CSV and Excel reading (locator.py:44-50): UI and file I/O outside the modelled core.
- URL construction, `requests.get`, `raise_for_status` and `response.json()`: network I/O and a foreign library. Their combined outcome is the input `Fetch`. A transport failure, a non-2xx status and an undecodable body all raise `requests.exceptions.RequestException` in the source, so all three are the single case `RequestFailed`.
- Malformed responses: an "OK" body with no results or without the `status`/`results` keys, a result without `address_components`, a component without `types`, or a matching component without `long_name`. The source raises an unhandled `KeyError`/`IndexError` at locator.py:22-28 for each. The model requires a well-formed response: the subset type `WellFormedFetch` excludes an "OK" body with no results, and the `Response`, `Place` and `Component` datatypes always carry every key.
- Column-name normalisation (locator.py:53). As written, `df.columns.str.strip()` returns a pandas `Index`, and `Index` has no `.lower()` method. So the line raises `AttributeError` on every uploaded file, and lines 56-83 never run: not the coordinate-column check, the column setup, the row loop, or the error at line 83. `Enrichment.Enrich`, `AddMissingColumns` and `FillRows` describe lines 56-83 as if line 53 left the column names unchanged. The intended trim-and-lowercase is not modelled, so column names are matched exactly, and no case-insensitive matching is claimed.
- `Network` is a total, deterministic function of the coordinate. The model therefore cannot express a request that fails once and succeeds on a later call with the same coordinates, in the same run or in a re-run. Nor can it express a request that hangs: locator.py:18 sets no timeout. `EnrichIsIdempotent` and `RerunLooksUpOnlyPartialResults` hold only under this determinism.
- Other columns of the table: they are never read or written by the loop, so `Row` carries only the four columns involved.
- `time.sleep(0.1)`: timing only, with no logical effect.
- CSV export: file I/O.
- Latitude and longitude are floats in the source. They are `real` here and are only passed to the network, never inspected.
- `pd.isna` treats NaN as null too. A null cell is `None` here, and NaN is not distinguished.
