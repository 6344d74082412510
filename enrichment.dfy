/**
 * The batch driver of locator.py: make sure the table has `state` and `lga` columns,
 * then walk its rows in order and fill every row that lacks either value with what the
 * resolver returns for that row's coordinates.
 */
module Enrichment {
  import opened Wrappers
  import opened Geocode

  const LatitudeColumn := "latitude"
  const LongitudeColumn := "longitude"
  const StateColumn := "state"
  const LgaColumn := "lga"

  /** The coordinate pair handed to the geocoding endpoint; never inspected. */
  datatype Coordinate = Coordinate(latitude: real, longitude: real)

  /**
   * One row of the uploaded table. `state` and `lga` are nullable cells; while the
   * table lacks one of those columns, the corresponding field carries no meaning.
   */
  datatype Row = Row(latitude: real, longitude: real, state: Option<string>, lga: Option<string>)

  /**
   * The resolver's network side for a fixed API key: what the request for a coordinate
   * produced (a decoded body or a request failure).
   */
  type Network = Coordinate -> WellFormedFetch

  /** The uploaded table, updated in place: its column names and its rows. */
  class Table {
    var columns: set<string>
    const rows: array<Row>

    constructor (columns: set<string>, contents: seq<Row>)
      ensures this.columns == columns && rows[..] == contents && fresh(rows)
    {
      this.columns := columns;
      rows := new Row[|contents|](i requires 0 <= i < |contents| => contents[i]);
    }
  }

  predicate HasCoordinateColumns(columns: set<string>) {
    LatitudeColumn in columns && LongitudeColumn in columns
  }

  function CoordinateOf(r: Row): Coordinate {
    Coordinate(r.latitude, r.longitude)
  }

  /** A row is looked up when its state or its LGA is null. */
  predicate NeedsLookup(r: Row) {
    r.state == None || r.lga == None
  }

  /** A row after the column setup: a column that was missing reads as null. */
  function DefaultRow(r: Row, columns: set<string>): Row {
    r.(state := if StateColumn in columns then r.state else None,
       lga := if LgaColumn in columns then r.lga else None)
  }

  function DefaultAll(s: seq<Row>, columns: set<string>): (d: seq<Row>)
    ensures |d| == |s|
  {
    seq(|s|, i requires 0 <= i < |s| => DefaultRow(s[i], columns))
  }

  /** One visit of the loop: an incomplete row has both cells overwritten by the resolver's pair. */
  function EnrichRow(r: Row, network: Network): Row {
    if NeedsLookup(r) then
      var areas := ResolvedAreas(network(CoordinateOf(r)));
      r.(state := areas.state, lga := areas.lga)
    else
      r
  }

  /** The rows after the loop has visited all of them, in order. */
  function EnrichAll(s: seq<Row>, network: Network): seq<Row> {
    if s == [] then []
    else EnrichAll(s[..|s| - 1], network) + [EnrichRow(s[|s| - 1], network)]
  }

  /** The indices of the rows the resolver is called for, in the order of the calls. */
  function Lookups(s: seq<Row>): seq<nat> {
    if s == [] then []
    else Lookups(s[..|s| - 1]) + if NeedsLookup(s[|s| - 1]) then [|s| - 1] else []
  }

  /** The messages the resolver shows along the way, in order. */
  function Messages(s: seq<Row>, network: Network): seq<Notice> {
    if s == [] then []
    else
      var r := s[|s| - 1];
      var notice := NoticeOf(network(CoordinateOf(r)));
      Messages(s[..|s| - 1], network) + if NeedsLookup(r) && notice != Quiet then [notice] else []
  }

  /** What the driver reports: the calls made and the messages shown, or the missing-column error. */
  datatype Report =
    | Enriched(lookups: seq<nat>, messages: seq<Notice>)
    | MissingCoordinateColumns

  /** `df['state'] = None` and `df['lga'] = None`, each only when the column is absent. */
  method AddMissingColumns(table: Table)
    modifies table, table.rows
    ensures table.columns == old(table.columns) + {StateColumn, LgaColumn}
    ensures table.rows[..] == DefaultAll(old(table.rows[..]), old(table.columns))
  {
    if StateColumn !in table.columns {
      forall i | 0 <= i < table.rows.Length {
        table.rows[i] := table.rows[i].(state := None);
      }
      table.columns := table.columns + {StateColumn};
    }
    if LgaColumn !in table.columns {
      forall i | 0 <= i < table.rows.Length {
        table.rows[i] := table.rows[i].(lga := None);
      }
      table.columns := table.columns + {LgaColumn};
    }
  }

  /**
   * The row loop: a row with both cells present is skipped; any other row is resolved
   * and both of its cells are written back, whatever came back.
   */
  method FillRows(table: Table, network: Network) returns (lookups: seq<nat>, messages: seq<Notice>)
    modifies table.rows
    ensures table.rows[..] == EnrichAll(old(table.rows[..]), network)
    ensures lookups == Lookups(old(table.rows[..]))
    ensures messages == Messages(old(table.rows[..]), network)
  {
    ghost var before := table.rows[..];
    lookups, messages := [], [];
    for i := 0 to table.rows.Length
      invariant table.rows[..i] == EnrichAll(before[..i], network)
      invariant forall k | i <= k < table.rows.Length :: table.rows[k] == before[k]
      invariant lookups == Lookups(before[..i])
      invariant messages == Messages(before[..i], network)
    {
      var row := table.rows[i];
      assert before[..i + 1][..i] == before[..i] && before[i] == row;
      if NeedsLookup(row) {
        var state, lga, notice := GetLocationInfo(network(CoordinateOf(row)));
        table.rows[i] := row.(state := state, lga := lga);
        lookups := lookups + [i];
        if notice != Quiet {
          messages := messages + [notice];
        }
      }
      assert table.rows[..i + 1] == table.rows[..i] + [table.rows[i]];
    }
    assert before[..table.rows.Length] == before;
    assert table.rows[..table.rows.Length] == table.rows[..];
  }

  /**
   * The driver: without both coordinate columns the table is left alone and an error is
   * reported; otherwise the missing columns are added and every row is visited.
   */
  method Enrich(table: Table, network: Network) returns (report: Report)
    modifies table, table.rows
    ensures !HasCoordinateColumns(old(table.columns)) ==>
              && report == MissingCoordinateColumns
              && table.columns == old(table.columns)
              && table.rows[..] == old(table.rows[..])
    ensures HasCoordinateColumns(old(table.columns)) ==>
              var prepared := DefaultAll(old(table.rows[..]), old(table.columns));
              && table.columns == old(table.columns) + {StateColumn, LgaColumn}
              && table.rows[..] == EnrichAll(prepared, network)
              && report == Enriched(Lookups(prepared), Messages(prepared, network))
  {
    if HasCoordinateColumns(table.columns) {
      AddMissingColumns(table);
      var lookups, messages := FillRows(table, network);
      report := Enriched(lookups, messages);
    } else {
      report := MissingCoordinateColumns;
    }
  }

  /** The loop treats every row on its own: row `i` of the result is row `i` enriched. */
  lemma {:induction false} EnrichAllIsRowwise(s: seq<Row>, network: Network)
    ensures |EnrichAll(s, network)| == |s|
    ensures forall i | 0 <= i < |s| :: EnrichAll(s, network)[i] == EnrichRow(s[i], network)
  {
    if s != [] {
      var init := s[..|s| - 1];
      EnrichAllIsRowwise(init, network);
      assert forall i | 0 <= i < |init| :: init[i] == s[i];
    }
  }

  /** A row holding both a state and an LGA comes out unchanged. */
  lemma SkipsCompleteRows(s: seq<Row>, network: Network, i: int)
    requires 0 <= i < |s| && s[i].state.Some? && s[i].lga.Some?
    ensures |EnrichAll(s, network)| == |s| && EnrichAll(s, network)[i] == s[i]
  {
    EnrichAllIsRowwise(s, network);
  }

  /**
   * A row missing either value ends with exactly the resolver's pair for its own
   * coordinates, even when that replaces a value it already had with null.
   */
  lemma OverwritesIncompleteRows(s: seq<Row>, network: Network, i: int)
    requires 0 <= i < |s| && NeedsLookup(s[i])
    ensures |EnrichAll(s, network)| == |s|
    ensures var areas := ResolvedAreas(network(CoordinateOf(s[i])));
      EnrichAll(s, network)[i] == s[i].(state := areas.state, lga := areas.lga)
  {
    EnrichAllIsRowwise(s, network);
  }

  /** The loop keeps the row count, the row order and every coordinate. */
  lemma {:induction false} KeepsRowsAndCoordinates(s: seq<Row>, network: Network)
    ensures |EnrichAll(s, network)| == |s|
    ensures forall i | 0 <= i < |s| ::
              EnrichAll(s, network)[i].latitude == s[i].latitude &&
              EnrichAll(s, network)[i].longitude == s[i].longitude
  {
    EnrichAllIsRowwise(s, network);
  }

  /**
   * The resolver is called once per incomplete row and never for a complete one,
   * in increasing row order.
   */
  lemma {:induction false} LookupsAreIncompleteRows(s: seq<Row>)
    ensures forall i :: i in Lookups(s) <==> 0 <= i < |s| && NeedsLookup(s[i])
    ensures forall a, b | 0 <= a < b < |Lookups(s)| :: Lookups(s)[a] < Lookups(s)[b]
  {
    if s != [] {
      var init := s[..|s| - 1];
      LookupsAreIncompleteRows(init);
      assert forall i | 0 <= i < |init| :: init[i] == s[i];
      var earlier := Lookups(init);
      assert forall a | 0 <= a < |earlier| :: earlier[a] in earlier && earlier[a] < |s| - 1;
    }
  }

  /**
   * Running the loop a second time with the same resolver changes nothing: a row is
   * visited again only if the first run left a null in it, and the same lookup then
   * writes the same pair.
   */
  lemma {:induction false} EnrichIsIdempotent(s: seq<Row>, network: Network)
    ensures EnrichAll(EnrichAll(s, network), network) == EnrichAll(s, network)
  {
    var once := EnrichAll(s, network);
    EnrichAllIsRowwise(s, network);
    EnrichAllIsRowwise(once, network);
  }

  /** On a re-run, exactly the rows for which the resolver returned a null are looked up again. */
  lemma {:induction false} RerunLooksUpOnlyPartialResults(s: seq<Row>, network: Network)
    ensures forall i :: i in Lookups(EnrichAll(s, network)) <==>
              0 <= i < |s| && NeedsLookup(s[i]) &&
              var areas := ResolvedAreas(network(CoordinateOf(s[i])));
              (areas.state == None || areas.lga == None)
  {
    EnrichAllIsRowwise(s, network);
    LookupsAreIncompleteRows(EnrichAll(s, network));
  }

  /** The rows whose lookup shows a message: looked up, and the request failed or the status was not "OK". */
  ghost function FailedLookupRows(s: seq<Row>, network: Network): set<int> {
    set i | 0 <= i < |s| && NeedsLookup(s[i]) && NoticeOf(network(CoordinateOf(s[i]))) != Quiet
  }

  /**
   * One message is shown per looked-up row whose request failed or whose status was not
   * "OK", and no other: the count of messages is the count of those rows, so never more
   * than the calls made, and none of the messages is silent.
   */
  lemma {:induction false} MessagesComeFromFailedLookups(s: seq<Row>, network: Network)
    ensures |Messages(s, network)| == |FailedLookupRows(s, network)|
    ensures |Messages(s, network)| <= |Lookups(s)|
    ensures forall k | 0 <= k < |Messages(s, network)| :: Messages(s, network)[k] != Quiet
  {
    if s != [] {
      var init := s[..|s| - 1];
      var last := |s| - 1;
      MessagesComeFromFailedLookups(init, network);
      assert forall i | 0 <= i < |init| :: init[i] == s[i];
      var earlier := FailedLookupRows(init, network);
      assert last !in earlier;
      if NeedsLookup(s[last]) && NoticeOf(network(CoordinateOf(s[last]))) != Quiet {
        assert FailedLookupRows(s, network) == earlier + {last};
      } else {
        assert FailedLookupRows(s, network) == earlier;
      }
    }
  }

  /** After the setup every row that lacked a column needs a lookup, and present cells are kept. */
  lemma DefaultAllKeepsPresentCells(s: seq<Row>, columns: set<string>, i: int)
    requires 0 <= i < |s|
    ensures StateColumn in columns ==> DefaultAll(s, columns)[i].state == s[i].state
    ensures LgaColumn in columns ==> DefaultAll(s, columns)[i].lga == s[i].lga
    ensures StateColumn !in columns || LgaColumn !in columns ==> NeedsLookup(DefaultAll(s, columns)[i])
    ensures CoordinateOf(DefaultAll(s, columns)[i]) == CoordinateOf(s[i])
  {
  }

  /**
   * An existing state is lost when only the LGA was missing and the request fails:
   * both cells of that row are overwritten with null.
   */
  lemma FailedLookupErasesExistingState(s: seq<Row>, network: Network, i: int)
    requires 0 <= i < |s| && s[i].state.Some? && s[i].lga == None
    requires network(CoordinateOf(s[i])) == RequestFailed
    ensures |EnrichAll(s, network)| == |s|
    ensures EnrichAll(s, network)[i] == s[i].(state := None, lga := None)
  {
    EnrichAllIsRowwise(s, network);
  }
}
