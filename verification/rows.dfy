/**
 A CSV row (`CSVRow`, `{ [key: string]: string }`) and the column reads the
 aggregations and views make on it. A column missing from the row is
 `undefined` in JavaScript and `None` here.
 */
module Rows {
  import opened Options
  import JsNumber

  type Row = map<string, string>

  const CampaignColumn := "Campaign"
  const RevenueColumn := "Revenue"
  const EtColumn := "ET"
  const SubIdColumn := "SUBID"
  /** The placeholder traffic source of a row with neither ET nor SUBID. */
  const UnknownSource := "Unknown"

  /** `row[column]`. */
  function Cell(row: Row, column: string): Option<string> {
    if column in row then Some(row[column]) else None
  }

  /** JavaScript truthiness of `row[column]`: present and not the empty string. */
  predicate Truthy(cell: Option<string>) {
    cell.Some? && cell.value != ""
  }

  /** The JavaScript `a || b` on two cells. */
  function Or(a: Option<string>, b: Option<string>): Option<string> {
    if Truthy(a) then a else b
  }

  /** `row.Campaign === name`: an absent column is `undefined`, which equals no string. */
  predicate InCampaign(row: Row, name: string) {
    Cell(row, CampaignColumn) == Some(name)
  }

  /** `InCampaign` as the callback handed to `filter`. */
  function CampaignIs(name: string): Row -> bool {
    row => InCampaign(row, name)
  }

  /** The coerced revenue of one row, `parseFloat(row.Revenue) || 0`. */
  function Revenue(row: Row): (r: real)
    ensures RevenueColumn !in row ==> r == 0.0
    ensures RevenueColumn in row && JsNumber.ParseFloat(row[RevenueColumn]).Some? ==>
      r == JsNumber.ParseFloat(row[RevenueColumn]).value
    ensures r == 0.0 || (RevenueColumn in row && JsNumber.ParseFloat(row[RevenueColumn]) == Some(r))
  {
    JsNumber.Coerce(Cell(row, RevenueColumn))
  }

  /** `row.ET || row.SUBID || 'Unknown'`: the first non-empty of ET and
      SUBID, falling back to the placeholder. */
  function TrafficSource(row: Row): (source: string)
    ensures source != ""
    ensures Truthy(Cell(row, EtColumn)) ==> source == row[EtColumn]
    ensures !Truthy(Cell(row, EtColumn)) && Truthy(Cell(row, SubIdColumn)) ==> source == row[SubIdColumn]
    ensures !Truthy(Cell(row, EtColumn)) && !Truthy(Cell(row, SubIdColumn)) ==> source == UnknownSource
  {
    Or(Or(Cell(row, EtColumn), Cell(row, SubIdColumn)), Some(UnknownSource)).value
  }

  /** `rows.reduce((total, row) => total + Revenue(row), 0)`, folded from the left. */
  function TotalRevenue(rows: seq<Row>): (total: real)
    ensures (forall i :: 0 <= i < |rows| ==> Revenue(rows[i]) == 0.0) ==> total == 0.0
    ensures (forall i :: 0 <= i < |rows| ==> Revenue(rows[i]) >= 0.0) ==> total >= 0.0
  {
    if rows == [] then 0.0
    else
      var prefix := rows[..|rows| - 1];
      assert forall i :: 0 <= i < |prefix| ==> prefix[i] == rows[i];
      TotalRevenue(prefix) + Revenue(rows[|rows| - 1])
  }

  /** Totals are additive over concatenation. */
  lemma {:induction false} TotalRevenueAppend(a: seq<Row>, b: seq<Row>)
    ensures TotalRevenue(a + b) == TotalRevenue(a) + TotalRevenue(b)
    decreases |b|
  {
    if b == [] {
      assert a + b == a;
    } else {
      var b' := b[..|b| - 1];
      assert (a + b)[..|a + b| - 1] == a + b';
      TotalRevenueAppend(a, b');
    }
  }

  /** A Revenue cell made of digits coerces to their decimal value. */
  lemma DigitRevenue(row: Row)
    requires RevenueColumn in row && row[RevenueColumn] != [] && JsNumber.AllDigits(row[RevenueColumn])
    ensures Revenue(row) == JsNumber.DigitsValue(row[RevenueColumn]) as real
  {
    JsNumber.ParseDigitString(row[RevenueColumn], "");
    assert row[RevenueColumn] + "" == row[RevenueColumn];
  }
}
