/**
 `getCampaignRevenue(data, campaign)`: keep the rows whose Campaign is exactly
 `campaign`, then fold their coerced revenue into a total starting at 0.
 */
module CampaignRevenue {
  import opened Rows
  import JsNumber
  import Seqs

  /** Reference definition: the revenue of every row of campaign `name`, and
      nothing for the other rows, summed left to right. */
  function RevenueWhere(rows: seq<Row>, name: string): real {
    if rows == [] then 0.0
    else
      var last := rows[|rows| - 1];
      RevenueWhere(rows[..|rows| - 1], name) + (if InCampaign(last, name) then Revenue(last) else 0.0)
  }

  /** Filtering first and then folding is the per-row conditional sum. */
  lemma {:induction false} FilteredTotal(rows: seq<Row>, name: string)
    ensures TotalRevenue(Seqs.Filter(rows, CampaignIs(name))) == RevenueWhere(rows, name)
    decreases |rows|
  {
    if rows != [] {
      var prefix := rows[..|rows| - 1];
      var last := rows[|rows| - 1];
      var f := Seqs.Filter(prefix, CampaignIs(name));
      FilteredTotal(prefix, name);
      if InCampaign(last, name) {
        assert (f + [last])[..|f|] == f;
      }
    }
  }

  function GetCampaignRevenue(rows: seq<Row>, campaign: string): (total: real)
    ensures total == RevenueWhere(rows, campaign)
  {
    FilteredTotal(rows, campaign);
    TotalRevenue(Seqs.Filter(rows, CampaignIs(campaign)))
  }

  /** No matching row — in particular no rows at all — gives 0. */
  lemma {:induction false} NoMatchIsZero(rows: seq<Row>, campaign: string)
    requires forall i :: 0 <= i < |rows| ==> !InCampaign(rows[i], campaign)
    ensures GetCampaignRevenue(rows, campaign) == 0.0
    decreases |rows|
  {
    if rows != [] {
      NoMatchIsZero(rows[..|rows| - 1], campaign);
    }
  }

  lemma {:induction false} RevenueWhereAppend(a: seq<Row>, b: seq<Row>, name: string)
    ensures RevenueWhere(a + b, name) == RevenueWhere(a, name) + RevenueWhere(b, name)
    decreases |b|
  {
    if b == [] {
      assert a + b == a;
    } else {
      var b' := b[..|b| - 1];
      assert (a + b)[..|a + b| - 1] == a + b';
      RevenueWhereAppend(a, b', name);
    }
  }

  /** Revenue is additive over concatenated row lists. */
  lemma ConcatenationAdds(a: seq<Row>, b: seq<Row>, campaign: string)
    ensures GetCampaignRevenue(a + b, campaign) == GetCampaignRevenue(a, campaign) + GetCampaignRevenue(b, campaign)
  {
    RevenueWhereAppend(a, b, campaign);
  }

  /** Only the rows of the campaign matter: adding a row of another campaign,
      or one without a Campaign column, changes nothing. */
  lemma OtherRowsIgnored(rows: seq<Row>, row: Row, campaign: string)
    requires !InCampaign(row, campaign)
    ensures GetCampaignRevenue(rows + [row], campaign) == GetCampaignRevenue(rows, campaign)
  {
    assert (rows + [row])[..|rows|] == rows;
  }

  /** A row whose Revenue is missing or not a number adds 0 and no failure. */
  lemma UnparsableRevenueAddsNothing(rows: seq<Row>, row: Row, campaign: string)
    requires RevenueColumn !in row || JsNumber.ParseFloat(row[RevenueColumn]).None?
    ensures GetCampaignRevenue(rows + [row], campaign) == GetCampaignRevenue(rows, campaign)
  {
    assert (rows + [row])[..|rows|] == rows;
  }

  /** The rows "A,100" and "B,200": campaign A earns 100. */
  lemma TwoCampaignExample(a: Row, b: Row)
    requires a == map[CampaignColumn := "A", RevenueColumn := "100"]
    requires b == map[CampaignColumn := "B", RevenueColumn := "200"]
    ensures GetCampaignRevenue([a, b], "A") == 100.0
  {
    assert !InCampaign(b, "A");
    assert [a, b][..1] == [a];
    assert RevenueWhere([a, b], "A") == RevenueWhere([a], "A");
    assert [a][..0] == [];
    assert InCampaign(a, "A");
    assert RevenueWhere([a], "A") == Revenue(a);
    JsNumber.Hundred();
    DigitRevenue(a);
  }

  /** The same two rows: no row belongs to campaign "C". */
  lemma AbsentCampaignExample(a: Row, b: Row)
    requires a == map[CampaignColumn := "A", RevenueColumn := "100"]
    requires b == map[CampaignColumn := "B", RevenueColumn := "200"]
    ensures GetCampaignRevenue([a, b], "C") == 0.0
  {
    assert !InCampaign(a, "C") && !InCampaign(b, "C");
    NoMatchIsZero([a, b], "C");
  }
}
