/**
 The derived views the page computes from the uploaded rows: the free-text
 search, the campaign filter applied on top of it, and the list of campaign
 names offered in the selector.
 */
module Views {
  import opened Options
  import opened Rows
  import Seqs
  import CampaignRevenue

  /** ASCII lower-casing of one character. */
  function LowerChar(c: char): char {
    if 'A' <= c <= 'Z' then (c as int - 'A' as int + 'a' as int) as char else c
  }

  /** `s.toLowerCase()`, restricted to ASCII letters. */
  function Lower(s: string): (r: string)
    ensures |r| == |s|
    ensures forall i :: 0 <= i < |s| ==> r[i] == LowerChar(s[i])
    ensures forall i :: 0 <= i < |r| ==> !('A' <= r[i] <= 'Z')
    ensures forall i :: 0 <= i < |s| && !('A' <= s[i] <= 'Z') ==> r[i] == s[i]
    ensures forall i :: 0 <= i < |s| && 'A' <= s[i] <= 'Z' ==> r[i] as int == s[i] as int + 32
  {
    seq(|s|, i requires 0 <= i < |s| => LowerChar(s[i]))
  }

  /** `needle` occurs in `hay` starting at position `i`. */
  ghost predicate OccursAt(hay: string, needle: string, i: int) {
    0 <= i && i + |needle| <= |hay| && hay[i..i + |needle|] == needle
  }

  /** `hay.includes(needle)`, scanning the start positions left to right. */
  function Includes(hay: string, needle: string): (b: bool)
    ensures b <==> exists i :: OccursAt(hay, needle, i)
    decreases |hay|
  {
    if |needle| > |hay| then false
    else if hay[..|needle|] == needle then
      assert OccursAt(hay, needle, 0);
      true
    else
      var b := Includes(hay[1..], needle);
      assert b ==> exists i :: OccursAt(hay, needle, i) by {
        if b {
          var i :| OccursAt(hay[1..], needle, i);
          assert hay[1..][i..i + |needle|] == hay[i + 1..i + 1 + |needle|];
          assert OccursAt(hay, needle, i + 1);
        }
      }
      assert (exists i :: OccursAt(hay, needle, i)) ==> b by {
        if exists i :: OccursAt(hay, needle, i) {
          var i :| OccursAt(hay, needle, i);
          assert i != 0;
          assert hay[1..][i - 1..i - 1 + |needle|] == hay[i..i + |needle|];
          assert OccursAt(hay[1..], needle, i - 1);
        }
      }
      b
  }

  /** `Object.values(row).some(...)`: some cell of the row, lower-cased,
      contains the lower-cased term. The empty term is contained in every
      cell, so it is mentioned exactly by the rows that have a cell. */
  predicate RowMentions(row: Row, term: string)
    ensures RowMentions(row, term) <==>
      exists value | value in row.Values :: exists i :: OccursAt(Lower(value), Lower(term), i)
    ensures term == "" ==> (RowMentions(row, term) <==> |row| > 0)
  {
    assert term == "" && |row| > 0 ==> exists value | value in row.Values :: Includes(Lower(value), Lower(term)) by {
      if term == "" && |row| > 0 {
        var k :| k in row;
        assert row[k] in row.Values;
        assert OccursAt(Lower(row[k]), Lower(term), 0);
      }
    }
    exists value | value in row.Values :: Includes(Lower(value), Lower(term))
  }

  function MentionsTerm(term: string): Row -> bool {
    row => RowMentions(row, term)
  }

  /** `searchResults`: all rows for an empty term, otherwise the rows with a
      cell containing the term, ignoring case, in their original order. */
  function SearchResults(data: seq<Row>, term: string): (r: seq<Row>)
    ensures term == "" ==> r == data
    ensures Seqs.IsSubseq(r, data)
    ensures term != "" ==> forall row :: multiset(r)[row] == if RowMentions(row, term) then multiset(data)[row] else 0
  {
    Seqs.IsSubseqRefl(data);
    Seqs.FilterKeepsOrder(data, MentionsTerm(term));
    if term == "" then data else Seqs.Filter(data, MentionsTerm(term))
  }

  lemma LowerIdempotent(s: string)
    ensures Lower(Lower(s)) == Lower(s)
  {
  }

  /** The search ignores case: a term and its lower-cased form find the same
      rows. */
  lemma SearchIgnoresCase(data: seq<Row>, term: string)
    ensures SearchResults(data, Lower(term)) == SearchResults(data, term)
  {
    LowerIdempotent(term);
    if term != "" {
      assert Lower(term) != "" by { assert |Lower(term)| == |term|; }
      Seqs.FilterCongruent(data, MentionsTerm(Lower(term)), MentionsTerm(term));
    }
  }

  /** With no search term and a campaign selected, the rows shown are exactly
      those whose revenue makes up the campaign total shown beside them. */
  lemma ShownRowsMakeCampaignTotal(data: seq<Row>, selected: string)
    requires selected != ""
    ensures TotalRevenue(CampaignCreatives(SearchResults(data, ""), selected))
         == CampaignRevenue.GetCampaignRevenue(data, selected)
  {
  }

  /** `campaignCreatives`: the search results, narrowed to the selected
      campaign when one is selected. */
  function CampaignCreatives(results: seq<Row>, selected: string): (r: seq<Row>)
    ensures selected == "" ==> r == results
    ensures Seqs.IsSubseq(r, results)
    ensures selected != "" ==> forall i :: 0 <= i < |r| ==> InCampaign(r[i], selected)
    ensures selected != "" ==> forall row :: multiset(r)[row] == if InCampaign(row, selected) then multiset(results)[row] else 0
  {
    Seqs.IsSubseqRefl(results);
    Seqs.FilterKeepsOrder(results, CampaignIs(selected));
    if selected == "" then results else Seqs.Filter(results, CampaignIs(selected))
  }

  /** `data.map(row => row.Campaign)`. */
  function CampaignCells(data: seq<Row>): (cells: seq<Option<string>>)
    ensures |cells| == |data|
    ensures forall i :: 0 <= i < |data| ==> cells[i] == Cell(data[i], CampaignColumn)
  {
    if data == [] then []
    else CampaignCells(data[..|data| - 1]) + [Cell(data[|data| - 1], CampaignColumn)]
  }

  lemma CampaignCellsNamed(data: seq<Row>)
    ensures forall name :: Some(name) in CampaignCells(data) <==>
      exists k :: 0 <= k < |data| && InCampaign(data[k], name)
  {
    forall name | Some(name) in CampaignCells(data)
      ensures exists k :: 0 <= k < |data| && InCampaign(data[k], name)
    {
      var k :| 0 <= k < |data| && CampaignCells(data)[k] == Some(name);
      assert InCampaign(data[k], name);
    }
  }

  /** `.filter(Boolean)` on the cells: drop `undefined` and "", unwrap the rest. */
  function KeepTruthy(cells: seq<Option<string>>): (names: seq<string>)
    ensures forall i :: 0 <= i < |names| ==> names[i] != ""
    ensures forall name :: name in names <==> name != "" && Some(name) in cells
    ensures |names| <= |cells|
  {
    if cells == [] then []
    else
      var rest := KeepTruthy(cells[..|cells| - 1]);
      var last := cells[|cells| - 1];
      if Truthy(last) then rest + [last.value] else rest
  }

  /** `.filter(Boolean)` is the generic filter with JavaScript truthiness:
      the kept names keep their order and multiplicity. */
  lemma {:induction false} KeepTruthyIsFilter(cells: seq<Option<string>>)
    ensures Wrap(KeepTruthy(cells)) == Seqs.Filter(cells, Truthy)
  {
    if cells != [] {
      var prefix := cells[..|cells| - 1];
      var last := cells[|cells| - 1];
      var rest := KeepTruthy(prefix);
      KeepTruthyIsFilter(prefix);
      if Truthy(last) {
        assert Wrap(rest + [last.value]) == Wrap(rest) + [last];
      }
    }
  }

  /** The names back as defined cells. */
  function Wrap(names: seq<string>): (cells: seq<Option<string>>)
    ensures |cells| == |names|
    ensures forall i :: 0 <= i < |names| ==> cells[i] == Some(names[i])
  {
    seq(|names|, i requires 0 <= i < |names| => Some(names[i]))
  }

  /** Reference definition: scan the rows once, recording each non-empty
      campaign name the first time it is seen. */
  function FirstSeenCampaigns(data: seq<Row>): (names: seq<string>)
    ensures forall i, j :: 0 <= i < j < |names| ==> names[i] != names[j]
    ensures forall i :: 0 <= i < |names| ==> names[i] != ""
    ensures forall name :: name in names <==> name != "" && Some(name) in CampaignCells(data)
  {
    if data == [] then []
    else
      var prefix := data[..|data| - 1];
      var names := FirstSeenCampaigns(prefix);
      var cell := Cell(data[|data| - 1], CampaignColumn);
      assert CampaignCells(data) == CampaignCells(prefix) + [cell];
      if Truthy(cell) && cell.value !in names then names + [cell.value] else names
  }

  /** The names come in the order in which their first rows appear. */
  lemma {:induction false} FirstSeenOrder(data: seq<Row>)
    ensures forall i, j :: 0 <= i < j < |FirstSeenCampaigns(data)| ==>
      Seqs.IndexOf(CampaignCells(data), Some(FirstSeenCampaigns(data)[i]))
        < Seqs.IndexOf(CampaignCells(data), Some(FirstSeenCampaigns(data)[j]))
  {
    if data != [] {
      var prefix := data[..|data| - 1];
      var names := FirstSeenCampaigns(prefix);
      var cell := Cell(data[|data| - 1], CampaignColumn);
      var before := CampaignCells(prefix);
      var cells := CampaignCells(data);
      assert cells == before + [cell];
      FirstSeenOrder(prefix);
      var r := FirstSeenCampaigns(data);
      var added := Truthy(cell) && cell.value !in names;
      assert r == if added then names + [cell.value] else names;
      if added {
        Seqs.IndexOfAppendNew(before, cell);
      }
      forall i, j | 0 <= i < j < |r|
        ensures Seqs.IndexOf(cells, Some(r[i])) < Seqs.IndexOf(cells, Some(r[j]))
      {
        assert r[i] == names[i] && names[i] in names;
        Seqs.IndexOfAppend(before, cell, Some(names[i]));
        var first := Seqs.IndexOf(before, Some(names[i]));
        if j < |names| {
          assert r[j] == names[j] && names[j] in names;
          Seqs.IndexOfAppend(before, cell, Some(names[j]));
          assert first < Seqs.IndexOf(before, Some(names[j]));
        } else {
          assert added && cell == Some(r[j]);
          assert first < |before|;
        }
      }
    }
  }

  lemma {:induction false} DedupThenKeepTruthy(data: seq<Row>)
    ensures KeepTruthy(Seqs.Dedup(CampaignCells(data))) == FirstSeenCampaigns(data)
    decreases |data|
  {
    if data != [] {
      var prefix := data[..|data| - 1];
      var before := CampaignCells(prefix);
      var cell := Cell(data[|data| - 1], CampaignColumn);
      var cells := CampaignCells(data);
      assert cells == before + [cell];
      assert cells[..|cells| - 1] == before;
      DedupThenKeepTruthy(prefix);
      var d := Seqs.Dedup(before);
      var names := FirstSeenCampaigns(prefix);
      assert KeepTruthy(d) == names;
      if cell in before {
        assert Seqs.Dedup(cells) == d;
        assert !(Truthy(cell) && cell.value !in names);
      } else {
        assert Seqs.Dedup(cells) == d + [cell];
        assert (d + [cell])[..|d|] == d;
        assert Truthy(cell) ==> cell.value !in names;
      }
    }
  }

  /** `campaigns`: `[...new Set(data.map(row => row.Campaign))].filter(Boolean)`.
      The names are distinct and non-empty, they are exactly the non-empty
      Campaign values of the rows, and they come in order of first appearance. */
  function Campaigns(data: seq<Row>): (names: seq<string>)
    ensures names == FirstSeenCampaigns(data)
    ensures forall i, j :: 0 <= i < j < |names| ==> names[i] != names[j]
    ensures forall i :: 0 <= i < |names| ==> names[i] != ""
    ensures forall name :: name in names <==>
      name != "" && exists k :: 0 <= k < |data| && InCampaign(data[k], name)
    ensures forall i, j :: 0 <= i < j < |names| ==>
      Seqs.IndexOf(CampaignCells(data), Some(names[i])) < Seqs.IndexOf(CampaignCells(data), Some(names[j]))
  {
    DedupThenKeepTruthy(data);
    FirstSeenOrder(data);
    CampaignCellsNamed(data);
    KeepTruthy(Seqs.Dedup(CampaignCells(data)))
  }
}
