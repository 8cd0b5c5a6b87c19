/**
 `getETRevenueSummary(data)`: one entry per traffic source — ET, else SUBID,
 else "Unknown" — holding the coerced revenue of that source's rows, sorted
 by revenue, highest first.

 The accumulator `etRevenue` is a JavaScript object used as a dictionary; it
 is modelled as a sequence of entries in insertion order, where adding to an
 existing key updates it in place and a new key is appended.
 */
module EtSummary {
  import opened Rows
  import JsNumber
  import Seqs

  /** One `{ et, revenue }` element of the result. */
  datatype Entry = Entry(et: string, revenue: real)

  function KeysOf(s: seq<Entry>): set<string> {
    if s == [] then {} else {s[0].et} + KeysOf(s[1..])
  }

  /** No key occurs twice. */
  predicate DistinctKeys(s: seq<Entry>) {
    s == [] || (s[0].et !in KeysOf(s[1..]) && DistinctKeys(s[1..]))
  }

  function SumEntries(s: seq<Entry>): real {
    if s == [] then 0.0 else s[0].revenue + SumEntries(s[1..])
  }

  /** `etRevenue[k] || 0`: the running total of `k`, or 0 before its first row. */
  function Lookup(s: seq<Entry>, k: string): (total: real)
    ensures k !in KeysOf(s) ==> total == 0.0
    ensures k in KeysOf(s) ==> exists i :: 0 <= i < |s| && s[i].et == k && s[i].revenue == total
  {
    if s == [] then 0.0
    else if s[0].et == k then s[0].revenue
    else
      var total := Lookup(s[1..], k);
      assert k in KeysOf(s[1..]) ==> exists i :: 0 <= i < |s| && s[i].et == k && s[i].revenue == total by {
        if k in KeysOf(s[1..]) {
          var i :| 0 <= i < |s[1..]| && s[1..][i].et == k && s[1..][i].revenue == total;
          assert s[i + 1] == s[1..][i];
        }
      }
      total
  }

  lemma {:induction false} InKeysOf(s: seq<Entry>, k: string)
    ensures k in KeysOf(s) <==> exists i :: 0 <= i < |s| && s[i].et == k
  {
    if s != [] {
      InKeysOf(s[1..], k);
      if k in KeysOf(s[1..]) {
        var i :| 0 <= i < |s[1..]| && s[1..][i].et == k;
        assert s[i + 1].et == k;
      }
      if exists i :: 0 <= i < |s| && s[i].et == k {
        var i :| 0 <= i < |s| && s[i].et == k;
        if i > 0 { assert s[1..][i - 1].et == k; }
      }
    }
  }

  /** Distinct keys are pairwise different. */
  lemma {:induction false} DistinctKeysPairwise(s: seq<Entry>)
    requires DistinctKeys(s)
    ensures forall i, j :: 0 <= i < j < |s| ==> s[i].et != s[j].et
  {
    if s != [] {
      DistinctKeysPairwise(s[1..]);
      forall i, j | 0 <= i < j < |s| ensures s[i].et != s[j].et {
        if i == 0 {
          InKeysOf(s[1..], s[j].et);
          assert s[1..][j - 1] == s[j];
        } else {
          assert s[1..][i - 1] == s[i] && s[1..][j - 1] == s[j];
        }
      }
    }
  }

  lemma {:induction false} LookupFindsEntries(s: seq<Entry>)
    requires DistinctKeys(s)
    ensures forall e :: e in s ==> e.revenue == Lookup(s, e.et)
  {
    if s != [] {
      LookupFindsEntries(s[1..]);
      forall e | e in s
        ensures e.revenue == Lookup(s, e.et)
      {
        if e != s[0] {
          var i :| 0 <= i < |s| && s[i] == e;
          assert s[1..][i - 1] == e;
          InKeysOf(s[1..], e.et);
        }
      }
    }
  }

  lemma {:induction false} DistinctKeysCount(s: seq<Entry>)
    requires DistinctKeys(s)
    ensures |KeysOf(s)| == |s|
  {
    if s != [] {
      DistinctKeysCount(s[1..]);
    }
  }

  /** `etRevenue[k] = (etRevenue[k] || 0) + v`: the key's total grows by `v`,
      every other total stays, and a new key joins the set. */
  function Accumulate(acc: seq<Entry>, k: string, v: real): (r: seq<Entry>)
    ensures KeysOf(r) == KeysOf(acc) + {k}
    ensures DistinctKeys(acc) ==> DistinctKeys(r)
    ensures Lookup(r, k) == Lookup(acc, k) + v
    ensures forall k' :: k' != k ==> Lookup(r, k') == Lookup(acc, k')
    ensures SumEntries(r) == SumEntries(acc) + v
  {
    if acc == [] then [Entry(k, v)]
    else if acc[0].et == k then
      var r := [Entry(k, acc[0].revenue + v)] + acc[1..];
      assert r[1..] == acc[1..];
      r
    else
      var r := [acc[0]] + Accumulate(acc[1..], k, v);
      assert r[1..] == Accumulate(acc[1..], k, v);
      r
  }

  /** The rows whose traffic source is `k`, as a `filter` callback. */
  function SourceIs(k: string): Row -> bool {
    row => TrafficSource(row) == k
  }

  /** The revenue of the rows of traffic source `k`. */
  function SourceRevenue(rows: seq<Row>, k: string): real {
    TotalRevenue(Seqs.Filter(rows, SourceIs(k)))
  }

  /** The distinct traffic sources seen in `rows`. */
  function Sources(rows: seq<Row>): set<string> {
    set i | 0 <= i < |rows| :: TrafficSource(rows[i])
  }

  lemma SourceRevenueStep(rows: seq<Row>, k: string)
    requires rows != []
    ensures SourceRevenue(rows, k) == SourceRevenue(rows[..|rows| - 1], k) +
      (if TrafficSource(rows[|rows| - 1]) == k then Revenue(rows[|rows| - 1]) else 0.0)
  {
    var f := Seqs.Filter(rows[..|rows| - 1], SourceIs(k));
    assert (f + [rows[|rows| - 1]])[..|f|] == f;
  }

  lemma SourcesStep(rows: seq<Row>)
    requires rows != []
    ensures Sources(rows) == Sources(rows[..|rows| - 1]) + {TrafficSource(rows[|rows| - 1])}
  {
    var prefix := rows[..|rows| - 1];
    forall k | k in Sources(rows) ensures k in Sources(prefix) + {TrafficSource(rows[|rows| - 1])} {
      var i :| 0 <= i < |rows| && TrafficSource(rows[i]) == k;
      if i < |prefix| { assert prefix[i] == rows[i]; }
    }
    forall k | k in Sources(prefix) ensures k in Sources(rows) {
      var i :| 0 <= i < |prefix| && TrafficSource(prefix[i]) == k;
      assert rows[i] == prefix[i];
    }
  }

  /** One step of the `forEach`: if `g` holds the per-source totals of all
      rows but the last, adding the last row makes it hold those of all rows. */
  lemma AccumulateLastRow(g: seq<Entry>, rows: seq<Row>)
    requires rows != []
    requires forall k :: Lookup(g, k) == SourceRevenue(rows[..|rows| - 1], k)
    ensures forall k ::
      Lookup(Accumulate(g, TrafficSource(rows[|rows| - 1]), Revenue(rows[|rows| - 1])), k) == SourceRevenue(rows, k)
  {
    forall k {
      SourceRevenueStep(rows, k);
    }
  }

  /** The `forEach` over the rows: the accumulator object after the last row. */
  function Group(rows: seq<Row>): (r: seq<Entry>)
    ensures DistinctKeys(r)
    ensures KeysOf(r) == Sources(rows)
    ensures forall k :: Lookup(r, k) == SourceRevenue(rows, k)
    ensures SumEntries(r) == TotalRevenue(rows)
  {
    if rows == [] then []
    else
      var prefix := rows[..|rows| - 1];
      var last := rows[|rows| - 1];
      SourcesStep(rows);
      AccumulateLastRow(Group(prefix), rows);
      Accumulate(Group(prefix), TrafficSource(last), Revenue(last))
  }

  predicate SortedDesc(s: seq<Entry>) {
    forall i, j :: 0 <= i < j < |s| ==> s[i].revenue >= s[j].revenue
  }

  /** Places `x` before the first entry whose revenue it reaches, so that
      among equal revenues the earlier entry stays first. */
  function Insert(x: Entry, s: seq<Entry>): (r: seq<Entry>)
    ensures multiset(r) == multiset(s) + multiset{x}
  {
    if s == [] || x.revenue >= s[0].revenue then [x] + s
    else
      assert s == [s[0]] + s[1..];
      [s[0]] + Insert(x, s[1..])
  }

  /** A bound on the revenues of `s` and of `x` bounds every revenue after
      the insertion. */
  lemma {:induction false} InsertBelow(x: Entry, s: seq<Entry>, bound: real)
    requires x.revenue <= bound
    requires forall i :: 0 <= i < |s| ==> s[i].revenue <= bound
    ensures forall i :: 0 <= i < |Insert(x, s)| ==> Insert(x, s)[i].revenue <= bound
  {
    var r := Insert(x, s);
    if s == [] || x.revenue >= s[0].revenue {
      assert forall i :: 0 < i < |r| ==> r[i] == s[i - 1];
    } else {
      var tail := s[1..];
      assert forall i :: 0 <= i < |tail| ==> tail[i] == s[i + 1];
      InsertBelow(x, tail, bound);
      assert forall i :: 0 < i < |r| ==> r[i] == Insert(x, tail)[i - 1];
    }
  }

  /** Inserting into a list sorted highest first keeps it sorted. */
  lemma {:induction false} InsertSorted(x: Entry, s: seq<Entry>)
    requires SortedDesc(s)
    ensures SortedDesc(Insert(x, s))
  {
    var r := Insert(x, s);
    if s == [] || x.revenue >= s[0].revenue {
      assert forall j :: 0 < j < |r| ==> r[j] == s[j - 1];
    } else {
      var tail := s[1..];
      assert forall i :: 0 <= i < |tail| ==> tail[i] == s[i + 1];
      InsertSorted(x, tail);
      InsertBelow(x, tail, s[0].revenue);
      var rest := Insert(x, tail);
      assert forall j :: 0 < j < |r| ==> r[j] == rest[j - 1];
    }
  }

  lemma {:induction false} InsertKeeps(x: Entry, s: seq<Entry>)
    ensures KeysOf(Insert(x, s)) == KeysOf(s) + {x.et}
    ensures DistinctKeys(s) && x.et !in KeysOf(s) ==> DistinctKeys(Insert(x, s))
    ensures SumEntries(Insert(x, s)) == SumEntries(s) + x.revenue
  {
    var r := Insert(x, s);
    if s == [] || x.revenue >= s[0].revenue {
      assert r[1..] == s;
    } else {
      InsertKeeps(x, s[1..]);
      assert r[1..] == Insert(x, s[1..]);
    }
  }

  /** `.sort((a, b) => b.revenue - a.revenue)`: highest revenue first. */
  function SortDesc(s: seq<Entry>): (r: seq<Entry>)
    ensures SortedDesc(r)
    ensures multiset(r) == multiset(s)
  {
    if s == [] then []
    else
      assert s == [s[0]] + s[1..];
      InsertSorted(s[0], SortDesc(s[1..]));
      Insert(s[0], SortDesc(s[1..]))
  }

  lemma {:induction false} SortDescKeeps(s: seq<Entry>)
    ensures KeysOf(SortDesc(s)) == KeysOf(s)
    ensures DistinctKeys(s) ==> DistinctKeys(SortDesc(s))
    ensures SumEntries(SortDesc(s)) == SumEntries(s)
  {
    if s != [] {
      var sorted := SortDesc(s[1..]);
      assert SortDesc(s) == Insert(s[0], sorted);
      SortDescKeeps(s[1..]);
      InsertKeeps(s[0], sorted);
    }
  }

  /** `getETRevenueSummary(data)`. */
  function Summary(rows: seq<Row>): (summary: seq<Entry>)
    ensures SortedDesc(summary)
    ensures multiset(summary) == multiset(Group(rows))
    ensures forall i, j :: 0 <= i < j < |summary| ==> summary[i].et != summary[j].et
    ensures KeysOf(summary) == Sources(rows)
    ensures |summary| == |Sources(rows)|
    ensures forall e :: e in summary ==> e.revenue == SourceRevenue(rows, e.et)
    ensures SumEntries(summary) == TotalRevenue(rows)
  {
    var grouped := Group(rows);
    var summary := SortDesc(grouped);
    SortDescKeeps(grouped);
    LookupFindsEntries(grouped);
    forall e | e in summary ensures e in grouped {
      assert e in multiset(summary);
    }
    DistinctKeysPairwise(summary);
    DistinctKeysCount(summary);
    summary
  }

  /** A row with neither ET nor SUBID is counted under "Unknown". */
  lemma MissingSourceIsUnknown(rows: seq<Row>, i: nat)
    requires i < |rows|
    requires !Truthy(Cell(rows[i], EtColumn)) && !Truthy(Cell(rows[i], SubIdColumn))
    ensures UnknownSource in KeysOf(Summary(rows))
    ensures SourceIs(UnknownSource)(rows[i])
  {
  }

  /** A row whose Revenue is missing or not a number changes no total, though
      its traffic source still gets an entry. */
  lemma UnparsableRevenueAddsNothing(rows: seq<Row>, row: Row)
    requires RevenueColumn !in row || JsNumber.ParseFloat(row[RevenueColumn]).None?
    ensures forall k :: SourceRevenue(rows + [row], k) == SourceRevenue(rows, k)
    ensures TotalRevenue(rows + [row]) == TotalRevenue(rows)
    ensures TrafficSource(row) in KeysOf(Summary(rows + [row]))
  {
    var rows' := rows + [row];
    assert rows'[..|rows|] == rows;
    forall k ensures SourceRevenue(rows', k) == SourceRevenue(rows, k) {
      SourceRevenueStep(rows', k);
    }
    assert rows'[|rows|] == row;
  }

  // The code as written: `etRevenue` is a plain object literal, so the key
  // "__proto__" reaches the prototype accessor. `etRevenue['__proto__'] || 0`
  // is Object.prototype, adding a number to it gives a string, and assigning
  // a string to `__proto__` is ignored: the entry never appears.

  /** The key that names the prototype accessor of a plain object. */
  const ProtoKey := "__proto__"

  /** `etRevenue[k] = (etRevenue[k] || 0) + v` as it behaves on a plain object. */
  function AccumulateAsWritten(acc: seq<Entry>, k: string, v: real): (r: seq<Entry>)
    ensures k == ProtoKey ==> r == acc
    ensures k != ProtoKey ==> SumEntries(r) == SumEntries(acc) + v
  {
    if k == ProtoKey then acc else Accumulate(acc, k, v)
  }

  function GroupAsWritten(rows: seq<Row>): (r: seq<Entry>)
    ensures ProtoKey !in KeysOf(r)
    ensures SumEntries(r) == TotalRevenue(rows) - SourceRevenue(rows, ProtoKey)
  {
    if rows == [] then []
    else
      var prefix := rows[..|rows| - 1];
      var last := rows[|rows| - 1];
      SourceRevenueStep(rows, ProtoKey);
      AccumulateAsWritten(GroupAsWritten(prefix), TrafficSource(last), Revenue(last))
  }

  /** `getETRevenueSummary(data)` as written. */
  function SummaryAsWritten(rows: seq<Row>): (summary: seq<Entry>)
    ensures SortedDesc(summary)
    ensures ProtoKey !in KeysOf(summary)
    ensures SumEntries(summary) == TotalRevenue(rows) - SourceRevenue(rows, ProtoKey)
  {
    SortDescKeeps(GroupAsWritten(rows));
    SortDesc(GroupAsWritten(rows))
  }

  /** A single row with ET "__proto__" and Revenue "5": the code as written
      returns no entry at all, so the 5 is lost; the corrected summary keeps it. */
  lemma ProtoSourceLosesRevenue(row: Row)
    requires row == map[EtColumn := ProtoKey, RevenueColumn := "5"]
    ensures TotalRevenue([row]) == 5.0
    ensures SummaryAsWritten([row]) == []
    ensures Summary([row]) == [Entry(ProtoKey, 5.0)]
  {
    assert "5"[..0] == "";
    DigitRevenue(row);
    assert [row][..0] == [];
    assert TrafficSource(row) == ProtoKey;
    assert TotalRevenue([row]) == 5.0;
    assert GroupAsWritten([row]) == [];
    assert Group([row]) == [Entry(ProtoKey, 5.0)];
  }
}
