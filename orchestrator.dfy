/** The proof-of-concept driver: the acquisition loop is run for each country in
    turn and the per-country lists are appended to one combined list. */
module Orchestrator {
  import opened Acquisition

  /** The countries and the per-country quota the driver runs with. */
  const PocCountries: seq<string> := ["Spain", "France", "Italy"]
  const PocQuota: int := 1000

  /** The per-country lists one after the other, as full_list.extend builds them. */
  function Combine(lists: seq<seq<Record>>): seq<Record>
    decreases |lists|
  {
    if lists == [] then [] else Combine(lists[..|lists| - 1]) + lists[|lists| - 1]
  }

  /** The sum of the lengths of the lists. */
  function TotalLength(lists: seq<seq<Record>>): nat
    decreases |lists|
  {
    if lists == [] then 0 else TotalLength(lists[..|lists| - 1]) + |lists[|lists| - 1]|
  }

  /** The rows of `rows` whose country column is `c`, in order. */
  function RowsOf(rows: seq<Record>, c: string): seq<Record>
    decreases |rows|
  {
    if rows == [] then []
    else RowsOf(rows[..|rows| - 1], c) + (if rows[|rows| - 1].country == c then [rows[|rows| - 1]] else [])
  }

  /** The record lists of the countries whose quota was met, in order. */
  function Completed(outcomes: seq<Outcome>): seq<seq<Record>>
    decreases |outcomes|
  {
    if outcomes == [] then []
    else
      var last := outcomes[|outcomes| - 1];
      Completed(outcomes[..|outcomes| - 1]) + (if last.status == QuotaMet then [last.records] else [])
  }

  /** The combined list is as long as all per-country lists together: rows are
      neither merged nor dropped across countries. */
  lemma {:induction false} CombineLength(lists: seq<seq<Record>>)
    ensures |Combine(lists)| == TotalLength(lists)
    decreases |lists|
  {
    if lists != [] {
      CombineLength(lists[..|lists| - 1]);
    }
  }

  /** The i-th country's list sits, unchanged, right after the lists before it. */
  lemma {:induction false} CombineSegment(lists: seq<seq<Record>>, i: nat)
    requires i < |lists|
    ensures TotalLength(lists[..i + 1]) == TotalLength(lists[..i]) + |lists[i]|
    ensures TotalLength(lists[..i + 1]) <= |Combine(lists)|
    ensures Combine(lists)[TotalLength(lists[..i])..TotalLength(lists[..i + 1])] == lists[i]
    decreases |lists|
  {
    var front := lists[..|lists| - 1];
    assert lists[..i + 1][..i] == lists[..i];
    CombineLength(lists);
    CombineLength(lists[..i + 1]);
    if i < |lists| - 1 {
      assert front[..i] == lists[..i] && front[..i + 1] == lists[..i + 1];
      CombineSegment(front, i);
    } else {
      assert lists[..i + 1] == lists;
      CombineLength(front);
    }
  }

  lemma {:induction false} RowsOfAppend(a: seq<Record>, b: seq<Record>, c: string)
    ensures RowsOf(a + b, c) == RowsOf(a, c) + RowsOf(b, c)
    decreases |b|
  {
    if b == [] {
      assert a + b == a;
    } else {
      var b' := b[..|b| - 1];
      assert (a + b)[..|a + b| - 1] == a + b';
      assert (a + b)[|a + b| - 1] == b[|b| - 1];
      RowsOfAppend(a, b', c);
    }
  }

  lemma {:induction false} RowsOfAll(rows: seq<Record>, c: string)
    requires forall k :: 0 <= k < |rows| ==> rows[k].country == c
    ensures RowsOf(rows, c) == rows
    decreases |rows|
  {
    if rows != [] {
      var front := rows[..|rows| - 1];
      assert forall k :: 0 <= k < |front| ==> front[k] == rows[k];
      RowsOfAll(front, c);
      assert front + [rows[|rows| - 1]] == rows;
    }
  }

  lemma {:induction false} RowsOfNone(rows: seq<Record>, c: string)
    requires forall k :: 0 <= k < |rows| ==> rows[k].country != c
    ensures RowsOf(rows, c) == []
    decreases |rows|
  {
    if rows != [] {
      var front := rows[..|rows| - 1];
      assert forall k :: 0 <= k < |front| ==> front[k] == rows[k];
      RowsOfNone(front, c);
    }
  }

  /** The country column partitions the combined list: when the countries are
      distinct and every list is tagged with its own country, the rows of
      country i are exactly the i-th list. */
  lemma {:induction false} CombinePartition(countries: seq<string>, lists: seq<seq<Record>>, i: nat)
    requires |lists| == |countries| && i < |lists|
    requires forall a, b :: 0 <= a < b < |countries| ==> countries[a] != countries[b]
    requires forall a, k :: 0 <= a < |lists| && 0 <= k < |lists[a]| ==> lists[a][k].country == countries[a]
    ensures RowsOf(Combine(lists), countries[i]) == lists[i]
    decreases |lists|
  {
    var n := |lists| - 1;
    var front := lists[..n];
    var last := lists[n];
    RowsOfAppend(Combine(front), last, countries[i]);
    if i < n {
      CombinePartition(countries[..n], front, i);
      RowsOfNone(last, countries[i]);
    } else {
      CombineOthers(countries, front, countries[n]);
      RowsOfAll(last, countries[n]);
    }
  }

  /** No row of lists tagged with other countries is tagged with c. */
  lemma {:induction false} CombineOthers(countries: seq<string>, front: seq<seq<Record>>, c: string)
    requires |front| <= |countries|
    requires forall a :: 0 <= a < |front| ==> countries[a] != c
    requires forall a, k :: 0 <= a < |front| && 0 <= k < |front[a]| ==> front[a][k].country == countries[a]
    ensures RowsOf(Combine(front), c) == []
    decreases |front|
  {
    if front != [] {
      var n := |front| - 1;
      var prefix := front[..n];
      assert forall a :: 0 <= a < n ==> prefix[a] == front[a];
      RowsOfAppend(Combine(prefix), front[n], c);
      CombineOthers(countries, prefix, c);
      RowsOfNone(front[n], c);
    }
  }

  /** One more outcome appended to the run: the completed lists grow by its
      list exactly when its quota was met. */
  lemma CompletedSnoc(outcomes: seq<Outcome>, o: Outcome)
    ensures o.status == QuotaMet ==> Completed(outcomes + [o]) == Completed(outcomes) + [o.records]
    ensures o.status != QuotaMet ==> Completed(outcomes + [o]) == Completed(outcomes)
  {
    assert (outcomes + [o])[..|outcomes|] == outcomes;
  }

  /** The per-country facts of a run extend to one more country. */
  lemma RunExtend(countries: seq<string>, streams: seq<seq<seq<Candidate>>>, nValid: int,
                  outcomes: seq<Outcome>, o: Outcome)
    requires |outcomes| < |countries| <= |streams|
    requires forall k :: 0 <= k < |outcomes| ==> IsAcquisition(countries[k], streams[k], nValid, outcomes[k])
    requires IsAcquisition(countries[|outcomes|], streams[|outcomes|], nValid, o)
    ensures forall k :: 0 <= k < |outcomes| + 1 ==>
      IsAcquisition(countries[k], streams[k], nValid, (outcomes + [o])[k])
  {
    forall k | 0 <= k < |outcomes| + 1
      ensures IsAcquisition(countries[k], streams[k], nValid, (outcomes + [o])[k])
    {
      if k < |outcomes| {
        assert (outcomes + [o])[k] == outcomes[k];
      } else {
        assert (outcomes + [o])[k] == o;
      }
    }
  }

  /** A run whose countries all met their quota stays so after one more that did. */
  lemma AllMetExtend(outcomes: seq<Outcome>, o: Outcome)
    requires forall k :: 0 <= k < |outcomes| ==> outcomes[k].status == QuotaMet
    requires o.status == QuotaMet
    ensures forall k :: 0 <= k < |outcomes| + 1 ==> (outcomes + [o])[k].status == QuotaMet
  {
  }

  /** The driver loop: each country in turn, stopping at the first country whose
      quota its given batches do not fill (there the program itself keeps
      requesting batches and does not reach the next country). `streams[i]` is the stream of country i. */
  method RunCountries(countries: seq<string>, streams: seq<seq<seq<Candidate>>>, nValid: int)
    returns (fullList: seq<Record>, outcomes: seq<Outcome>)
    requires |streams| == |countries|
    ensures |outcomes| <= |countries|
    ensures forall i :: 0 <= i < |outcomes| ==> IsAcquisition(countries[i], streams[i], nValid, outcomes[i])
    ensures forall i :: 0 <= i < |outcomes| - 1 ==> outcomes[i].status == QuotaMet
    ensures |outcomes| < |countries| ==>
      0 < |outcomes| && outcomes[|outcomes| - 1].status == StreamExhausted
    ensures fullList == Combine(Completed(outcomes))
  {
    fullList := [];
    outcomes := [];
    for i := 0 to |countries|
      invariant |outcomes| == i
      invariant forall k :: 0 <= k < i ==> IsAcquisition(countries[k], streams[k], nValid, outcomes[k])
      invariant forall k :: 0 <= k < i ==> outcomes[k].status == QuotaMet
      invariant fullList == Combine(Completed(outcomes))
    {
      var o := GetValidPanoIds(countries[i], streams[i], nValid);
      RunExtend(countries, streams, nValid, outcomes, o);
      CompletedSnoc(outcomes, o);
      ghost var done := Completed(outcomes);
      if o.status == StreamExhausted {
        outcomes := outcomes + [o];
        return;
      }
      AllMetExtend(outcomes, o);
      outcomes := outcomes + [o];
      assert (done + [o.records])[..|done|] == done;
      fullList := fullList + o.records;
    }
  }

  /** Lists of one common length t combine into t rows per list. */
  lemma {:induction false} CombineUniform(lists: seq<seq<Record>>, t: nat)
    requires forall i :: 0 <= i < |lists| ==> |lists[i]| == t
    ensures |Combine(lists)| == |lists| * t
    decreases |lists|
  {
    if lists != [] {
      var n := |lists| - 1;
      var front := lists[..n];
      assert forall i :: 0 <= i < n ==> front[i] == lists[i];
      CombineUniform(front, t);
      assert |lists| * t == n * t + t;
    }
  }

  /** When every country meets its quota the combined list holds exactly
      quota rows per country. */
  lemma RunRowCount(countries: seq<string>, streams: seq<seq<seq<Candidate>>>,
                    nValid: int, outcomes: seq<Outcome>)
    requires |outcomes| <= |countries| && |outcomes| <= |streams|
    requires forall i :: 0 <= i < |outcomes| ==> IsAcquisition(countries[i], streams[i], nValid, outcomes[i])
    requires forall i :: 0 <= i < |outcomes| ==> outcomes[i].status == QuotaMet
    ensures |Combine(Completed(outcomes))| == |outcomes| * Target(nValid)
  {
    var lists := Completed(outcomes);
    CompletedAll(outcomes);
    assert forall i :: 0 <= i < |lists| ==> |lists[i]| == Target(nValid);
    CombineUniform(lists, Target(nValid));
  }

  lemma {:induction false} CompletedAll(outcomes: seq<Outcome>)
    requires forall i :: 0 <= i < |outcomes| ==> outcomes[i].status == QuotaMet
    ensures |Completed(outcomes)| == |outcomes|
    ensures forall i :: 0 <= i < |outcomes| ==> Completed(outcomes)[i] == outcomes[i].records
    decreases |outcomes|
  {
    if outcomes != [] {
      var n := |outcomes| - 1;
      var front := outcomes[..n];
      assert forall i :: 0 <= i < n ==> front[i] == outcomes[i];
      CompletedAll(front);
    }
  }

  /** When every country meets its quota and the countries are distinct, the
      rows tagged with country i in the combined list are exactly the list the
      loop returned for country i. */
  lemma RunPartition(countries: seq<string>, streams: seq<seq<seq<Candidate>>>,
                     nValid: int, outcomes: seq<Outcome>, i: nat)
    requires |outcomes| == |countries| <= |streams| && i < |outcomes|
    requires forall a, b :: 0 <= a < b < |countries| ==> countries[a] != countries[b]
    requires forall k :: 0 <= k < |outcomes| ==> IsAcquisition(countries[k], streams[k], nValid, outcomes[k])
    requires forall k :: 0 <= k < |outcomes| ==> outcomes[k].status == QuotaMet
    ensures RowsOf(Combine(Completed(outcomes)), countries[i]) == outcomes[i].records
  {
    var lists: seq<seq<Record>> := Completed(outcomes);
    CompletedAll(outcomes);
    forall a, k | 0 <= a < |lists| && 0 <= k < |lists[a]|
      ensures lists[a][k].country == countries[a]
    {
      AcquisitionRecords(countries[a], streams[a], nValid, outcomes[a]);
    }
    CombinePartition(countries, lists, i);
  }

  /** The proof-of-concept run: when all three countries meet the quota the
      table has 3000 rows. */
  lemma PocRowCount(streams: seq<seq<seq<Candidate>>>, fullList: seq<Record>, outcomes: seq<Outcome>)
    requires |streams| == |PocCountries| == |outcomes|
    requires forall i :: 0 <= i < |outcomes| ==> IsAcquisition(PocCountries[i], streams[i], PocQuota, outcomes[i])
    requires forall i :: 0 <= i < |outcomes| ==> outcomes[i].status == QuotaMet
    requires fullList == Combine(Completed(outcomes))
    ensures |fullList| == 3000
  {
    RunRowCount(PocCountries, streams, PocQuota, outcomes);
  }
}
