/** The panorama acquisition loop of one country (get_valid_pano_ids).

    The Street View metadata service is seen only through its replies: every
    sampled point comes paired with the reply the service gives for it, and the
    unbounded sequence of sample_points batches is a finite sequence of batches.
    When the model's batches run out before the quota is met the outcome is
    StreamExhausted: the program itself would go on sampling. */
module Acquisition {
  import opened Sampler

  /** The metadata reply for one location: status "OK" with the panorama's own
      location and id, or any other status, which carries nothing the loop reads. */
  datatype Response = NotOk | Ok(lat: real, lng: real, panoId: string)

  /** One sampled point together with the reply the lookup gives for it. */
  datatype Candidate = Candidate(point: Point, reply: Response)

  /** One row of a country's list: [country_name, lat, lng, pano_id]. */
  datatype Record = Record(country: string, lat: real, lng: real, panoId: string)

  datatype Status = QuotaMet | StreamExhausted

  /** What one run of the loop produces: the status, the record list, how many
      metadata requests it sent and how many batches it asked sample_points for. */
  datatype Outcome = Outcome(status: Status, records: seq<Record>, calls: nat, sampled: nat)

  /** The ids in a record list (the seen set the loop keeps beside the list). */
  function Ids(list: seq<Record>): set<string>
  {
    set k | 0 <= k < |list| :: list[k].panoId
  }

  /** The ids of all OK replies among the candidates. */
  function OkIds(cs: seq<Candidate>): set<string>
  {
    set k | 0 <= k < |cs| && cs[k].reply.Ok? :: cs[k].reply.panoId
  }

  predicate DistinctIds(list: seq<Record>)
  {
    forall i, j :: 0 <= i < j < |list| ==> list[i].panoId != list[j].panoId
  }

  /** The quota as a record count: a non-positive n_valid asks for nothing. */
  function Target(nValid: int): nat
  {
    if nValid < 0 then 0 else nValid
  }

  /** The handling of one reply: a record is appended for an OK reply whose id
      has not been seen; a reply that is not OK, or a repeated id, is skipped. */
  function Accept(country: string, list: seq<Record>, c: Candidate): seq<Record>
  {
    if c.reply.Ok? && c.reply.panoId !in Ids(list) then
      list + [Record(country, c.reply.lat, c.reply.lng, c.reply.panoId)]
    else
      list
  }

  /** The record list after handling the candidates in order, with no quota. */
  function Collect(country: string, cs: seq<Candidate>): seq<Record>
    decreases |cs|
  {
    if cs == [] then [] else Accept(country, Collect(country, cs[..|cs| - 1]), cs[|cs| - 1])
  }

  /** The batches one after the other, as the loop walks them. */
  function Flatten(batches: seq<seq<Candidate>>): seq<Candidate>
    decreases |batches|
  {
    if batches == [] then [] else Flatten(batches[..|batches| - 1]) + batches[|batches| - 1]
  }

  /** The position of the first OK reply for `id`, or |cs| when there is none. */
  function FirstOkIndex(cs: seq<Candidate>, id: string): (k: nat)
    ensures k <= |cs|
    ensures k < |cs| ==> cs[k].reply.Ok? && cs[k].reply.panoId == id
    ensures forall j :: 0 <= j < k ==> !(cs[j].reply.Ok? && cs[j].reply.panoId == id)
    decreases |cs|
  {
    if cs == [] then 0
    else if cs[0].reply.Ok? && cs[0].reply.panoId == id then 0
    else 1 + FirstOkIndex(cs[1..], id)
  }

  /** Each record is built from the first OK reply for its id: the country, the
      reply's own location (not the sampled point) and the id. */
  predicate FromFirstReplies(country: string, cs: seq<Candidate>, list: seq<Record>)
  {
    forall i :: 0 <= i < |list| ==>
      var k := FirstOkIndex(cs, list[i].panoId);
      k < |cs| && list[i] == Record(country, cs[k].reply.lat, cs[k].reply.lng, cs[k].reply.panoId)
  }

  /** Records appear in the order in which their ids first get an OK reply. */
  predicate InFirstReplyOrder(cs: seq<Candidate>, list: seq<Record>)
  {
    forall i, j :: 0 <= i < j < |list| ==>
      FirstOkIndex(cs, list[i].panoId) < FirstOkIndex(cs, list[j].panoId)
  }

  /** Every id with an OK reply has a record. */
  predicate CoversOkReplies(cs: seq<Candidate>, list: seq<Record>)
  {
    forall k :: 0 <= k < |cs| && cs[k].reply.Ok? ==> cs[k].reply.panoId in Ids(list)
  }

  /** `list` is the list of first occurrences of cs: one record per distinct id
      with an OK reply, built from that id's first OK reply, in the order those
      first replies arrive. */
  predicate FirstOccurrences(country: string, cs: seq<Candidate>, list: seq<Record>)
  {
    FromFirstReplies(country, cs, list) && InFirstReplyOrder(cs, list) && CoversOkReplies(cs, list)
  }

  /** The first n candidates of the stream yield fewer records than the quota. */
  predicate UnmetAfterCalls(country: string, stream: seq<Candidate>, n: nat, nValid: int)
  {
    n <= |stream| && |Collect(country, stream[..n])| < nValid
  }

  /** The first s batches yield fewer records than the quota. */
  predicate UnmetAfterBatches(country: string, batches: seq<seq<Candidate>>, s: nat, nValid: int)
  {
    s <= |batches| && |Collect(country, Flatten(batches[..s]))| < nValid
  }

  /** What get_valid_pano_ids does with the stream `batches`, as a relation
      between its inputs and the outcome `o`. */
  predicate IsAcquisition(country: string, batches: seq<seq<Candidate>>, nValid: int, o: Outcome)
  {
    var stream := Flatten(batches);
    // the requests sent are a prefix of the stream, and the list is what they yield
    o.calls <= |stream| &&
    o.records == Collect(country, stream[..o.calls]) &&
    // every request is sent while the quota is still unmet (the check before each lookup)
    (forall k :: 0 <= k < o.calls ==> UnmetAfterCalls(country, stream, k, nValid)) &&
    // every batch is requested while the quota is still unmet (the while guard)
    o.sampled <= |batches| &&
    (forall s :: 0 <= s < o.sampled ==> UnmetAfterBatches(country, batches, s, nValid)) &&
    // the requests sent all come from the batches requested
    o.calls <= |Flatten(batches[..o.sampled])| &&
    (o.status == QuotaMet ==> |o.records| == Target(nValid)) &&
    (o.status == StreamExhausted ==>
       o.sampled == |batches| && o.calls == |stream| && |o.records| < nValid)
  }

  lemma IdsSnoc(list: seq<Record>, r: Record)
    ensures Ids(list + [r]) == Ids(list) + {r.panoId}
  {
    var l := list + [r];
    assert forall k :: 0 <= k < |list| ==> l[k] == list[k];
    assert l[|list|] == r;
  }

  lemma {:induction false} FlattenPrefix(batches: seq<seq<Candidate>>, s: nat)
    requires s <= |batches|
    ensures |Flatten(batches[..s])| <= |Flatten(batches)|
    ensures Flatten(batches)[..|Flatten(batches[..s])|] == Flatten(batches[..s])
    decreases |batches|
  {
    if s < |batches| {
      var front := batches[..|batches| - 1];
      assert front[..s] == batches[..s];
      FlattenPrefix(front, s);
    } else {
      assert batches[..s] == batches;
    }
  }

  lemma FlattenSnoc(batches: seq<seq<Candidate>>, s: nat)
    requires s < |batches|
    ensures Flatten(batches[..s + 1]) == Flatten(batches[..s]) + batches[s]
  {
    assert batches[..s + 1][..s] == batches[..s];
  }

  lemma CollectSnoc(country: string, cs: seq<Candidate>, c: Candidate)
    ensures Collect(country, cs + [c]) == Accept(country, Collect(country, cs), c)
  {
    assert (cs + [c])[..|cs|] == cs;
  }

  /** Appending a candidate moves the first OK position of an id only when the id
      had no OK reply before. */
  lemma FirstOkIndexSnoc(cs: seq<Candidate>, c: Candidate, id: string)
    ensures FirstOkIndex(cs + [c], id) ==
      if FirstOkIndex(cs, id) < |cs| then FirstOkIndex(cs, id)
      else if c.reply.Ok? && c.reply.panoId == id then |cs|
      else |cs| + 1
  {
    var k := FirstOkIndex(cs, id);
    var k' := FirstOkIndex(cs + [c], id);
    var l := cs + [c];
    assert forall j :: 0 <= j < |cs| ==> l[j] == cs[j];
    assert l[|cs|] == c;
    if k < |cs| {
      assert k' <= k;
    } else {
      assert |cs| <= k';
    }
  }

  /** Records built from replies of p keep their first OK position in p + [c]. */
  lemma FirstOkIndexStable(p: seq<Candidate>, c: Candidate, prev: seq<Record>)
    requires forall i :: 0 <= i < |prev| ==> FirstOkIndex(p, prev[i].panoId) < |p|
    ensures forall i :: 0 <= i < |prev| ==>
      FirstOkIndex(p + [c], prev[i].panoId) == FirstOkIndex(p, prev[i].panoId)
  {
    forall i | 0 <= i < |prev|
      ensures FirstOkIndex(p + [c], prev[i].panoId) == FirstOkIndex(p, prev[i].panoId)
    {
      FirstOkIndexSnoc(p, c, prev[i].panoId);
    }
  }

  /** A skipped reply keeps the list the list of first occurrences. */
  lemma SkipFirstOccurrences(country: string, p: seq<Candidate>, c: Candidate, prev: seq<Record>)
    requires FirstOccurrences(country, p, prev)
    requires !(c.reply.Ok? && c.reply.panoId !in Ids(prev))
    ensures FirstOccurrences(country, p + [c], prev)
  {
    var cs := p + [c];
    FirstOkIndexStable(p, c, prev);
    assert forall k :: 0 <= k < |p| ==> cs[k] == p[k];
  }

  lemma AddFromFirstReplies(country: string, p: seq<Candidate>, c: Candidate, prev: seq<Record>)
    requires FirstOccurrences(country, p, prev)
    requires c.reply.Ok? && FirstOkIndex(p + [c], c.reply.panoId) == |p|
    ensures FromFirstReplies(country, p + [c],
              prev + [Record(country, c.reply.lat, c.reply.lng, c.reply.panoId)])
  {
    var cs := p + [c];
    var next := prev + [Record(country, c.reply.lat, c.reply.lng, c.reply.panoId)];
    FirstOkIndexStable(p, c, prev);
    forall i | 0 <= i < |next|
      ensures var k := FirstOkIndex(cs, next[i].panoId);
        k < |cs| && next[i] == Record(country, cs[k].reply.lat, cs[k].reply.lng, cs[k].reply.panoId)
    {
      if i < |prev| {
        assert next[i] == prev[i];
        assert cs[FirstOkIndex(p, prev[i].panoId)] == p[FirstOkIndex(p, prev[i].panoId)];
      } else {
        assert cs[|p|] == c;
      }
    }
  }

  lemma AddInFirstReplyOrder(country: string, p: seq<Candidate>, c: Candidate, prev: seq<Record>)
    requires FirstOccurrences(country, p, prev)
    requires c.reply.Ok? && FirstOkIndex(p + [c], c.reply.panoId) == |p|
    ensures InFirstReplyOrder(p + [c], prev + [Record(country, c.reply.lat, c.reply.lng, c.reply.panoId)])
  {
    var cs := p + [c];
    var next := prev + [Record(country, c.reply.lat, c.reply.lng, c.reply.panoId)];
    FirstOkIndexStable(p, c, prev);
    forall i, j | 0 <= i < j < |next|
      ensures FirstOkIndex(cs, next[i].panoId) < FirstOkIndex(cs, next[j].panoId)
    {
      assert next[i] == prev[i];
      if j < |prev| {
        assert next[j] == prev[j];
      }
    }
  }

  lemma AddCoversOkReplies(country: string, p: seq<Candidate>, c: Candidate, prev: seq<Record>)
    requires CoversOkReplies(p, prev)
    requires c.reply.Ok?
    ensures CoversOkReplies(p + [c], prev + [Record(country, c.reply.lat, c.reply.lng, c.reply.panoId)])
  {
    var cs := p + [c];
    var rec := Record(country, c.reply.lat, c.reply.lng, c.reply.panoId);
    IdsSnoc(prev, rec);
    forall k | 0 <= k < |cs| && cs[k].reply.Ok?
      ensures cs[k].reply.panoId in Ids(prev + [rec])
    {
      if k < |p| {
        assert cs[k] == p[k];
      }
    }
  }

  /** An accepted reply extends the list of first occurrences by its record. */
  lemma AddFirstOccurrences(country: string, p: seq<Candidate>, c: Candidate, prev: seq<Record>)
    requires FirstOccurrences(country, p, prev)
    requires c.reply.Ok? && c.reply.panoId !in Ids(prev)
    ensures FirstOccurrences(country, p + [c],
              prev + [Record(country, c.reply.lat, c.reply.lng, c.reply.panoId)])
  {
    var id := c.reply.panoId;
    FirstOkIndexSnoc(p, c, id);
    assert FirstOkIndex(p, id) == |p|;
    AddFromFirstReplies(country, p, c, prev);
    AddInFirstReplyOrder(country, p, c, prev);
    AddCoversOkReplies(country, p, c, prev);
  }

  /** One step of the fold keeps the list the list of first occurrences. */
  lemma AcceptFirstOccurrences(country: string, p: seq<Candidate>, c: Candidate, prev: seq<Record>)
    requires FirstOccurrences(country, p, prev)
    ensures FirstOccurrences(country, p + [c], Accept(country, prev, c))
  {
    if c.reply.Ok? && c.reply.panoId !in Ids(prev) {
      AddFirstOccurrences(country, p, c, prev);
    } else {
      SkipFirstOccurrences(country, p, c, prev);
    }
  }

  /** The fold of the per-reply step lists exactly the first occurrences. */
  lemma {:induction false} CollectFirstOccurrences(country: string, cs: seq<Candidate>)
    ensures FirstOccurrences(country, cs, Collect(country, cs))
    decreases |cs|
  {
    if cs != [] {
      var p := cs[..|cs| - 1];
      assert cs == p + [cs[|cs| - 1]];
      CollectFirstOccurrences(country, p);
      AcceptFirstOccurrences(country, p, cs[|cs| - 1], Collect(country, p));
    }
  }

  /** Ids in the list are pairwise distinct. */
  lemma CollectDistinct(country: string, cs: seq<Candidate>)
    ensures DistinctIds(Collect(country, cs))
  {
    CollectFirstOccurrences(country, cs);
  }

  /** The seen set is exactly the set of ids with an OK reply so far. */
  lemma CollectIds(country: string, cs: seq<Candidate>)
    ensures Ids(Collect(country, cs)) == OkIds(cs)
  {
    CollectFirstOccurrences(country, cs);
    var list := Collect(country, cs);
    forall id | id in Ids(list) ensures id in OkIds(cs) {
      var i :| 0 <= i < |list| && list[i].panoId == id;
      var k := FirstOkIndex(cs, id);
      assert cs[k].reply.Ok? && cs[k].reply.panoId == id;
    }
  }

  lemma {:induction false} DistinctIdsCount(list: seq<Record>)
    requires DistinctIds(list)
    ensures |Ids(list)| == |list|
    decreases |list|
  {
    if list != [] {
      var front := list[..|list| - 1];
      var last := list[|list| - 1];
      assert list == front + [last];
      DistinctIdsCount(front);
      IdsSnoc(front, last);
      assert forall i :: 0 <= i < |front| ==> front[i] == list[i];
      assert last.panoId !in Ids(front);
    }
  }

  /** The seen set and the list stay in one-to-one correspondence. */
  lemma CollectOneToOne(country: string, cs: seq<Candidate>)
    ensures |Ids(Collect(country, cs))| == |Collect(country, cs)|
    ensures |Collect(country, cs)| == |OkIds(cs)|
  {
    CollectDistinct(country, cs);
    DistinctIdsCount(Collect(country, cs));
    CollectIds(country, cs);
  }

  /** The list is append-only: later candidates never change earlier records. */
  lemma {:induction false} CollectAppendOnly(country: string, cs: seq<Candidate>, more: seq<Candidate>)
    ensures |Collect(country, cs)| <= |Collect(country, cs + more)|
    ensures Collect(country, cs + more)[..|Collect(country, cs)|] == Collect(country, cs)
    decreases |more|
  {
    if more == [] {
      assert cs + more == cs;
    } else {
      var m := more[..|more| - 1];
      var c := more[|more| - 1];
      assert cs + more == (cs + m) + [c];
      CollectAppendOnly(country, cs, m);
      CollectSnoc(country, cs + m, c);
    }
  }

  /** Candidates whose reply is not OK, or whose id is already in the seen set,
      leave the list as it is: re-submitting an accepted id never grows it. */
  lemma {:induction false} IgnoredLeaveUnchanged(country: string, cs: seq<Candidate>, more: seq<Candidate>)
    requires forall k :: 0 <= k < |more| && more[k].reply.Ok? ==>
               more[k].reply.panoId in Ids(Collect(country, cs))
    ensures Collect(country, cs + more) == Collect(country, cs)
    decreases |more|
  {
    if more != [] {
      var m := more[..|more| - 1];
      var c := more[|more| - 1];
      assert cs + more == (cs + m) + [c];
      assert forall k :: 0 <= k < |m| ==> m[k] == more[k];
      IgnoredLeaveUnchanged(country, cs, m);
      CollectSnoc(country, cs + m, c);
    } else {
      assert cs + more == cs;
    }
  }

  /** A prefix of the candidates never yields more records than a longer one. */
  lemma CollectPrefixMonotone(country: string, cs: seq<Candidate>, a: nat, b: nat)
    requires a <= b <= |cs|
    ensures |Collect(country, cs[..a])| <= |Collect(country, cs[..b])|
  {
    assert cs[..b] == cs[..a] + cs[a..b];
    CollectAppendOnly(country, cs[..a], cs[a..b]);
  }

  lemma CollectStep(country: string, stream: seq<Candidate>, n: nat)
    requires n < |stream|
    ensures Collect(country, stream[..n + 1]) == Accept(country, Collect(country, stream[..n]), stream[n])
  {
    assert stream[..n + 1] == stream[..n] + [stream[n]];
    CollectSnoc(country, stream[..n], stream[n]);
  }

  /** The state of the loop after the first `calls` requests of the stream:
      the list is what they yield, the seen set holds its ids, and every request
      was made while the quota was unmet. */
  predicate Progress(country: string, stream: seq<Candidate>, nValid: int, calls: nat,
                     countryList: seq<Record>, panoIds: set<string>)
  {
    calls <= |stream| &&
    countryList == Collect(country, stream[..calls]) &&
    panoIds == Ids(countryList) && |panoIds| == |countryList| &&
    |countryList| <= Target(nValid) &&
    (forall k :: 0 <= k < calls ==> UnmetAfterCalls(country, stream, k, nValid))
  }

  lemma ProgressStart(country: string, stream: seq<Candidate>, nValid: int)
    ensures Progress(country, stream, nValid, 0, [], {})
  {
    assert stream[..0] == [];
  }

  /** Handling one more reply while the quota is unmet keeps the loop state:
      `nextList` and `nextIds` are the list and the seen set after the reply. */
  lemma ProgressStep(country: string, stream: seq<Candidate>, nValid: int, calls: nat,
                     countryList: seq<Record>, panoIds: set<string>,
                     nextList: seq<Record>, nextIds: set<string>)
    requires Progress(country, stream, nValid, calls, countryList, panoIds)
    requires calls < |stream| && |panoIds| < nValid
    requires var c := stream[calls];
      if c.reply.Ok? && c.reply.panoId !in panoIds then
        nextIds == panoIds + {c.reply.panoId} &&
        nextList == countryList + [Record(country, c.reply.lat, c.reply.lng, c.reply.panoId)]
      else
        nextIds == panoIds && nextList == countryList
    ensures Progress(country, stream, nValid, calls + 1, nextList, nextIds)
  {
    var c := stream[calls];
    CollectStep(country, stream, calls);
    if c.reply.Ok? && c.reply.panoId !in panoIds {
      IdsSnoc(countryList, Record(country, c.reply.lat, c.reply.lng, c.reply.panoId));
    }
  }

  /** The loop returns, with the quota met or the stream exhausted. */
  lemma ProgressDone(country: string, batches: seq<seq<Candidate>>, nValid: int, status: Status,
                     calls: nat, sampled: nat, countryList: seq<Record>, panoIds: set<string>)
    requires Progress(country, Flatten(batches), nValid, calls, countryList, panoIds)
    requires sampled <= |batches| && calls <= |Flatten(batches[..sampled])|
    requires forall s :: 0 <= s < sampled ==> UnmetAfterBatches(country, batches, s, nValid)
    requires status == QuotaMet ==> |panoIds| >= nValid
    requires status == StreamExhausted ==>
      sampled == |batches| && calls == |Flatten(batches)| && |panoIds| < nValid
    ensures IsAcquisition(country, batches, nValid, Outcome(status, countryList, calls, sampled))
  {
  }

  /** The state of the loop after `sampled` batches and `calls` requests: the
      requests come from those batches, the request state is as Progress says,
      and every batch was requested while the quota was unmet. */
  predicate Scanning(country: string, batches: seq<seq<Candidate>>, nValid: int, sampled: nat,
                     calls: nat, countryList: seq<Record>, panoIds: set<string>)
  {
    sampled <= |batches| && calls <= |Flatten(batches[..sampled])| &&
    Progress(country, Flatten(batches), nValid, calls, countryList, panoIds) &&
    (forall s :: 0 <= s < sampled ==> UnmetAfterBatches(country, batches, s, nValid))
  }

  /** `points`, the last of the first `sampled` batches, occupies the stream from `start` on. */
  predicate BatchAt(batches: seq<seq<Candidate>>, sampled: nat, start: nat, points: seq<Candidate>)
  {
    0 < sampled <= |batches| && points == batches[sampled - 1] &&
    start + |points| == |Flatten(batches[..sampled])| <= |Flatten(batches)| &&
    Flatten(batches)[start..start + |points|] == points
  }

  lemma ScanStart(country: string, batches: seq<seq<Candidate>>, nValid: int)
    ensures Scanning(country, batches, nValid, 0, 0, [], {})
    ensures |Flatten(batches[..0])| == 0
  {
    ProgressStart(country, Flatten(batches), nValid);
    assert batches[..0] == [];
  }

  /** Requesting batch `sampled` while the quota is unmet: its points are the
      next requests of the stream, and the batch was requested while unmet. */
  lemma NextBatch(country: string, batches: seq<seq<Candidate>>, nValid: int, sampled: nat,
                  calls: nat, countryList: seq<Record>, panoIds: set<string>)
    requires Scanning(country, batches, nValid, sampled, calls, countryList, panoIds)
    requires sampled < |batches| && calls == |Flatten(batches[..sampled])| && |panoIds| < nValid
    ensures Scanning(country, batches, nValid, sampled + 1, calls, countryList, panoIds)
    ensures BatchAt(batches, sampled + 1, calls, batches[sampled])
  {
    var stream := Flatten(batches);
    FlattenPrefix(batches, sampled);
    assert UnmetAfterBatches(country, batches, sampled, nValid);
    FlattenSnoc(batches, sampled);
    FlattenPrefix(batches, sampled + 1);
    var whole := Flatten(batches[..sampled + 1]);
    assert stream[..|whole|] == whole;
    assert stream[calls..calls + |batches[sampled]|] == whole[calls..];
  }

  /** Handling point i of the current batch while the quota is unmet keeps the
      loop state; `nextList` and `nextIds` are the list and seen set after it. */
  lemma ScanStep(country: string, batches: seq<seq<Candidate>>, nValid: int, sampled: nat,
                 start: nat, points: seq<Candidate>, i: nat, c: Candidate,
                 countryList: seq<Record>, panoIds: set<string>,
                 nextList: seq<Record>, nextIds: set<string>)
    requires Scanning(country, batches, nValid, sampled, start + i, countryList, panoIds)
    requires BatchAt(batches, sampled, start, points) && i < |points| && c == points[i]
    requires |panoIds| < nValid
    requires
      if c.reply.Ok? && c.reply.panoId !in panoIds then
        nextIds == panoIds + {c.reply.panoId} &&
        nextList == countryList + [Record(country, c.reply.lat, c.reply.lng, c.reply.panoId)]
      else
        nextIds == panoIds && nextList == countryList
    ensures Scanning(country, batches, nValid, sampled, start + i + 1, nextList, nextIds)
  {
    var stream := Flatten(batches);
    assert points[i] == stream[start..start + |points|][i] == stream[start + i];
    ProgressStep(country, stream, nValid, start + i, countryList, panoIds, nextList, nextIds);
  }

  /** The loop returns, with the quota met or the stream exhausted. */
  lemma ScanDone(country: string, batches: seq<seq<Candidate>>, nValid: int, status: Status,
                 sampled: nat, calls: nat, countryList: seq<Record>, panoIds: set<string>)
    requires Scanning(country, batches, nValid, sampled, calls, countryList, panoIds)
    requires status == QuotaMet ==> |panoIds| >= nValid
    requires status == StreamExhausted ==>
      sampled == |batches| && calls == |Flatten(batches[..sampled])| && |panoIds| < nValid
    ensures IsAcquisition(country, batches, nValid, Outcome(status, countryList, calls, sampled))
  {
    if status == StreamExhausted {
      assert batches[..sampled] == batches;
    }
    ProgressDone(country, batches, nValid, status, calls, sampled, countryList, panoIds);
  }

  /** The loop itself. `batches[s]` is what the s-th call of sample_points
      returns, each point paired with the reply its lookup gets. */
  method GetValidPanoIds(countryName: string, batches: seq<seq<Candidate>>, nValid: int)
    returns (o: Outcome)
    ensures IsAcquisition(countryName, batches, nValid, o)
  {
    var countryList: seq<Record> := [];
    var panoIds: set<string> := {};
    var calls := 0;
    var sampled := 0;
    ScanStart(countryName, batches, nValid);
    while |panoIds| < nValid
      invariant Scanning(countryName, batches, nValid, sampled, calls, countryList, panoIds)
      invariant calls == |Flatten(batches[..sampled])|
      decreases |batches| - sampled
    {
      if sampled == |batches| {
        ScanDone(countryName, batches, nValid, StreamExhausted, sampled, calls, countryList, panoIds);
        return Outcome(StreamExhausted, countryList, calls, sampled);
      }
      NextBatch(countryName, batches, nValid, sampled, calls, countryList, panoIds);
      var points := batches[sampled];
      sampled := sampled + 1;
      ghost var start := calls;
      for i := 0 to |points|
        invariant calls == start + i
        invariant BatchAt(batches, sampled, start, points)
        invariant Scanning(countryName, batches, nValid, sampled, calls, countryList, panoIds)
      {
        if |panoIds| >= nValid {
          ScanDone(countryName, batches, nValid, QuotaMet, sampled, calls, countryList, panoIds);
          return Outcome(QuotaMet, countryList, calls, sampled);
        }
        var j := points[i];
        ghost var oldList, oldIds := countryList, panoIds;
        if j.reply.Ok? {
          var pId := j.reply.panoId;
          if pId !in panoIds {
            panoIds := panoIds + {pId};
            countryList := countryList + [Record(countryName, j.reply.lat, j.reply.lng, pId)];
          }
        }
        ScanStep(countryName, batches, nValid, sampled, start, points, i, j, oldList, oldIds, countryList, panoIds);
        calls := calls + 1;
      }
    }
    ScanDone(countryName, batches, nValid, QuotaMet, sampled, calls, countryList, panoIds);
    return Outcome(QuotaMet, countryList, calls, sampled);
  }

  /** The list returned is the list of first occurrences among the replies
      requested: ids pairwise distinct, each record tagged with the country and
      carrying the lookup's own location. */
  lemma AcquisitionRecords(country: string, batches: seq<seq<Candidate>>, nValid: int, o: Outcome)
    requires IsAcquisition(country, batches, nValid, o)
    ensures FirstOccurrences(country, Flatten(batches)[..o.calls], o.records)
    ensures DistinctIds(o.records)
    ensures |Ids(o.records)| == |o.records|
    ensures forall i :: 0 <= i < |o.records| ==> o.records[i].country == country
  {
    var prefix := Flatten(batches)[..o.calls];
    CollectFirstOccurrences(country, prefix);
    CollectOneToOne(country, prefix);
  }

  /** The outcome is a function of the inputs: the relation above admits one. */
  lemma AcquisitionDeterministic(country: string, batches: seq<seq<Candidate>>, nValid: int, o1: Outcome, o2: Outcome)
    requires IsAcquisition(country, batches, nValid, o1)
    requires IsAcquisition(country, batches, nValid, o2)
    ensures o1 == o2
  {
    var stream := Flatten(batches);
    assert stream[..|stream|] == stream;
    SampledDetermined(country, batches, nValid, o1, o2);
    SampledDetermined(country, batches, nValid, o2, o1);
  }

  lemma SampledDetermined(country: string, batches: seq<seq<Candidate>>, nValid: int, o1: Outcome, o2: Outcome)
    requires IsAcquisition(country, batches, nValid, o1)
    requires IsAcquisition(country, batches, nValid, o2)
    ensures o2.calls <= o1.calls
    ensures o2.sampled <= o1.sampled
  {
    var stream := Flatten(batches);
    var s := o1.sampled;
    FlattenPrefix(batches, s);
    var len := |Flatten(batches[..s])|;
    assert o1.calls < o2.calls ==> UnmetAfterCalls(country, stream, o1.calls, nValid);
    if o2.calls <= o1.calls && s < o2.sampled {
      assert UnmetAfterBatches(country, batches, s, nValid);
      assert Flatten(batches[..s]) == stream[..len];
      CollectPrefixMonotone(country, stream, o1.calls, len);
    }
  }

  /** The quota is met exactly when the given batches hold at least n_valid
      distinct ids with an OK reply; otherwise they run out and the program
      would keep requesting batches. */
  lemma QuotaMetIff(country: string, batches: seq<seq<Candidate>>, nValid: int, o: Outcome)
    requires IsAcquisition(country, batches, nValid, o)
    ensures o.status == QuotaMet <==> |OkIds(Flatten(batches))| >= nValid
  {
    var stream := Flatten(batches);
    var prefix := stream[..o.calls];
    CollectOneToOne(country, prefix);
    CollectOneToOne(country, stream);
    assert stream[..|stream|] == stream;
    if o.status == QuotaMet {
      assert OkIds(prefix) <= OkIds(stream) by {
        forall id | id in OkIds(prefix) ensures id in OkIds(stream) {
          var k :| 0 <= k < |prefix| && prefix[k].reply.Ok? && prefix[k].reply.panoId == id;
          assert stream[k] == prefix[k];
        }
      }
      SubsetCard(OkIds(prefix), OkIds(stream));
    }
  }

  lemma SubsetCard(a: set<string>, b: set<string>)
    requires a <= b
    ensures |a| <= |b|
  {
    assert b == a + (b - a);
  }

  /** When the quota is met with n_valid > 0 the last request sent is the one
      that completed it: no lookup is made once the quota is reached. */
  lemma LastCallCompletesQuota(country: string, batches: seq<seq<Candidate>>, nValid: int, o: Outcome)
    requires IsAcquisition(country, batches, nValid, o)
    requires o.status == QuotaMet && nValid > 0
    ensures 0 < o.calls
    ensures |Collect(country, Flatten(batches)[..o.calls - 1])| == nValid - 1
    ensures Flatten(batches)[o.calls - 1].reply.Ok?
  {
    var stream := Flatten(batches);
    assert stream[..0] == [];
    var k := o.calls - 1;
    assert UnmetAfterCalls(country, stream, k, nValid);
    assert stream[..o.calls] == stream[..k] + [stream[k]];
    CollectSnoc(country, stream[..k], stream[k]);
  }
}
