/**
Decoding of a provider response: what the client accepts, and that everything
it accepts from an honest provider is what the store will accept in turn.
 */
module SieDecoding {
  import opened Base
  import opened RateTypes
  import opened Batching
  import opened RateCache
  import opened RateWork

  // A row with the outcomes of reading its date and its decimal value.
  datatype WireObservation = WireObservation(date: Option<Day>, value: Option<Decimal>)

  datatype WireSeries = WireSeries(id: string, rows: seq<WireObservation>, failed: bool)

  predicate Parses(w: WireObservation) {
    w.date.Some? && w.value.Some? && w.value.value.coefficient > 0
  }

  predicate Clean(s: WireSeries) {
    !s.failed && forall w | w in s.rows :: Parses(w)
  }

  function Rows(s: WireSeries): seq<ProviderObservation>
    requires Clean(s)
  {
    seq(|s.rows|, i requires 0 <= i < |s.rows| =>
      assert s.rows[i] in s.rows; ProviderObservation(s.id, s.rows[i].date.value, s.rows[i].value.value))
  }

  /** All rows of all series, in the order of the response. */
  function Listing(ws: seq<WireSeries>): seq<ProviderObservation>
    requires forall w | w in ws :: Clean(w)
  {
    if ws == [] then [] else Listing(ws[..|ws| - 1]) + Rows(ws[|ws| - 1])
  }

  ghost predicate NoRepeats(obs: seq<ProviderObservation>) {
    forall i, j | 0 <= i < j < |obs| :: obs[i].id != obs[j].id || obs[i].date != obs[j].date
  }

  /** Requested series only, none twice; no errors, positive values, no day of a series twice. */
  ghost predicate Accepted(ws: seq<WireSeries>, requested: set<string>) {
    && (forall w | w in ws :: w.id in requested && Clean(w))
    && (forall i, j | 0 <= i < j < |ws| :: ws[i].id != ws[j].id)
    && NoRepeats(Listing(ws))
  }

  ghost predicate Answered(ws: seq<WireSeries>, requested: set<string>) {
    forall id | id in requested :: exists w :: w in ws && w.id == id
  }

  ghost predicate Decodable(ws: seq<WireSeries>, requested: set<string>) {
    Accepted(ws, requested) && Answered(ws, requested)
  }

  ghost function Ids(ws: seq<WireSeries>): set<string> {
    set w | w in ws :: w.id
  }

  method DecodeResponse(
    body: Option<seq<WireSeries>>, requested: set<string>)
    returns (r: Option<seq<ProviderObservation>>)
    ensures r.Some? <==> body.Some? && Decodable(body.value, requested)
    ensures r.Some? ==> r.value == Listing(body.value)
  {
    if body.None? {
      return None;
    }
    var ws := body.value;
    var seenSeries: set<string> := {};
    var seen: set<(string, Day)> := {};
    var result: seq<ProviderObservation> := [];
    for i := 0 to |ws|
      invariant Accepted(ws[..i], requested) && seenSeries == Ids(ws[..i])
      invariant result == Listing(ws[..i]) && seen == Coordinates(result)
    {
      var ok;
      ok, seenSeries, seen, result := DecodeNext(ws, i, requested, seenSeries, seen, result);
      if !ok {
        RefusedPrefix(ws, requested, i + 1);
        return None;
      }
    }
    assert ws[..|ws|] == ws;
    AllRequested(ws, requested);
    if |seenSeries| != |requested| {
      return None;
    }
    return Some(result);
  }

  /** Counting the series seen tells whether any requested one is missing. */
  lemma AllRequested(ws: seq<WireSeries>, requested: set<string>)
    requires forall w | w in ws :: w.id in requested
    ensures |Ids(ws)| == |requested| <==> Answered(ws, requested)
  {
    if |Ids(ws)| == |requested| {
      SameSize(Ids(ws), requested);
    }
    if Answered(ws, requested) {
      assert Ids(ws) == requested;
    }
  }

  lemma RefusedPrefix(ws: seq<WireSeries>, requested: set<string>, n: nat)
    requires n <= |ws| && !Accepted(ws[..n], requested)
    ensures !Accepted(ws, requested)
  {
    if Accepted(ws, requested) {
      ListingExtends(ws, n);
      RepeatsStay(Listing(ws[..n]), Listing(ws));
    }
  }

  /** The checks on one more series of the response. */
  method DecodeNext(
    ws: seq<WireSeries>, i: nat, requested: set<string>, seenSeries: set<string>, seen: set<(string, Day)>,
    prior: seq<ProviderObservation>)
    returns (ok: bool, newSeries: set<string>, newSeen: set<(string, Day)>, result: seq<ProviderObservation>)
    requires i < |ws| && Accepted(ws[..i], requested) && seenSeries == Ids(ws[..i])
    requires prior == Listing(ws[..i]) && seen == Coordinates(prior)
    ensures ok <==> Accepted(ws[..i + 1], requested)
    ensures ok ==> result == Listing(ws[..i + 1]) && newSeen == Coordinates(result) && newSeries == Ids(ws[..i + 1])
  {
    var w := ws[i];
    assert ws[..i + 1] == ws[..i] + [w];
    assert ws[..i + 1][..i] == ws[..i] && w in ws[..i + 1];
    if w.id !in requested || w.id in seenSeries || w.failed {
      return false, seenSeries, seen, prior;
    }
    newSeries := seenSeries + {w.id};
    ok, newSeen, result := DecodeSeries(w, seen, prior);
  }

  ghost function Coordinates(obs: seq<ProviderObservation>): set<(string, Day)> {
    set o | o in obs :: (o.id, o.date)
  }

  /** The rows of one series; a repeated day, here or earlier, refuses the response. */
  method DecodeSeries(w: WireSeries, seen: set<(string, Day)>, prior: seq<ProviderObservation>)
    returns (ok: bool, newSeen: set<(string, Day)>, result: seq<ProviderObservation>)
    requires !w.failed && NoRepeats(prior) && seen == Coordinates(prior)
    ensures ok <==> Clean(w) && NoRepeats(prior + Rows(w))
    ensures ok ==> result == prior + Rows(w) && newSeen == Coordinates(result)
  {
    newSeen, result := seen, prior;
    for i := 0 to |w.rows|
      invariant forall x | x in w.rows[..i] :: Parses(x)
      invariant result == prior + Rows(w.(rows := w.rows[..i]))
      invariant NoRepeats(result) && newSeen == Coordinates(result)
    {
      var item := w.rows[i];
      assert item in w.rows;
      if !Parses(item) {
        return false, seen, prior;
      }
      assert w.rows[..i + 1] == w.rows[..i] + [item];
      var o := ProviderObservation(w.id, item.date.value, item.value.value);
      assert Rows(w.(rows := w.rows[..i + 1])) == Rows(w.(rows := w.rows[..i])) + [o];
      assert result + [o] == prior + Rows(w.(rows := w.rows[..i + 1]));
      if (o.id, o.date) in newSeen {
        if Clean(w) {
          RepeatFound(w, prior, i, o);
        }
        return false, seen, prior;
      }
      result := result + [o];
      newSeen := newSeen + {(o.id, o.date)};
    }
    assert w.(rows := w.rows[..|w.rows|]) == w;
    return true, newSeen, result;
  }

  lemma RepeatFound(w: WireSeries, prior: seq<ProviderObservation>, i: nat, o: ProviderObservation)
    requires Clean(w) && i < |w.rows| && (forall x | x in w.rows[..i] :: Parses(x)) && Rows(w)[i] == o
    requires (o.id, o.date) in Coordinates(prior + Rows(w.(rows := w.rows[..i])))
    ensures !NoRepeats(prior + Rows(w))
  {
    var all, part := prior + Rows(w), prior + Rows(w.(rows := w.rows[..i]));
    var k :| 0 <= k < |part| && (part[k].id, part[k].date) == (o.id, o.date);
    assert all[k] == part[k] && all[|prior| + i] == o;
  }

  lemma RepeatsStay(part: seq<ProviderObservation>, all: seq<ProviderObservation>)
    requires part <= all && !NoRepeats(part)
    ensures !NoRepeats(all)
  {
    var i, j :| 0 <= i < j < |part| && part[i].id == part[j].id && part[i].date == part[j].date;
    assert all[i] == part[i] && all[j] == part[j];
  }

  lemma {:induction false} ListingExtends(ws: seq<WireSeries>, n: nat)
    requires n <= |ws| && forall w | w in ws :: Clean(w)
    ensures Listing(ws[..n]) <= Listing(ws)
    decreases |ws|
  {
    if n == |ws| {
      assert ws[..n] == ws;
    } else {
      ListingExtends(ws[..|ws| - 1], n);
      assert ws[..|ws| - 1][..n] == ws[..n];
    }
  }

  lemma SameSize<T>(a: set<T>, b: set<T>)
    requires a <= b && |a| == |b|
    ensures a == b
  {
    assert |b - a| == 0;
  }

  // ---- from provider to store ----------------------------------------------

  lemma {:induction false} InListing(ws: seq<WireSeries>, o: ProviderObservation)
    requires forall w | w in ws :: Clean(w)
    ensures o in Listing(ws) <==> exists w :: w in ws && o in Rows(w)
  {
    if ws != [] {
      var last := ws[|ws| - 1];
      assert ws == ws[..|ws| - 1] + [last];
      InListing(ws[..|ws| - 1], o);
    }
  }

  /**
  The response lists, for each requested series, the provider's observations:
  all of the requested days for a range, at least one dated one for a latest.
   */
  ghost predicate Faithful(p: Provider, req: FetchRequest, ws: seq<WireSeries>) {
    && (forall w | w in ws :: w.id in req.ids && Clean(w) && FaithfulSeries(p, req, w))
    && (forall i, j | 0 <= i < j < |ws| :: ws[i].id != ws[j].id)
    && (forall id | id in req.ids :: exists w :: w in ws && w.id == id)
  }

  predicate InPeriod(req: FetchRequest, d: Day) {
    d != 0 && (req.kind.FetchRange? ==> req.from <= d <= req.to)
  }

  ghost predicate FaithfulSeries(p: Provider, req: FetchRequest, w: WireSeries)
    requires Clean(w)
  {
    && NoRepeats(Rows(w))
    && (forall o | o in Rows(w) :: p(o.id, o.date) == Some(o.value) && InPeriod(req, o.date))
    && (req.kind.FetchLatest? ==> w.rows != [])
    && (req.kind.FetchRange? ==>
          forall d | req.from <= d <= req.to && p(w.id, d).Some? ::
            ProviderObservation(w.id, d, p(w.id, d).value) in Rows(w))
  }

  lemma {:induction false} ListingNoRepeats(ws: seq<WireSeries>)
    requires forall w | w in ws :: Clean(w) && NoRepeats(Rows(w))
    requires forall i, j | 0 <= i < j < |ws| :: ws[i].id != ws[j].id
    ensures NoRepeats(Listing(ws))
  {
    if ws != [] {
      var prior, last := ws[..|ws| - 1], ws[|ws| - 1];
      assert ws == prior + [last];
      ListingNoRepeats(prior);
      var a, b := Listing(prior), Rows(last);
      forall i | 0 <= i < |a| ensures a[i].id != last.id {
        InListing(prior, a[i]);
        var w :| w in prior && a[i] in Rows(w);
        assert a[i].id == w.id;
      }
      assert NoRepeats(a + b);
    }
  }

  lemma FaithfulIsDecodable(p: Provider, req: FetchRequest, ws: seq<WireSeries>)
    requires Faithful(p, req, ws)
    ensures Decodable(ws, set id | id in req.ids)
  {
    ListingNoRepeats(ws);
  }

  lemma FaithfulRow(p: Provider, req: FetchRequest, ws: seq<WireSeries>, o: ProviderObservation)
    requires Faithful(p, req, ws) && o in Listing(ws)
    ensures p(o.id, o.date) == Some(o.value) && InPeriod(req, o.date) && o.id in req.ids && o.value.coefficient > 0
  {
    InListing(ws, o);
    var w :| w in ws && o in Rows(w);
    var i :| 0 <= i < |w.rows| && Rows(w)[i] == o;
    assert Parses(w.rows[i]);
  }

  lemma FaithfulIsTotal(p: Provider, req: FetchRequest, ws: seq<WireSeries>, id: string, d: Day)
    requires Faithful(p, req, ws) && id in req.ids && req.kind.FetchRange?
    requires req.from <= d <= req.to && p(id, d).Some?
    ensures ProviderObservation(id, d, p(id, d).value) in Listing(ws)
  {
    var w :| w in ws && w.id == id;
    InListing(ws, ProviderObservation(id, d, p(id, d).value));
  }

  lemma FaithfulNamesAll(p: Provider, req: FetchRequest, ws: seq<WireSeries>, id: string)
    requires Faithful(p, req, ws) && id in req.ids && req.kind.FetchLatest?
    ensures exists o :: o in Listing(ws) && o.id == id
  {
    var w :| w in ws && w.id == id;
    assert Rows(w)[0] in Rows(w);
    InListing(ws, Rows(w)[0]);
  }

  lemma FaithfulIsHonest(p: Provider, batch: seq<Unit>, ws: seq<WireSeries>)
    requires BatchOk(batch) && Faithful(p, RequestForBatch(batch), ws)
    ensures Honest(p, batch, Listing(ws))
  {
    var req := RequestForBatch(batch);
    assert forall i | 0 <= i < |batch| :: req.ids[i] == batch[i].series.id;
    forall o | o in Listing(ws) ensures p(o.id, o.date) == Some(o.value) {
      FaithfulRow(p, req, ws, o);
    }
    forall u | u in batch ensures u.series.id in req.ids {
    }
    if req.kind.FetchRange? {
      forall u, d | u in batch && req.from <= d <= req.to && p(u.series.id, d).Some?
        ensures ProviderObservation(u.series.id, d, p(u.series.id, d).value) in Listing(ws)
      {
        FaithfulIsTotal(p, req, ws, u.series.id, d);
      }
    } else {
      forall u | u in batch ensures exists o :: o in Listing(ws) && o.id == u.series.id {
        FaithfulNamesAll(p, req, ws, u.series.id);
      }
    }
  }

  /**
  End to end: a faithful response to the request of a batch is decoded, is an
  honest answer, and passes every check of the completing transaction but the
  leases, so that only losing a lease can keep it out of the cache.
   */
  lemma FaithfulResponseCompletes(p: Provider, c: Cache, nonce: Uuid, batch: seq<Unit>, ws: seq<WireSeries>)
    requires BatchOk(batch) && DistinctIds(batch) && Faithful(p, RequestForBatch(batch), ws)
    ensures Decodable(ws, set id | id in RequestForBatch(batch).ids) && Honest(p, batch, Listing(ws))
    ensures CanComplete(c, nonce, batch, RequestForBatch(batch), Listing(ws)) <==>
              forall u | u in batch :: Owned(c.rows, KeyOf(u), nonce)
  {
    var req := RequestForBatch(batch);
    FaithfulIsDecodable(p, req, ws);
    FaithfulIsHonest(p, batch, ws);
    forall o | o in Listing(ws) ensures Storable(batch, req, o) {
      FaithfulRow(p, req, ws, o);
      RequestedSeries(batch, o.id);
    }
    forall i, j | 0 <= i < j < |batch| ensures KeyOf(batch[i]) != KeyOf(batch[j]) {
      assert batch[i].series.id != batch[j].series.id;
    }
  }

  lemma RequestedSeries(batch: seq<Unit>, id: string)
    requires batch != [] && DistinctIds(batch) && id in RequestForBatch(batch).ids
    ensures SeriesFor(batch, id).Some?
  {
    var i :| 0 <= i < |batch| && RequestForBatch(batch).ids[i] == id;
    SeriesForUnit(batch, batch[i]);
  }
}
