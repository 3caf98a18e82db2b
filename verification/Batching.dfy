/**
Packing claimed units into provider requests: sort by period, then cut greedily
into runs of at most twenty units of one period; and the checks the provider
client applies to each request.
 */
module Batching {
  import opened Ordering
  import opened RateTypes

  const MAX_SERIES_PER_REQUEST := 20

  // Units fetched by one request agree on kind, first day and last fetched day.
  datatype Period = Period(kind: int, from: Day, fetchTo: Day)

  function PeriodOf(u: Unit): Period {
    match u
    case LatestUnit(_) => Period(0, 0, 0)
    case MonthUnit(_, from, _, fetchTo, _) => Period(1, from, fetchTo)
  }

  predicate PeriodLe(a: Period, b: Period) {
    if a.kind != b.kind then a.kind < b.kind
    else if a.from != b.from then a.from < b.from
    else a.fetchTo <= b.fetchTo
  }

  predicate UnitLe(a: Unit, b: Unit) {
    if PeriodOf(a) != PeriodOf(b) then PeriodLe(PeriodOf(a), PeriodOf(b)) else LexLe(a.series.id, b.series.id)
  }

  lemma UnitLeIsTotal()
    ensures TotalOrder(UnitLe)
  {
    LexIsTotalOrder();
  }

  /** Units of one period stand next to each other. */
  ghost predicate Grouped(us: seq<Unit>) {
    forall i, j, k | 0 <= i < j < k < |us| && PeriodOf(us[i]) == PeriodOf(us[k]) :: PeriodOf(us[j]) == PeriodOf(us[i])
  }

  /** How many leading units share the first one's period, capped at one request. */
  function Lead(us: seq<Unit>, n: nat): (r: nat)
    requires 0 < n <= |us|
    ensures n <= r <= |us|
    decreases |us| - n
  {
    if n < |us| && n < MAX_SERIES_PER_REQUEST && PeriodOf(us[0]) == PeriodOf(us[n]) then Lead(us, n + 1) else n
  }

  function Cut(us: seq<Unit>): seq<seq<Unit>> {
    if us == [] then [] else [us[..Lead(us, 1)]] + Cut(us[Lead(us, 1)..])
  }

  ghost function Flatten<T>(bs: seq<seq<T>>): seq<T> {
    if bs == [] then [] else bs[0] + Flatten(bs[1..])
  }

  predicate BatchOk(b: seq<Unit>) {
    && 1 <= |b| <= MAX_SERIES_PER_REQUEST
    && forall i | 0 <= i < |b| :: PeriodOf(b[i]) == PeriodOf(b[0])
  }

  /** A way of packing exactly these units into valid single-period requests. */
  ghost predicate Packing(us: seq<Unit>, bs: seq<seq<Unit>>) {
    multiset(Flatten(bs)) == multiset(us) && forall b | b in bs :: BatchOk(b)
  }

  /** makeBatches: the batches pack the units, and no packing needs fewer requests. */
  method MakeBatches(units: seq<Unit>) returns (batches: seq<seq<Unit>>)
    ensures Packing(units, batches)
    ensures forall other | Packing(units, other) :: |batches| <= |other|
    ensures batches == Cut(Sort(UnitLe, units))
  {
    var sorted := Sort(UnitLe, units);
    batches := [];
    var rest := sorted;
    while rest != []
      invariant batches + Cut(rest) == Cut(sorted)
      decreases |rest|
    {
      var end := 1;
      while end < |rest| && end < MAX_SERIES_PER_REQUEST && PeriodOf(rest[0]) == PeriodOf(rest[end])
        invariant 1 <= end <= |rest| && Lead(rest, 1) == Lead(rest, end)
      {
        end := end + 1;
      }
      batches := batches + [rest[..end]];
      rest := rest[end..];
    }
    assert batches == Cut(sorted);
    CutPacks(units);
    forall other | Packing(units, other) ensures |batches| <= |other| {
      CutIsMinimal(units, other);
    }
  }

  // ---- the cut is a packing ------------------------------------------------

  lemma {:induction false} LeadBounds(us: seq<Unit>, n: nat)
    requires 0 < n <= |us| && n <= MAX_SERIES_PER_REQUEST
    requires forall i | 0 <= i < n :: PeriodOf(us[i]) == PeriodOf(us[0])
    ensures Lead(us, n) <= MAX_SERIES_PER_REQUEST
    ensures forall i | 0 <= i < Lead(us, n) :: PeriodOf(us[i]) == PeriodOf(us[0])
    ensures Lead(us, n) == MAX_SERIES_PER_REQUEST || Lead(us, n) == |us| || PeriodOf(us[Lead(us, n)]) != PeriodOf(us[0])
    decreases |us| - n
  {
    if n < |us| && n < MAX_SERIES_PER_REQUEST && PeriodOf(us[0]) == PeriodOf(us[n]) {
      LeadBounds(us, n + 1);
    }
  }

  lemma {:induction false} CutFlattens(us: seq<Unit>)
    ensures Flatten(Cut(us)) == us
    ensures forall b | b in Cut(us) :: BatchOk(b)
  {
    if us != [] {
      var e := Lead(us, 1);
      LeadBounds(us, 1);
      CutFlattens(us[e..]);
      assert Cut(us) == [us[..e]] + Cut(us[e..]);
      assert us == us[..e] + us[e..];
      assert BatchOk(us[..e]);
    }
  }

  lemma CutPacks(units: seq<Unit>)
    ensures Packing(units, Cut(Sort(UnitLe, units)))
  {
    CutFlattens(Sort(UnitLe, units));
    SortPermutes(UnitLe, units);
  }

  // ---- no packing is smaller -----------------------------------------------

  function Count(p: Period, us: seq<Unit>): nat {
    if us == [] then 0 else (if PeriodOf(us[0]) == p then 1 else 0) + Count(p, us[1..])
  }

  lemma {:induction false} CountConcat(p: Period, a: seq<Unit>, b: seq<Unit>)
    ensures Count(p, a + b) == Count(p, a) + Count(p, b)
  {
    if a == [] {
      assert a + b == b;
    } else {
      assert (a + b)[1..] == a[1..] + b;
      CountConcat(p, a[1..], b);
    }
  }

  lemma {:induction false} CountPermutes(p: Period, a: seq<Unit>, b: seq<Unit>)
    requires multiset(a) == multiset(b)
    ensures Count(p, a) == Count(p, b)
  {
    if a == [] {
      assert |b| == |multiset(b)| == 0;
    } else {
      assert a[0] in multiset(b);
      var k :| 0 <= k < |b| && b[k] == a[0];
      RemovePermutes(a, 0);
      RemovePermutes(b, k);
      assert a[..0] + a[1..] == a[1..];
      CountPermutes(p, a[1..], b[..k] + b[k + 1..]);
      CountRemoves(p, b, k);
    }
  }

  lemma CountRemoves(p: Period, b: seq<Unit>, k: nat)
    requires k < |b|
    ensures Count(p, b) == Count(p, b[..k] + b[k + 1..]) + (if PeriodOf(b[k]) == p then 1 else 0)
  {
    assert b == b[..k] + ([b[k]] + b[k + 1..]);
    CountConcat(p, b[..k], b[k + 1..]);
    CountConcat(p, b[..k], [b[k]] + b[k + 1..]);
  }

  lemma {:induction false} CountUniform(p: Period, us: seq<Unit>)
    ensures Count(p, us) <= |us|
    ensures (forall u | u in us :: PeriodOf(u) == p) ==> Count(p, us) == |us|
    ensures (forall u | u in us :: PeriodOf(u) != p) ==> Count(p, us) == 0
  {
    if us != [] {
      CountUniform(p, us[1..]);
    }
  }

  function CountLabels(p: Period, labels: seq<Period>): nat {
    if labels == [] then 0 else (if labels[0] == p then 1 else 0) + CountLabels(p, labels[1..])
  }

  lemma {:induction false} CountLabelsConcat(p: Period, a: seq<Period>, b: seq<Period>)
    ensures CountLabels(p, a + b) == CountLabels(p, a) + CountLabels(p, b)
  {
    if a == [] {
      assert a + b == b;
    } else {
      assert (a + b)[1..] == a[1..] + b;
      CountLabelsConcat(p, a[1..], b);
    }
  }

  lemma {:induction false} LabelPresent(p: Period, labels: seq<Period>) returns (k: nat)
    requires CountLabels(p, labels) > 0
    ensures k < |labels| && labels[k] == p
  {
    if labels[0] == p {
      k := 0;
    } else {
      k := LabelPresent(p, labels[1..]);
      k := k + 1;
    }
  }

  /** The requests in `labels` have room for all the units. */
  ghost predicate Room(us: seq<Unit>, labels: seq<Period>) {
    forall p :: Count(p, us) <= MAX_SERIES_PER_REQUEST * CountLabels(p, labels)
  }

  /** One greedy batch uses up one label and keeps the rest roomy enough. */
  lemma RoomAfterBatch(us: seq<Unit>, labels: seq<Period>, k: nat)
    requires us != [] && Grouped(us) && Room(us, labels) && k < |labels| && labels[k] == PeriodOf(us[0])
    ensures Room(us[Lead(us, 1)..], labels[..k] + labels[k + 1..])
  {
    forall p
      ensures Count(p, us[Lead(us, 1)..]) <= MAX_SERIES_PER_REQUEST * CountLabels(p, labels[..k] + labels[k + 1..])
    {
      UnitsAfterBatch(us, p);
      LabelsAfterBatch(labels, k, p);
    }
  }

  lemma LabelsAfterBatch(labels: seq<Period>, k: nat, p: Period)
    requires k < |labels|
    ensures CountLabels(p, labels) == CountLabels(p, labels[..k] + labels[k + 1..]) + (if p == labels[k] then 1 else 0)
  {
    assert labels == labels[..k] + ([labels[k]] + labels[k + 1..]);
    CountLabelsConcat(p, labels[..k], [labels[k]] + labels[k + 1..]);
    CountLabelsConcat(p, labels[..k], labels[k + 1..]);
  }

  lemma UnitsAfterBatch(us: seq<Unit>, p: Period)
    requires us != [] && Grouped(us)
    ensures var rest := Count(p, us[Lead(us, 1)..]);
            if p != PeriodOf(us[0]) then rest == Count(p, us)
            else rest == 0 || rest == Count(p, us) - MAX_SERIES_PER_REQUEST
  {
    var e := Lead(us, 1);
    LeadBounds(us, 1);
    assert us == us[..e] + us[e..];
    CountConcat(p, us[..e], us[e..]);
    CountUniform(p, us[..e]);
    if p == PeriodOf(us[0]) && e < MAX_SERIES_PER_REQUEST {
      NoneAfterShortRun(us, e);
      CountUniform(p, us[e..]);
    }
  }

  lemma NoneAfterShortRun(us: seq<Unit>, e: nat)
    requires us != [] && Grouped(us) && 0 < e <= |us| && (e == |us| || PeriodOf(us[e]) != PeriodOf(us[0]))
    ensures forall u | u in us[e..] :: PeriodOf(u) != PeriodOf(us[0])
  {
    forall u | u in us[e..] ensures PeriodOf(u) != PeriodOf(us[0]) {
      var k :| e <= k < |us| && us[k] == u;
    }
  }

  lemma {:induction false} CutFits(us: seq<Unit>, labels: seq<Period>)
    requires Grouped(us) && Room(us, labels)
    ensures |Cut(us)| <= |labels|
  {
    if us != [] {
      assert Count(PeriodOf(us[0]), us) >= 1;
      assert Count(PeriodOf(us[0]), us) <= MAX_SERIES_PER_REQUEST * CountLabels(PeriodOf(us[0]), labels);
      var k := LabelPresent(PeriodOf(us[0]), labels);
      RoomAfterBatch(us, labels, k);
      CutFits(us[Lead(us, 1)..], labels[..k] + labels[k + 1..]);
    }
  }

  ghost function Labels(bs: seq<seq<Unit>>): seq<Period>
    requires forall b | b in bs :: BatchOk(b)
  {
    if bs == [] then [] else assert BatchOk(bs[0]); [PeriodOf(bs[0][0])] + Labels(bs[1..])
  }

  lemma {:induction false} PackingHasRoom(bs: seq<seq<Unit>>, p: Period)
    requires forall b | b in bs :: BatchOk(b)
    ensures |Labels(bs)| == |bs|
    ensures Count(p, Flatten(bs)) <= MAX_SERIES_PER_REQUEST * CountLabels(p, Labels(bs))
  {
    if bs != [] {
      PackingHasRoom(bs[1..], p);
      CountConcat(p, bs[0], Flatten(bs[1..]));
      assert BatchOk(bs[0]);
      CountUniform(p, bs[0]);
    }
  }

  lemma CutIsMinimal(units: seq<Unit>, other: seq<seq<Unit>>)
    requires Packing(units, other)
    ensures |Cut(Sort(UnitLe, units))| <= |other|
  {
    var sorted := Sort(UnitLe, units);
    UnitLeIsTotal();
    SortSorts(UnitLe, units);
    SortPermutes(UnitLe, units);
    assert Grouped(sorted);
    forall p ensures Count(p, sorted) <= MAX_SERIES_PER_REQUEST * CountLabels(p, Labels(other)) {
      PackingHasRoom(other, p);
      CountPermutes(p, sorted, Flatten(other));
    }
    PackingHasRoom(other, Period(0, 0, 0));
    CutFits(sorted, Labels(other));
  }

  // ---- requests ------------------------------------------------------------

  function RequestForBatch(batch: seq<Unit>): FetchRequest
    requires batch != []
  {
    var ids := seq(|batch|, i requires 0 <= i < |batch| => batch[i].series.id);
    match batch[0]
    case LatestUnit(_) => FetchRequest(FetchLatest, ids, 0, 0)
    case MonthUnit(_, from, _, fetchTo, _) => FetchRequest(FetchRange, ids, from, fetchTo)
  }

  /** The shape ^[A-Z]{2}[0-9]{1,20}$. */
  predicate SeriesIdOk(id: string) {
    && 3 <= |id| <= 22
    && (forall i | 0 <= i < 2 :: 'A' <= id[i] <= 'Z')
    && (forall i | 2 <= i < |id| :: '0' <= id[i] <= '9')
  }

  ghost predicate RequestOk(r: FetchRequest) {
    && 1 <= |r.ids| <= MAX_SERIES_PER_REQUEST
    && (forall i | 0 <= i < |r.ids| :: SeriesIdOk(r.ids[i]))
    && (forall i, j | 0 <= i < j < |r.ids| :: r.ids[i] != r.ids[j])
    && (r.kind.FetchRange? ==> r.from != 0 && r.to != 0 && r.from <= r.to)
  }

  /** requestURL's validation; on success also the set of requested identifiers. */
  method CheckRequest(r: FetchRequest) returns (ok: bool, requested: set<string>)
    ensures ok <==> RequestOk(r)
    ensures ok ==> requested == (set id | id in r.ids)
  {
    requested := {};
    if |r.ids| == 0 || |r.ids| > MAX_SERIES_PER_REQUEST {
      return false, {};
    }
    for i := 0 to |r.ids|
      invariant requested == (set id | id in r.ids[..i])
      invariant forall j | 0 <= j < i :: SeriesIdOk(r.ids[j])
      invariant forall j, k | 0 <= j < k < i :: r.ids[j] != r.ids[k]
    {
      if !SeriesIdOk(r.ids[i]) {
        return false, {};
      }
      if r.ids[i] in requested {
        return false, {};
      }
      requested := requested + {r.ids[i]};
      assert r.ids[..i + 1] == r.ids[..i] + [r.ids[i]];
    }
    assert r.ids[..|r.ids|] == r.ids;
    match r.kind
    case FetchLatest => ok := true;
    case FetchRange => ok := r.from != 0 && r.to != 0 && r.from <= r.to;
  }

  /** Work that planning can produce: valid identifiers, and no series twice for one kind and first day. */
  ghost predicate Plannable(units: seq<Unit>) {
    && (forall u | u in units :: SeriesIdOk(u.series.id) && (u.MonthUnit? ==> u.from <= u.fetchTo))
    && (forall i, j | 0 <= i < j < |units| ::
          SameStart(units[i], units[j]) ==> units[i].series.id != units[j].series.id)
  }

  predicate SameStart(a: Unit, b: Unit) {
    PeriodOf(a).kind == PeriodOf(b).kind && PeriodOf(a).from == PeriodOf(b).from
  }

  /**
  Every request built from planned work passes the provider client's checks
  exactly when it is not a month whose first or last fetched day is the zero
  time, 1 January of year 1.
   */
  lemma RequestsPass(units: seq<Unit>, batch: seq<Unit>)
    requires Plannable(units) && batch in Cut(Sort(UnitLe, units))
    ensures batch != [] && (RequestOk(RequestForBatch(batch)) <==>
                            (batch[0].MonthUnit? ==> batch[0].from != 0 && batch[0].fetchTo != 0))
  {
    CutPacks(units);
    assert BatchOk(batch);
    BatchIsWindow(Sort(UnitLe, units), batch);
    SortPermutes(UnitLe, units);
    BatchIdsOk(units, batch);
    assert batch[0] in multiset(batch);
    assert batch[0] in units;
  }

  /** The request of a batch names each of its units by series, and asks for the very days that unit is to fetch. */
  lemma RequestsAskForTheirUnits(units: seq<Unit>, batch: seq<Unit>, u: Unit)
    requires batch in Cut(Sort(UnitLe, units)) && u in batch
    ensures u in units
    ensures var req := RequestForBatch(batch);
            && u.series.id in req.ids && |req.ids| == |batch| <= MAX_SERIES_PER_REQUEST
            && (u.LatestUnit? ==> req.kind.FetchLatest?)
            && (u.MonthUnit? ==> req.kind.FetchRange? && req.from == u.from && req.to == u.fetchTo)
  {
    CutPacks(units);
    BatchIsWindow(Sort(UnitLe, units), batch);
    SortPermutes(UnitLe, units);
    assert u in multiset(batch);
    assert u in multiset(units);
    var i :| 0 <= i < |batch| && batch[i] == u;
    assert RequestForBatch(batch).ids[i] == u.series.id && PeriodOf(batch[i]) == PeriodOf(batch[0]);
  }

  lemma BatchIdsOk(units: seq<Unit>, batch: seq<Unit>)
    requires Plannable(units) && multiset(batch) <= multiset(units) && BatchOk(batch)
    ensures var ids := RequestForBatch(batch).ids;
            && |ids| == |batch|
            && (forall i | 0 <= i < |ids| :: SeriesIdOk(ids[i]))
            && (forall i, j | 0 <= i < j < |ids| :: ids[i] != ids[j])
  {
    var ids := RequestForBatch(batch).ids;
    forall i | 0 <= i < |ids| ensures SeriesIdOk(ids[i]) {
      assert batch[i] in multiset(batch);
      assert batch[i] in units;
    }
    forall i, j | 0 <= i < j < |ids| ensures ids[i] != ids[j] {
      TwiceInBatch(units, batch, i, j);
    }
  }

  /** A batch is a contiguous piece of what was cut, so its units are some of the units. */
  lemma {:induction false} BatchIsWindow(us: seq<Unit>, batch: seq<Unit>)
    requires batch in Cut(us)
    ensures multiset(batch) <= multiset(us)
  {
    var e := Lead(us, 1);
    assert us == us[..e] + us[e..];
    if batch != us[..e] {
      BatchIsWindow(us[e..], batch);
    }
  }

  lemma TwiceInBatch(units: seq<Unit>, batch: seq<Unit>, i: nat, j: nat)
    requires Plannable(units) && multiset(batch) <= multiset(units)
    requires i < j < |batch| && SameStart(batch[i], batch[j])
    ensures batch[i].series.id != batch[j].series.id
  {
    var a, b := batch[i], batch[j];
    assert a in multiset(batch) && b in multiset(batch);
    if a == b {
      RepeatsCount(batch, i, j);
      TwoPlaces(units, a);
    } else {
      assert a in multiset(units) && b in multiset(units);
      var m :| 0 <= m < |units| && units[m] == a;
      var n :| 0 <= n < |units| && units[n] == b;
      assert m < n || n < m;
    }
  }

  lemma {:induction false} TwoPlaces(units: seq<Unit>, a: Unit)
    requires multiset(units)[a] >= 2
    ensures exists m, n :: 0 <= m < n < |units| && units[m] == a && units[n] == a
  {
    assert a in units;
    var m :| 0 <= m < |units| && units[m] == a;
    var rest := units[..m] + units[m + 1..];
    RemovePermutes(units, m);
    assert a in multiset(rest);
    assert a in rest;
    var k :| 0 <= k < |rest| && rest[k] == a;
    var n := if k < m then k else k + 1;
    assert units[n] == a;
    assert m < n || n < m;
  }
}
