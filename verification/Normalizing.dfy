/** Normalization of the series a caller asks for: validated, one entry per identifier, in identifier order. */
module Normalizing {
  import opened Base
  import opened Ordering
  import opened RateTypes
  import opened Batching

  predicate CurrencyOk(code: string) {
    |code| == 3 && forall i | 0 <= i < 3 :: 'A' <= code[i] <= 'Z'
  }

  predicate SeriesOk(s: Series) {
    SeriesIdOk(s.id) && CurrencyOk(s.base) && CurrencyOk(s.quote) && s.base != s.quote
  }

  predicate IdLe(a: Series, b: Series) {
    LexLe(a.id, b.id)
  }

  /** One identifier is never mapped to two currency pairs. */
  ghost predicate Consistent(input: seq<Series>) {
    forall i, j | 0 <= i < |input| && 0 <= j < |input| :: input[i].id == input[j].id ==> input[i] == input[j]
  }

  ghost predicate Acceptable(input: seq<Series>) {
    input != [] && (forall s | s in input :: SeriesOk(s)) && Consistent(input)
  }

  ghost predicate StrictlyById(out: seq<Series>) {
    forall i, j | 0 <= i < j < |out| :: LexLe(out[i].id, out[j].id) && out[i].id != out[j].id
  }

  /** The map holds exactly the series seen, each under its identifier. */
  ghost predicate Indexes(byId: map<string, Series>, input: seq<Series>) {
    && (forall id | id in byId :: byId[id].id == id && byId[id] in input)
    && (forall s | s in input :: s.id in byId && byId[s.id] == s)
  }

  method NormalizeSeries(input: seq<Series>) returns (out: Option<seq<Series>>)
    ensures out.Some? <==> Acceptable(input)
    ensures out.Some? ==> StrictlyById(out.value) && forall s :: s in out.value <==> s in input
  {
    var byId := IndexById(input);
    if byId.None? {
      return None;
    }
    IndexSize(byId.value, input);
    if |byId.value| == 0 {
      return None;
    }
    var id :| id in byId.value;
    assert byId.value[id] in input;
    IndexedIsConsistent(byId.value, input);
    var listed := ListValues(byId.value, input);
    SortedStrictly(listed);
    return Some(Sort(IdLe, listed));
  }

  /** The validating loop: one series per identifier, or a refusal. */
  method IndexById(input: seq<Series>) returns (out: Option<map<string, Series>>)
    ensures out.Some? ==> Indexes(out.value, input) && forall s | s in input :: SeriesOk(s)
    ensures out.None? ==> !Consistent(input) || exists s :: s in input && !SeriesOk(s)
  {
    var byId: map<string, Series> := map[];
    for i := 0 to |input|
      invariant Indexes(byId, input[..i])
      invariant forall s | s in input[..i] :: SeriesOk(s)
    {
      var s := input[i];
      assert s in input;
      if !SeriesOk(s) {
        return None;
      }
      if s.id in byId && byId[s.id] != s {
        Conflict(input, byId[s.id], s);
        return None;
      }
      IndexesMore(byId, input, i);
      byId := byId[s.id := s];
    }
    assert input[..|input|] == input;
    return Some(byId);
  }

  lemma IndexSize(byId: map<string, Series>, input: seq<Series>)
    requires Indexes(byId, input)
    ensures input != [] ==> |byId| > 0
  {
    if input != [] {
      assert input[0] in input;
      assert input[0].id in byId;
    }
  }

  lemma IndexedIsConsistent(byId: map<string, Series>, input: seq<Series>)
    requires Indexes(byId, input)
    ensures Consistent(input)
  {
    assert forall i | 0 <= i < |input| :: input[i] in input;
  }

  lemma Conflict(input: seq<Series>, a: Series, b: Series)
    requires a in input && b in input && a.id == b.id && a != b
    ensures !Consistent(input)
  {
    var i :| 0 <= i < |input| && input[i] == a;
    var j :| 0 <= j < |input| && input[j] == b;
  }

  lemma IndexesMore(byId: map<string, Series>, input: seq<Series>, i: nat)
    requires i < |input| && Indexes(byId, input[..i]) && (input[i].id in byId ==> byId[input[i].id] == input[i])
    ensures Indexes(byId[input[i].id := input[i]], input[..i + 1])
    ensures forall s | s in input[..i + 1] :: s in input[..i] || s == input[i]
  {
    assert input[..i + 1] == input[..i] + [input[i]];
  }

  /** The values of the map, in whatever order the map yields them. */
  method ListValues(byId: map<string, Series>, ghost input: seq<Series>) returns (out: seq<Series>)
    requires Indexes(byId, input)
    ensures forall s :: s in out <==> s in input
    ensures forall i, j | 0 <= i < j < |out| :: out[i].id != out[j].id
  {
    out := [];
    var keys := byId.Keys;
    while keys != {}
      invariant keys <= byId.Keys
      invariant forall s :: s in out <==> s in input && s.id !in keys
      invariant forall i, j | 0 <= i < j < |out| :: out[i].id != out[j].id
      decreases |keys|
    {
      var k :| k in keys;
      assert forall s | s in out :: s.id != k;
      out := out + [byId[k]];
      keys := keys - {k};
    }
  }

  lemma SortedStrictly(listed: seq<Series>)
    requires forall i, j | 0 <= i < j < |listed| :: listed[i].id != listed[j].id
    ensures StrictlyById(Sort(IdLe, listed))
    ensures forall s :: s in Sort(IdLe, listed) <==> s in listed
  {
    var sorted := Sort(IdLe, listed);
    LexIsTotalOrder();
    SortSorts(IdLe, listed);
    SortKeepsMembers(IdLe, listed);
    forall i, j | 0 <= i < j < |sorted| ensures sorted[i].id != sorted[j].id {
      assert sorted[i] in listed && sorted[j] in listed;
      var m :| 0 <= m < |listed| && listed[m] == sorted[i];
      var n :| 0 <= n < |listed| && listed[n] == sorted[j];
      assert m < n || n < m;
    }
  }
}
