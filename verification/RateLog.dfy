/**
The append-only revision log of observations: an import appends a value only
when it differs from the current revision of its coordinate.
 */
module RateLog {
  import opened Base
  import opened RateTypes

  /** current_sie_exchange_rates for one coordinate: the value of its newest revision. */
  function Current(log: seq<Observation>, s: Series, d: Day): Option<Decimal> {
    if log == [] then None
    else
      var last := log[|log| - 1];
      if last.series == s && last.date == d then Some(last.value) else Current(log[..|log| - 1], s, d)
  }

  /** INSERT ... WHERE NOT EXISTS (the current revision has this value). */
  function Record(log: seq<Observation>, o: Observation): seq<Observation> {
    if Current(log, o.series, o.date) == Some(o.value) then log else log + [o]
  }

  function RecordAll(log: seq<Observation>, imports: seq<Observation>): seq<Observation> {
    if imports == [] then log else Record(RecordAll(log, imports[..|imports| - 1]), imports[|imports| - 1])
  }

  /** The values of one coordinate, oldest first. */
  function Values(log: seq<Observation>, s: Series, d: Day): seq<Decimal> {
    if log == [] then []
    else
      var last := log[|log| - 1];
      Values(log[..|log| - 1], s, d) + (if last.series == s && last.date == d then [last.value] else [])
  }

  /** A sequence with every run of equal neighbours reduced to one. */
  function Destutter(xs: seq<Decimal>): seq<Decimal> {
    if |xs| <= 1 then xs
    else
      var rest := Destutter(xs[..|xs| - 1]);
      if xs[|xs| - 1] == xs[|xs| - 2] then rest else rest + [xs[|xs| - 1]]
  }

  lemma {:induction false} CurrentIsLast(log: seq<Observation>, s: Series, d: Day)
    ensures var vs := Values(log, s, d); Current(log, s, d) == if vs == [] then None else Some(vs[|vs| - 1])
  {
    if log != [] {
      CurrentIsLast(log[..|log| - 1], s, d);
    }
  }

  lemma {:induction false} DestutterEnds(xs: seq<Decimal>)
    ensures xs == [] <==> Destutter(xs) == []
    ensures xs != [] ==> Destutter(xs)[|Destutter(xs)| - 1] == xs[|xs| - 1]
    ensures forall i | 0 <= i < |Destutter(xs)| - 1 :: Destutter(xs)[i] != Destutter(xs)[i + 1]
  {
    if |xs| >= 2 {
      DestutterEnds(xs[..|xs| - 1]);
    }
  }

  lemma ValuesAppend(log: seq<Observation>, o: Observation, s: Series, d: Day)
    ensures Values(log + [o], s, d) == Values(log, s, d) + (if o.series == s && o.date == d then [o.value] else [])
    ensures Current(log + [o], s, d) == if o.series == s && o.date == d then Some(o.value) else Current(log, s, d)
  {
    assert (log + [o])[..|log + [o]| - 1] == log;
  }

  /**
  The log is the stutter-free compression of everything ever imported: per
  coordinate its revisions are the imported values with immediate repetitions
  removed - returns to an older value included - and its current value is
  the last one imported.
   */
  lemma {:induction false} LogIsDestutteredImports(imports: seq<Observation>, s: Series, d: Day)
    ensures var log := RecordAll([], imports);
            && Values(log, s, d) == Destutter(Values(imports, s, d))
            && Current(log, s, d) == Current(imports, s, d)
  {
    if imports != [] {
      var prior, o := imports[..|imports| - 1], imports[|imports| - 1];
      assert imports == prior + [o];
      LogIsDestutteredImports(prior, s, d);
      ValuesAppend(prior, o, s, d);
      ImportStep(RecordAll([], prior), prior, o, s, d);
    }
  }

  /** Importing in two transactions is importing in one. */
  lemma {:induction false} RecordAllConcat(log: seq<Observation>, a: seq<Observation>, b: seq<Observation>)
    ensures RecordAll(RecordAll(log, a), b) == RecordAll(log, a + b)
  {
    if b == [] {
      assert a + b == a;
    } else {
      var prior, last := b[..|b| - 1], b[|b| - 1];
      RecordAllConcat(log, a, prior);
      assert (a + b)[..|a + b| - 1] == a + prior;
    }
  }

  lemma ImportStep(log: seq<Observation>, prior: seq<Observation>, o: Observation, s: Series, d: Day)
    requires Values(log, s, d) == Destutter(Values(prior, s, d))
    ensures Values(Record(log, o), s, d) == Destutter(Values(prior + [o], s, d))
    ensures Current(Record(log, o), s, d) == Current(prior + [o], s, d)
  {
    ValuesAppend(log, o, s, d);
    ValuesAppend(prior, o, s, d);
    CurrentIsLast(log, s, d);
    CurrentIsLast(prior, s, d);
    DestutterEnds(Values(prior, s, d));
    DestutterAppend(Values(prior, s, d), o.value);
    assert Values(prior, s, d) + [] == Values(prior, s, d) && Values(log, s, d) + [] == Values(log, s, d);
  }

  lemma DestutterAppend(vs: seq<Decimal>, x: Decimal)
    ensures Destutter(vs + [x]) ==
            if vs != [] && vs[|vs| - 1] == x then Destutter(vs) else Destutter(vs) + [x]
  {
    assert (vs + [x])[..|vs + [x]| - 1] == vs;
  }

  /** History is only ever extended. */
  lemma {:induction false} LogOnlyGrows(log: seq<Observation>, imports: seq<Observation>)
    ensures log <= RecordAll(log, imports)
  {
    if imports != [] {
      LogOnlyGrows(log, imports[..|imports| - 1]);
    }
  }
}
