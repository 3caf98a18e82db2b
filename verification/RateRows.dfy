/** SQL's three-valued logic, as far as the coordination queries use it. */
module Sql {
  import opened Base

  datatype Truth = True | False | Unknown

  function Lift(b: bool): Truth {
    if b then True else False
  }

  function And(a: Truth, b: Truth): Truth {
    if a == False || b == False then False else if a == True && b == True then True else Unknown
  }

  function Or(a: Truth, b: Truth): Truth {
    if a == True || b == True then True else if a == False && b == False then False else Unknown
  }

  function Not(a: Truth): Truth {
    match a case True => False case False => True case Unknown => Unknown
  }

  function IsNull(x: Option<int>): Truth {
    Lift(x.None?)
  }

  /** x <= y; comparing with NULL is unknown. */
  function Le(x: Option<int>, y: int): Truth {
    if x.None? then Unknown else Lift(x.value <= y)
  }

  function Lt(x: Option<int>, y: int): Truth {
    if x.None? then Unknown else Lift(x.value < y)
  }

  /** COALESCE(x, FALSE), and also what a WHERE clause makes of x. */
  predicate Holds(x: Truth) {
    x == True
  }
}

/**
One row of the fetch coordination table: what makes its unit ready, what
lets a worker claim it, and how claiming, completing and failing change it.
 */
module RateRows {
  import opened Base
  import opened Sql
  import opened RateTypes

  datatype Row = Row(
    series: Series,
    kind: Kind,
    start: Option<Day>,
    end: Option<Day>,
    covered: Option<Day>,
    completed: Option<Time>,
    freshUntil: Option<Time>,
    nonce: Option<Uuid>,
    lease: Option<Time>,
    nextAttempt: Time)

  function KindOf(u: Unit): Kind {
    if u.LatestUnit? then FetchLatest else FetchRange
  }

  // Latest units carry no dates; the queries receive the zero date and false.
  function FetchToOf(u: Unit): Day {
    if u.LatestUnit? then 0 else u.fetchTo
  }

  predicate PermanentUnit(u: Unit) {
    u.MonthUnit? && u.permanent
  }

  /** The row the claiming transaction inserts when the key is new. */
  function NewRow(u: Unit, now: Time): Row {
    Row(u.series, KindOf(u),
        if u.MonthUnit? then Some(u.from) else None, if u.MonthUnit? then Some(u.to) else None,
        None, None, None, None, None, now)
  }

  /** The readiness column of the states query. */
  predicate Ready(r: Row, u: Unit, now: Time) {
    Holds(if r.kind.FetchLatest?
          then And(Not(IsNull(r.completed)), Not(Le(r.freshUntil, now)))
          else And(Not(Lt(r.covered, FetchToOf(u))), Or(Lift(PermanentUnit(u)), Not(Le(r.freshUntil, now)))))
  }

  /** The unforced staleness test of the claiming update. */
  function Stale(r: Row, u: Unit, now: Time): Truth {
    Or(And(Lift(r.kind.FetchLatest?), Or(IsNull(r.completed), Le(r.freshUntil, now))),
       And(Lift(r.kind.FetchRange?),
           Or(Or(IsNull(r.covered), Lt(r.covered, FetchToOf(u))),
              And(Not(Lift(PermanentUnit(u))), Le(r.freshUntil, now)))))
  }

  predicate SameIdentity(r: Row, u: Unit) {
    r.series == u.series && r.kind == KindOf(u)
  }

  /** No unexpired lease and no pending backoff. */
  predicate Free(r: Row, now: Time) {
    Holds(Or(IsNull(r.lease), Le(r.lease, now))) && r.nextAttempt <= now
  }

  predicate Claimable(r: Row, u: Unit, now: Time, force: bool) {
    SameIdentity(r, u) && Free(r, now) && Holds(Or(Lift(force), Stale(r, u, now)))
  }

  function Leased(r: Row, nonce: Uuid, until: Time): Row {
    r.(nonce := Some(nonce), lease := Some(until))
  }

  /** The completing update, for a fetch through `through` that stays fresh for `freshFor`. */
  function Completed(r: Row, u: Unit, through: Day, now: Time, freshFor: int): Row {
    var micros := if u.LatestUnit? || !u.permanent then freshFor else 0;
    r.(covered := if u.LatestUnit? then r.covered
                  else if r.covered.None? || r.covered.value < through then Some(through) else r.covered,
       completed := Some(now),
       freshUntil := if micros > 0 then Some(now + micros) else None,
       nonce := None, lease := None, nextAttempt := now)
  }

  function Released(r: Row, until: Time): Row {
    r.(nonce := None, lease := None, nextAttempt := until)
  }

  // ---- readiness and staleness are complements -----------------------------

  /** A NULL freshness deadline leaves the row neither ready nor stale. */
  predicate Stuck(r: Row, u: Unit) {
    if r.kind.FetchLatest? then r.completed.Some? && r.freshUntil.None?
    else r.covered.Some? && r.covered.value >= FetchToOf(u) && !PermanentUnit(u) && r.freshUntil.None?
  }

  /** A row is never both ready and stale; it is neither exactly when its freshness deadline is missing. */
  lemma ReadyComplementsStale(r: Row, u: Unit, now: Time)
    ensures !(Ready(r, u, now) && Holds(Stale(r, u, now)))
    ensures !Ready(r, u, now) && !Holds(Stale(r, u, now)) <==> Stuck(r, u)
  {
  }

  /** A closed month reopened as a non-permanent unit would be stuck: permanence must never revert. */
  lemma ReopenedMonthIsStuck(s: Series, from: Day, to: Day, now: Time)
    requires from <= to
    ensures var closed := MonthUnit(s, from, to, to, true);
            var reopened := closed.(permanent := false);
            var row := Completed(NewRow(closed, now), closed, to, now, 1);
            && Stuck(row, reopened)
            && forall later | later >= now ::
                 !Ready(row, reopened, later) && !Claimable(row, reopened, later, false)
  {
  }
}
