/**
Every row of a delivery store lives a run of the one-row machine, so that what
is proved of those runs holds of every destination and event of the store.
 */
module DeliveryStory {
  import opened Base
  import opened Delivery
  import opened DeliveryStore

  /** The grant made under a nonce, if any. */
  function GrantOf(grants: seq<Grant>, nonce: Uuid): (g: Option<nat>)
    ensures g.Some? ==> g.value < |grants| && grants[g.value].nonce == nonce
    ensures g.None? ==> forall i | 0 <= i < |grants| :: grants[i].nonce != nonce
  {
    if grants == [] then None
    else if grants[|grants| - 1].nonce == nonce then Some(|grants| - 1)
    else GrantOf(grants[..|grants| - 1], nonce)
  }

  /** What a step of the store is to one row: a claimant marks after its publisher has returned. */
  function Seen(t: Tables, s: State, step: Step, destination: string, ref: Ref): seq<Event> {
    match step
    case Append(_) => []
    case Pass(to) => [Tick(to)]
    case ClaimStep(d, r, nonce, _, force) =>
      if d == destination && r == ref && ref in t.events then [Claim(nonce, force)] else []
    case DeliveredStep(d, r, nonce) =>
      var g := GrantOf(s.grants, nonce);
      if d == destination && r == ref && g.Some?
      then [Start(g.value), Finish(g.value, Published), MarkDelivered(g.value)] else []
    case FailedStep(d, r, nonce, delay) =>
      var g := GrantOf(s.grants, nonce);
      if d == destination && r == ref && g.Some?
      then [Start(g.value), Finish(g.value, PublishFailed), MarkFailed(g.value, delay)] else []
  }

  function Fresh(born: Time, limit: int): State {
    State(None, born, limit, [])
  }

  /** The run that the row of one destination and event lives through the steps of its store. */
  function Life(born: Time, steps: seq<Step>, destination: string, ref: Ref, limit: int): seq<Event> {
    if steps == [] then []
    else
      var prior := steps[..|steps| - 1];
      var lived := Life(born, prior, destination, ref, limit);
      lived + Seen(After(born, prior), Run(Fresh(born, limit), lived), steps[|steps| - 1], destination, ref)
  }

  /** The step claims this event for this destination. */
  predicate Claims(s: Step, destination: string, ref: Ref) {
    s.ClaimStep? && s.destination == destination && s.ref == ref
  }

  /** Claims use the configured lease, and each a nonce of its own. */
  ghost predicate Disciplined(steps: seq<Step>, destination: string, ref: Ref, limit: int) {
    && (forall s | s in steps && Claims(s, destination, ref) :: s.lease == limit + MARGIN)
    && (forall i, j | 0 <= i < j < |steps| ::
          Claims(steps[i], destination, ref) && Claims(steps[j], destination, ref) ==> steps[i].nonce != steps[j].nonce)
  }

  /** The row and the run agree; grants come from claims; who holds the row has not started publishing. */
  ghost predicate Follows(t: Tables, s: State, steps: seq<Step>, destination: string, ref: Ref, limit: int) {
    && Inv(s) && s.limit == limit && s.row == RowOf(t.rows, destination, ref) && s.now == t.now
    && (forall g | g in s.grants :: exists i ::
          0 <= i < |steps| && Claims(steps[i], destination, ref) && steps[i].nonce == g.nonce)
    && HolderWaits(s)
  }

  lemma RunOne(s: State, e: Event)
    ensures Run(s, [e]) == Next(s, e)
  {
    assert [e][..0] == [];
    assert Run(s, []) == s;
  }

  lemma RunThree(s: State, a: Event, b: Event, c: Event)
    ensures Run(s, [a, b, c]) == Next(Next(Next(s, a), b), c)
  {
    assert [a, b, c][..2] == [a, b] && [a, b][..1] == [a];
    RunOne(s, a);
  }

  /** Nothing has changed but the stage of grant `g`. */
  ghost predicate SameButStage(s: State, n: State, g: nat) {
    && n.row == s.row && n.now == s.now && n.limit == s.limit && |n.grants| == |s.grants|
    && (forall i | 0 <= i < |s.grants| :: n.grants[i].nonce == s.grants[i].nonce)
    && (forall i | 0 <= i < |s.grants| && i != g :: n.grants[i] == s.grants[i])
  }

  lemma Publishes(s: State, g: nat, outcome: Outcome)
    requires Inv(s) && g < |s.grants|
    ensures var n := Next(Next(s, Start(g)), Finish(g, outcome));
            && Inv(n) && SameButStage(s, n, g)
            && (s.grants[g].stage.Waiting? ==> FinishedWith(n, g, outcome))
  {
    NextKeepsInv(s, Start(g));
    NextKeepsInv(Next(s, Start(g)), Finish(g, outcome));
  }

  /** Who holds the row has not started publishing. */
  ghost predicate HolderWaits(s: State) {
    s.grants != [] && s.row.Some? && s.row.value.nonce.Some? ==> s.grants[|s.grants| - 1].stage.Waiting?
  }

  lemma HolderIsLast(s: State, g: nat)
    requires Inv(s) && g < |s.grants| && Holds(s.row, s.grants[g].nonce)
    ensures g == |s.grants| - 1
  {
  }

  /** A claimant that holds the row publishes and marks it delivered; one that does not changes nothing. */
  lemma DeliveredFollows(s: State, g: nat)
    requires Inv(s) && g < |s.grants| && HolderWaits(s)
    ensures var marked := MarkedDelivered(s.row, s.grants[g].nonce, s.now);
            var n := Next(Next(Next(s, Start(g)), Finish(g, Published)), MarkDelivered(g));
            && Inv(n) && HolderWaits(n) && n.row == (if marked.Some? then marked else s.row)
            && SameButStage(s.(row := n.row), n, g)
  {
    var b := Next(Next(s, Start(g)), Finish(g, Published));
    Publishes(s, g, Published);
    NextKeepsInv(b, MarkDelivered(g));
    if Holds(s.row, s.grants[g].nonce) {
      HolderIsLast(s, g);
    }
  }

  lemma FailedFollows(s: State, g: nat, delay: int)
    requires Inv(s) && g < |s.grants| && HolderWaits(s)
    ensures var marked := MarkedFailed(s.row, s.grants[g].nonce, s.now, delay);
            var n := Next(Next(Next(s, Start(g)), Finish(g, PublishFailed)), MarkFailed(g, delay));
            && Inv(n) && HolderWaits(n) && n.row == (if marked.Some? then marked else s.row)
            && SameButStage(s.(row := n.row), n, g)
  {
    var b := Next(Next(s, Start(g)), Finish(g, PublishFailed));
    Publishes(s, g, PublishFailed);
    NextKeepsInv(b, MarkFailed(g, delay));
    if Holds(s.row, s.grants[g].nonce) {
      HolderIsLast(s, g);
    }
  }

  lemma ClaimFollows(t: Tables, s: State, steps: seq<Step>, step: Step, destination: string, ref: Ref, limit: int)
    requires Follows(t, s, steps, destination, ref, limit) && Claims(step, destination, ref)
    requires Disciplined(steps + [step], destination, ref, limit)
    ensures Follows(Take(t, step), Run(s, Seen(t, s, step, destination, ref)), steps + [step], destination, ref, limit)
  {
    var more := steps + [step];
    assert step in more && more[|steps|] == step;
    forall g | g in s.grants ensures g.nonce != step.nonce
      ensures exists i :: 0 <= i < |more| && Claims(more[i], destination, ref) && more[i].nonce == g.nonce
    {
      var i :| 0 <= i < |steps| && Claims(steps[i], destination, ref) && steps[i].nonce == g.nonce;
      assert more[i] == steps[i];
    }
    if ref in t.events {
      RunOne(s, Claim(step.nonce, step.force));
      NextKeepsInv(s, Claim(step.nonce, step.force));
    } else {
      assert Run(s, []) == s;
    }
  }

  /** What marking leaves of a row: the two states agree again. */
  lemma MarkedFollows(
    t: Tables, s: State, n: State, steps: seq<Step>, step: Step, destination: string, ref: Ref, limit: int, g: nat)
    requires Follows(t, s, steps, destination, ref, limit) && Inv(n) && HolderWaits(n)
    requires SameButStage(s.(row := n.row), n, g)
    requires n.row == RowOf(Take(t, step).rows, destination, ref) && Take(t, step).now == t.now
    ensures Follows(Take(t, step), n, steps + [step], destination, ref, limit)
  {
    NoncesKept(s, n, steps, step, destination, ref);
  }

  lemma DeliveredMarkFollows(
    t: Tables, s: State, steps: seq<Step>, step: Step, destination: string, ref: Ref, limit: int, g: nat)
    requires Follows(t, s, steps, destination, ref, limit) && step.DeliveredStep?
    requires step.destination == destination && step.ref == ref && g < |s.grants| && s.grants[g].nonce == step.nonce
    ensures var n := Next(Next(Next(s, Start(g)), Finish(g, Published)), MarkDelivered(g));
            Follows(Take(t, step), n, steps + [step], destination, ref, limit)
  {
    DeliveredFollows(s, g);
    var n := Next(Next(Next(s, Start(g)), Finish(g, Published)), MarkDelivered(g));
    MarkedFollows(t, s, n, steps, step, destination, ref, limit, g);
  }

  lemma FailedMarkFollows(
    t: Tables, s: State, steps: seq<Step>, step: Step, destination: string, ref: Ref, limit: int, g: nat)
    requires Follows(t, s, steps, destination, ref, limit) && step.FailedStep?
    requires step.destination == destination && step.ref == ref && g < |s.grants| && s.grants[g].nonce == step.nonce
    ensures var n := Next(Next(Next(s, Start(g)), Finish(g, PublishFailed)), MarkFailed(g, step.delay));
            Follows(Take(t, step), n, steps + [step], destination, ref, limit)
  {
    FailedFollows(s, g, step.delay);
    var n := Next(Next(Next(s, Start(g)), Finish(g, PublishFailed)), MarkFailed(g, step.delay));
    MarkedFollows(t, s, n, steps, step, destination, ref, limit, g);
  }

  /** The mark of a claimant that has a grant. */
  lemma MarkFollows(
    t: Tables, s: State, steps: seq<Step>, step: Step, destination: string, ref: Ref, limit: int, g: nat)
    requires Follows(t, s, steps, destination, ref, limit) && (step.DeliveredStep? || step.FailedStep?)
    requires step.destination == destination && step.ref == ref && GrantOf(s.grants, step.nonce) == Some(g)
    ensures Follows(Take(t, step), Run(s, Seen(t, s, step, destination, ref)), steps + [step], destination, ref, limit)
  {
    if step.DeliveredStep? {
      RunThree(s, Start(g), Finish(g, Published), MarkDelivered(g));
      DeliveredMarkFollows(t, s, steps, step, destination, ref, limit, g);
    } else {
      RunThree(s, Start(g), Finish(g, PublishFailed), MarkFailed(g, step.delay));
      FailedMarkFollows(t, s, steps, step, destination, ref, limit, g);
    }
  }

  /** A step that is nothing to this row: another row's, or a mark under a nonce that was never granted. */
  lemma UnseenFollows(t: Tables, s: State, steps: seq<Step>, step: Step, destination: string, ref: Ref, limit: int)
    requires Follows(t, s, steps, destination, ref, limit) && !Claims(step, destination, ref)
    requires Seen(t, s, step, destination, ref) == [] && !step.Pass?
    ensures Follows(Take(t, step), s, steps + [step], destination, ref, limit)
  {
    NoncesKept(s, s, steps, step, destination, ref);
    if (step.DeliveredStep? || step.FailedStep?) && step.destination == destination && step.ref == ref {
      UngrantedHoldsNothing(s, step.nonce);
    }
  }

  lemma UngrantedHoldsNothing(s: State, nonce: Uuid)
    requires Inv(s) && GrantOf(s.grants, nonce).None?
    ensures !Holds(s.row, nonce)
  {
  }

  lemma PassFollows(t: Tables, s: State, steps: seq<Step>, step: Step, destination: string, ref: Ref, limit: int)
    requires Follows(t, s, steps, destination, ref, limit) && step.Pass?
    ensures Follows(Take(t, step), Run(s, [Tick(step.to)]), steps + [step], destination, ref, limit)
  {
    RunOne(s, Tick(step.to));
    NextKeepsInv(s, Tick(step.to));
    NoncesKept(s, s, steps, step, destination, ref);
  }

  lemma OtherFollows(t: Tables, s: State, steps: seq<Step>, step: Step, destination: string, ref: Ref, limit: int)
    requires Follows(t, s, steps, destination, ref, limit) && !Claims(step, destination, ref)
    ensures Follows(Take(t, step), Run(s, Seen(t, s, step, destination, ref)), steps + [step], destination, ref, limit)
  {
    if step.Pass? {
      PassFollows(t, s, steps, step, destination, ref, limit);
    } else if Seen(t, s, step, destination, ref) == [] {
      assert Run(s, []) == s;
      UnseenFollows(t, s, steps, step, destination, ref, limit);
    } else {
      MarkFollows(t, s, steps, step, destination, ref, limit, GrantOf(s.grants, step.nonce).value);
    }
  }

  lemma NoncesKept(s: State, n: State, steps: seq<Step>, step: Step, destination: string, ref: Ref)
    requires forall g | g in s.grants :: exists i ::
               0 <= i < |steps| && Claims(steps[i], destination, ref) && steps[i].nonce == g.nonce
    requires |n.grants| == |s.grants| && forall i | 0 <= i < |s.grants| :: n.grants[i].nonce == s.grants[i].nonce
    ensures var more := steps + [step];
            forall g | g in n.grants :: exists i ::
              0 <= i < |more| && Claims(more[i], destination, ref) && more[i].nonce == g.nonce
  {
    var more := steps + [step];
    forall g | g in n.grants
      ensures exists i :: 0 <= i < |more| && Claims(more[i], destination, ref) && more[i].nonce == g.nonce
    {
      var k :| 0 <= k < |n.grants| && n.grants[k] == g;
      assert s.grants[k] in s.grants;
      var i :| 0 <= i < |steps| && Claims(steps[i], destination, ref) && steps[i].nonce == s.grants[k].nonce;
      assert more[i] == steps[i];
    }
  }

  lemma {:induction false} RowFollowsLife(born: Time, steps: seq<Step>, destination: string, ref: Ref, limit: int)
    requires limit > 0 && Disciplined(steps, destination, ref, limit)
    ensures Follows(
              After(born, steps), Run(Fresh(born, limit), Life(born, steps, destination, ref, limit)), steps,
              destination, ref, limit)
  {
    if steps != [] {
      var prior, step := steps[..|steps| - 1], steps[|steps| - 1];
      assert steps == prior + [step];
      assert forall x | x in prior :: x in steps;
      RowFollowsLife(born, prior, destination, ref, limit);
      var t, lived := After(born, prior), Life(born, prior, destination, ref, limit);
      var s := Run(Fresh(born, limit), lived);
      RunConcat(Fresh(born, limit), lived, Seen(t, s, step, destination, ref));
      if Claims(step, destination, ref) {
        ClaimFollows(t, s, prior, step, destination, ref, limit);
      } else {
        OtherFollows(t, s, prior, step, destination, ref, limit);
      }
    }
  }

  /**
  The row of any destination and event of a store is the row of a run of the
  one-row machine from its initial state, whatever steps the store took.
   */
  lemma StoreRowsLiveRuns(born: Time, steps: seq<Step>, destination: string, ref: Ref, limit: int)
    returns (es: seq<Event>)
    requires limit > 0 && Disciplined(steps, destination, ref, limit)
    ensures Init(Fresh(born, limit))
    ensures var r := Run(Fresh(born, limit), es);
            r.row == RowOf(After(born, steps).rows, destination, ref) && r.now == After(born, steps).now
  {
    es := Life(born, steps, destination, ref, limit);
    RowFollowsLife(born, steps, destination, ref, limit);
  }

  /** How many claims of the row were granted. */
  function Granted(born: Time, steps: seq<Step>, destination: string, ref: Ref): nat {
    if steps == [] then 0
    else
      var prior, step := steps[..|steps| - 1], steps[|steps| - 1];
      var t := After(born, prior);
      Granted(born, prior, destination, ref)
      + (if Claims(step, destination, ref) && Take(t, step) != t then 1 else 0)
  }

  /** In every store the attempt counter of a row is the number of its granted claims, whatever the leases. */
  lemma {:induction false} StoreCountsGrants(born: Time, steps: seq<Step>, destination: string, ref: Ref)
    ensures var row := RowOf(After(born, steps).rows, destination, ref);
            (if row.Some? then row.value.attempts else 0) == Granted(born, steps, destination, ref)
  {
    if steps != [] {
      StoreCountsGrants(born, steps[..|steps| - 1], destination, ref);
      CountStep(After(born, steps[..|steps| - 1]), steps[|steps| - 1], destination, ref);
    }
  }

  function AttemptsOf(row: Option<Row>): nat {
    if row.Some? then row.value.attempts else 0
  }

  lemma CountStep(t: Tables, step: Step, destination: string, ref: Ref)
    ensures AttemptsOf(RowOf(Take(t, step).rows, destination, ref)) ==
            AttemptsOf(RowOf(t.rows, destination, ref))
            + (if Claims(step, destination, ref) && Take(t, step) != t then 1 else 0)
  {
    if Claims(step, destination, ref) && step.ref in t.events {
      var row := RowOf(t.rows, destination, ref);
      var claimed := Claimed(row, step.nonce, t.now, step.lease, step.force);
      if claimed.Some? {
        assert Take(t, step).rows[(destination, ref)] == claimed.value;
        assert AttemptsOf(claimed) == AttemptsOf(row) + 1;
      }
    }
  }

  /** In every store a delivered row never changes again, whatever steps follow. */
  lemma {:induction false} StoreKeepsDelivered(
    born: Time, steps: seq<Step>, more: seq<Step>, destination: string, ref: Ref)
    requires !Undelivered(After(born, steps).rows, destination, ref)
    ensures RowOf(After(born, steps + more).rows, destination, ref) == RowOf(After(born, steps).rows, destination, ref)
  {
    if more == [] {
      assert steps + more == steps;
    } else {
      var prior, last := more[..|more| - 1], more[|more| - 1];
      StoreKeepsDelivered(born, steps, prior, destination, ref);
      assert steps + more == (steps + prior) + [last];
      AfterThen(born, steps + prior, last);
    }
  }

  /** In every store a nonce that does not hold a row, and is not drawn again, never holds it, whatever steps follow. */
  lemma {:induction false} StoreFencesForever(
    born: Time, steps: seq<Step>, more: seq<Step>, destination: string, ref: Ref, nonce: Uuid)
    requires !Holds(RowOf(After(born, steps).rows, destination, ref), nonce)
    requires forall s | s in more && s.ClaimStep? :: s.nonce != nonce
    ensures !Holds(RowOf(After(born, steps + more).rows, destination, ref), nonce)
  {
    if more == [] {
      assert steps + more == steps;
    } else {
      var prior, last := more[..|more| - 1], more[|more| - 1];
      assert last in more && forall s | s in prior :: s in more;
      StoreFencesForever(born, steps, prior, destination, ref, nonce);
      assert steps + more == (steps + prior) + [last];
      AfterThen(born, steps + prior, last);
    }
  }
}
