/** The story of a store: every state it has been in, and the step that led from each to the next. */
module RateStory {
  import opened Base
  import opened RateTypes
  import opened RateRows
  import opened RateLog
  import opened RateCache
  import opened RateTheorems

  datatype Story = Story(past: seq<Cache>, acts: seq<Event>)

  ghost predicate WellTold(s: Story) {
    && |s.past| == |s.acts| + 1
    && forall i | 0 <= i < |s.acts| :: s.past[i + 1] == Next(s.past[i], s.acts[i])
  }

  ghost function Present(s: Story): Cache
    requires s.past != []
  {
    s.past[|s.past| - 1]
  }

  /** The story with one more step. */
  ghost function Told(s: Story, e: Event): Story
    requires s.past != []
  {
    Story(s.past + [Next(Present(s), e)], s.acts + [e])
  }

  lemma ToldIsWellTold(s: Story, e: Event)
    requires WellTold(s)
    ensures WellTold(Told(s, e)) && Present(Told(s, e)) == Next(Present(s), e)
  {
  }

  /** `b` goes on from `a`, and nothing stored has been lost. */
  ghost predicate Onward(a: Story, b: Story) {
    a.past != [] && a.past <= b.past && a.acts <= b.acts && Later(Present(a), Present(b))
  }

  lemma OnwardTransitive(a: Story, b: Story, c: Story)
    requires Onward(a, b) && Onward(b, c)
    ensures Onward(a, c)
  {
    LaterTransitive(Present(a), Present(b), Present(c));
  }

  /** A legal step keeps the invariant and goes on. */
  lemma TakesStep(p: Provider, s: Story, e: Event)
    requires WellTold(s) && Inv(p, Present(s)) && Legal(p, Present(s), e)
    ensures WellTold(Told(s, e)) && Inv(p, Present(Told(s, e))) && Onward(s, Told(s, e))
  {
    NextKeepsInv(p, Present(s), e);
    NextIsLater(p, Present(s), e);
  }

  /** Any stretch of a story is a run. */
  lemma {:induction false} StretchIsRun(s: Story, i: nat, j: nat)
    requires WellTold(s) && i <= j < |s.past|
    ensures Run(s.past[i], s.acts[i..j]) == s.past[j]
    decreases j
  {
    if i < j {
      StretchIsRun(s, i, j - 1);
      assert s.acts[i..j][..j - i - 1] == s.acts[i..j - 1];
    }
  }

  lemma {:induction false} LogGrowsAlong(s: Story, i: nat, j: nat)
    requires WellTold(s) && i <= j < |s.past|
    ensures s.past[i].log <= s.past[j].log
    decreases j
  {
    if i < j {
      LogGrowsAlong(s, i, j - 1);
      StepExtendsLog(s.past[j - 1], s.acts[j - 1]);
    }
  }

  lemma StepExtendsLog(c: Cache, e: Event)
    ensures c.log <= Next(c, e).log
  {
    if e.Complete? && CanComplete(c, e.nonce, e.units, e.req, e.obs) {
      LogOnlyGrows(c.log, Imports(e.units, e.obs));
    }
  }

  // ---- whose steps ---------------------------------------------------------

  /** The step is not taken under `nonce`. */
  predicate ForeignTo(e: Event, nonce: Uuid) {
    !e.Tick? ==> e.nonce != nonce
  }

  /** No step since `a` was taken under `nonce`. */
  ghost predicate ForeignSince(a: Story, b: Story, nonce: Uuid) {
    forall i | |a.acts| <= i < |b.acts| :: ForeignTo(b.acts[i], nonce)
  }

  /** The releases under `nonce` among the steps, in order. */
  function ReleasesBy(acts: seq<Event>, nonce: Uuid): seq<Event> {
    if acts == [] then []
    else
      var last := acts[|acts| - 1];
      ReleasesBy(acts[..|acts| - 1], nonce) + (if last.FailUnit? && last.nonce == nonce then [last] else [])
  }

  /** The releases under `nonce` since `a`. */
  ghost function ReleasesSince(a: Story, b: Story, nonce: Uuid): seq<Event>
    requires |a.acts| <= |b.acts|
  {
    ReleasesBy(b.acts[|a.acts|..], nonce)
  }

  lemma {:induction false} ForeignAddsNoRelease(a: Story, b: Story, c: Story, nonce: Uuid)
    requires a.acts <= b.acts <= c.acts && ForeignSince(b, c, nonce)
    ensures ReleasesSince(a, c, nonce) == ReleasesSince(a, b, nonce)
    decreases |c.acts|
  {
    if |b.acts| < |c.acts| {
      var shorter := c.(acts := c.acts[..|c.acts| - 1]);
      ForeignAddsNoRelease(a, b, shorter, nonce);
      assert c.acts[|a.acts|..][..|c.acts| - |a.acts| - 1] == shorter.acts[|a.acts|..];
    } else {
      assert b.acts == c.acts;
    }
  }

  lemma OwnReleaseIsAdded(a: Story, b: Story, e: Event)
    requires a.acts <= b.acts && b.past != [] && e.FailUnit?
    ensures ReleasesSince(a, Told(b, e), e.nonce) == ReleasesSince(a, b, e.nonce) + [e]
  {
    var acts := Told(b, e).acts[|a.acts|..];
    assert acts[..|acts| - 1] == b.acts[|a.acts|..];
  }

  // ---- coverage along a story ----------------------------------------------

  /** A completion time that differs between two moments was set by a completion between them. */
  lemma {:induction false} CompletedBetween(s: Story, k: Key, i: nat, j: nat) returns (m: nat)
    requires WellTold(s) && i <= j < |s.past| && CompletedAt(s.past[i].rows, k) != CompletedAt(s.past[j].rows, k)
    ensures i <= m < j && Completes(s.past[m], s.acts[m], k)
    decreases j
  {
    if CompletedAt(s.past[j - 1].rows, k) != CompletedAt(s.past[j].rows, k) {
      m := j - 1;
      OnlyCompletionsComplete(s.past[m], s.acts[m], k);
    } else {
      m := CompletedBetween(s, k, i, j - 1);
    }
  }

  ghost predicate Completes(c: Cache, e: Event, k: Key) {
    e.Complete? && k in Keys(e.units) && CanComplete(c, e.nonce, e.units, e.req, e.obs)
  }

  lemma OnlyCompletionsComplete(c: Cache, e: Event, k: Key)
    requires CompletedAt(Next(c, e).rows, k) != CompletedAt(c.rows, k)
    ensures Completes(c, e, k)
  {
    match e
    case Claim(units, nonce, lease, force) => ClaimKeepsCoverage(c.rows, units, nonce, c.now, lease, force);
    case Complete(_, units, _, _) => UnitAtExact(units, k);
    case FailUnit(_, _, _) =>
    case Tick(_) =>
  }

  /** Some completion of the key between two moments fetched through `day` or beyond. */
  ghost predicate Reached(s: Story, i: nat, j: nat, k: Key, day: Day)
    requires j <= |s.acts| < |s.past|
  {
    exists m :: i <= m < j && Completes(s.past[m], s.acts[m], k) && s.acts[m].req.to >= day
  }

  lemma StepCoversExactly(c: Cache, e: Event, k: Key, day: Day)
    requires k.MonthKey?
    ensures CoversThrough(Next(c, e).rows, k, day) <==>
            CoversThrough(c.rows, k, day) || (Completes(c, e, k) && e.req.to >= day)
  {
    match e
    case Claim(units, nonce, lease, force) =>
      ClaimKeepsCoverage(c.rows, units, nonce, c.now, lease, force);
      ClaimAddsNoCoverage(c.rows, units, nonce, c.now, lease, force, k);
    case Complete(_, units, _, _) =>
      UnitAtExact(units, k);
      if Completes(c, e, k) {
        var u :| u in units && KeyOf(u) == k;
        assert Owned(c.rows, k, e.nonce);
      }
    case FailUnit(_, _, _) =>
    case Tick(_) =>
  }

  lemma {:induction false} ClaimAddsNoCoverage(
    rows: map<Key, Row>, units: seq<Unit>, nonce: Uuid, now: Time, lease: int, force: bool, k: Key)
    ensures var n := ClaimAll(rows, units, nonce, now, lease, force).0;
            k in n && k !in rows ==> n[k].covered.None?
  {
    if units != [] {
      ClaimAddsNoCoverage(rows, units[..|units| - 1], nonce, now, lease, force, k);
    }
  }

  /** A month is covered exactly when it was before, or a completion since then reached the day. */
  lemma {:induction false} CoveredExactly(s: Story, k: Key, day: Day, i: nat, j: nat)
    requires WellTold(s) && i <= j <= |s.acts| && k.MonthKey?
    ensures CoversThrough(s.past[j].rows, k, day) <==> CoversThrough(s.past[i].rows, k, day) || Reached(s, i, j, k, day)
    decreases j
  {
    if i < j {
      CoveredExactly(s, k, day, i, j - 1);
      assert s.past[j - 1 + 1] == Next(s.past[j - 1], s.acts[j - 1]);
      StepCoversExactly(s.past[j - 1], s.acts[j - 1], k, day);
    }
  }
}
