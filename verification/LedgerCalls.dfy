/**
One call of a mutation: up to eight attempts, each a transaction of a ledger
run. Whichever attempt settles, the caller is answered by the one commit its
idempotency scope ever has, or is refused by an attempt that wrote nothing.
 */
module LedgerCalls {
  import opened Base
  import opened LedgerTables
  import opened LedgerAttempts
  import opened LedgerRuns
  import opened LedgerHistory
  import opened LedgerTheorems
  import opened LedgerTx

  /** An attempt of the run committed, and answered with this reply. */
  ghost predicate LandedWith(s: Sys, es: seq<Event>, mu: Mutation, reply: Reply) {
    exists k :: k in Run(s, es).done && k.mutation == mu && k.reply == reply
  }

  /** An attempt of the run found its scope taken and, after rolling back, read the recorded outcome. */
  ghost predicate ReplayedWith(s: Sys, es: seq<Event>, mu: Mutation, reply: Reply) {
    exists n :: 0 <= n <= |es| && ReplayedAt(Run(s, es[..n]).db, mu, reply)
  }

  ghost predicate ReplayedAt(d: Db, mu: Mutation, reply: Reply) {
    Claimed(d.market, ScopeOf(mu)) && Replay(d, mu) == reply
  }

  /** An attempt of the run was denied, or failed without recording anything. */
  ghost predicate RefusedWith(s: Sys, es: seq<Event>, mu: Mutation, reply: Reply) {
    exists n, ids, began, now :: 0 <= n <= |es| && RefusedAt(Run(s, es[..n]).db, mu, ids, began, now, reply)
  }

  ghost predicate RefusedAt(d: Db, mu: Mutation, ids: Ids, began: Time, now: Time, reply: Reply) {
    match AttemptOn(d, mu, ids, began, now)
    case Denied => reply == Refusal(PermissionDenied)
    case Faulted(e) => reply == Refusal(e)
    case _ => false
  }

  /** What an attempt of this mutation, as a transaction of the run, may return. */
  ghost predicate Returned(s: Sys, es: seq<Event>, mu: Mutation, attempt: Try<Reply>) {
    attempt.Settled? ==>
      || LandedWith(s, es, mu, attempt.value)
      || ReplayedWith(s, es, mu, attempt.value)
      || RefusedWith(s, es, mu, attempt.value)
  }

  /** The answer of the one commit of the scope: its own reply for its own digest, a conflict for any other. */
  ghost predicate AnsweredByScope(s: Sys, es: seq<Event>, mu: Mutation, reply: Reply, i: nat) {
    var done := Run(s, es).done;
    && i < |done| && ScopeOf(done[i].mutation) == ScopeOf(mu)
    && (forall j | 0 <= j < |done| && ScopeOf(done[j].mutation) == ScopeOf(mu) :: j == i)
    && reply == if mu.digest == done[i].mutation.digest then done[i].reply else Refusal(IdempotencyConflict)
  }

  ghost predicate HasCommit(ks: seq<Commit>, c: Uuid) {
    exists i :: 0 <= i < |ks| && ks[i].writes.claim == c
  }

  lemma HasCommitMore(ks: seq<Commit>, k: Commit, c: Uuid)
    requires HasCommit(ks, c) || k.writes.claim == c
    ensures HasCommit(ks + [k], c)
  {
    if HasCommit(ks, c) {
      var i :| 0 <= i < |ks| && ks[i].writes.claim == c;
      assert (ks + [k])[i] == ks[i];
    } else {
      assert (ks + [k])[|ks|] == k;
    }
  }

  lemma CommitStaysKnown(q: Sys, e: Event, c: Uuid)
    requires c in Next(q, e).db.market.claims && (c in q.db.market.claims ==> HasCommit(q.done, c))
    ensures HasCommit(Next(q, e).done, c)
  {
    if e.CommitTxn? && ReadyToCommit(q, e.txn) {
      LandedIsKnown(q.db.market, q.done, Landed(q, e.txn), c);
    } else {
      assert Next(q, e).db.market == q.db.market && Next(q, e).done == q.done;
    }
  }

  lemma LandedIsKnown(m: Market, ks: seq<Commit>, k: Commit, c: Uuid)
    requires c in Apply(m, k.writes).claims && (c in m.claims ==> HasCommit(ks, c))
    ensures HasCommit(ks + [k], c)
  {
    HasCommitMore(ks, k, c);
  }

  /** Every claim of a run was committed by one of its transactions. */
  lemma {:induction false} ClaimsHaveCommits(s: Sys, es: seq<Event>, c: Uuid)
    requires Init(s) && c in Run(s, es).db.market.claims
    ensures HasCommit(Run(s, es).done, c)
  {
    if es != [] {
      var prior := es[..|es| - 1];
      if c in Run(s, prior).db.market.claims {
        ClaimsHaveCommits(s, prior, c);
      }
      CommitStaysKnown(Run(s, prior), es[|es| - 1], c);
    }
  }

  /** The commit at `i` is the only one of its scope. */
  lemma OnlyCommitOfScope(s: Sys, es: seq<Event>, i: nat)
    requires Init(s) && i < |Run(s, es).done|
    ensures forall j | 0 <= j < |Run(s, es).done| ::
              ScopeOf(Run(s, es).done[j].mutation) == ScopeOf(Run(s, es).done[i].mutation) ==> j == i
  {
    forall j | 0 <= j < |Run(s, es).done| && j != i
      ensures ScopeOf(Run(s, es).done[j].mutation) != ScopeOf(Run(s, es).done[i].mutation)
    {
      if i < j {
        OneCommitPerScope(s, es, i, j);
      } else {
        OneCommitPerScope(s, es, j, i);
      }
    }
  }

  lemma LandedIsAnswered(s: Sys, es: seq<Event>, mu: Mutation, reply: Reply) returns (i: nat)
    requires Init(s) && LandedWith(s, es, mu, reply)
    ensures AnsweredByScope(s, es, mu, reply, i)
  {
    var k :| k in Run(s, es).done && k.mutation == mu && k.reply == reply;
    i :| 0 <= i < |Run(s, es).done| && Run(s, es).done[i] == k;
    OnlyCommitOfScope(s, es, i);
  }

  /** A taken scope was taken by a commit, and is answered by it in every later state. */
  lemma ReplayedIsAnswered(s: Sys, es: seq<Event>, mu: Mutation, reply: Reply) returns (i: nat)
    requires Init(s) && ReplayedWith(s, es, mu, reply)
    ensures AnsweredByScope(s, es, mu, reply, i)
  {
    var n :| 0 <= n <= |es| && ReplayedAt(Run(s, es[..n]).db, mu, reply);
    i := CommitOfScope(s, es[..n], mu);
    ReplayIsReply(s, es[..n], mu, i);
    CommitStays(s, es, n, i);
    OnlyCommitOfScope(s, es, i);
  }

  lemma CommitStays(s: Sys, es: seq<Event>, n: nat, i: nat)
    requires Init(s) && n <= |es| && i < |Run(s, es[..n]).done|
    ensures i < |Run(s, es).done| && Run(s, es).done[i] == Run(s, es[..n]).done[i]
  {
    RunExtends(s, es[..n], es[n..]);
    assert es[..n] + es[n..] == es;
  }

  lemma ReplayIsReply(s: Sys, es: seq<Event>, mu: Mutation, i: nat)
    requires Init(s) && i < |Run(s, es).done| && ScopeOf(Run(s, es).done[i].mutation) == ScopeOf(mu)
    ensures var k := Run(s, es).done[i];
            Replay(Run(s, es).db, mu) ==
            if mu.digest == k.mutation.digest then k.reply else Refusal(IdempotencyConflict)
  {
    assert es + [] == es;
    RetriesRepeatTheOutcome(s, es, [], Run(s, es).done[i], mu, Ids(0, 0), 0, 0);
  }

  lemma CommitOfScope(s: Sys, es: seq<Event>, mu: Mutation) returns (i: nat)
    requires Init(s) && Claimed(Run(s, es).db.market, ScopeOf(mu))
    ensures i < |Run(s, es).done| && ScopeOf(Run(s, es).done[i].mutation) == ScopeOf(mu)
  {
    var r := Run(s, es);
    var c := ClaimAt(r.db.market, ScopeOf(mu));
    ClaimsHaveCommits(s, es, c);
    i :| 0 <= i < |r.done| && r.done[i].writes.claim == c;
    RunKeepsAll(s, es);
    assert r.done[i] in r.done && CommitOk(r.db, r.done[i]);
  }

  /** Attempts of one mutation, however many and however they race, land at most one commit. */
  lemma AtMostOneLands(s: Sys, es: seq<Event>, mu: Mutation, i: nat, j: nat)
    requires Init(s) && i < |Run(s, es).done| && j < |Run(s, es).done|
    requires Run(s, es).done[i].mutation == mu && Run(s, es).done[j].mutation == mu
    ensures i == j
  {
    OnlyCommitOfScope(s, es, i);
  }

  /**
  One call through the retry loop, its attempts being transactions of the run:
  a caller that gets an answer gets that of the one commit of its scope, or a
  refusal by an attempt that recorded nothing.
   */
  method Call(ghost s: Sys, ghost es: seq<Event>, ghost mu: Mutation, tries: seq<Try<Reply>>, waits: seq<bool>)
    returns (result: Retried<Reply>, ghost commit: nat)
    requires Init(s) && |tries| >= MAX_ATTEMPTS && |waits| >= MAX_ATTEMPTS
    requires forall i | 0 <= i < |tries| :: Returned(s, es, mu, tries[i])
    ensures result.Done? ==>
              || AnsweredByScope(s, es, mu, result.value, commit)
              || RefusedWith(s, es, mu, result.value)
    ensures result.Done? ==> exists i :: 0 <= i < MAX_ATTEMPTS && tries[i] == Settled(result.value)
  {
    var attempts, waited;
    result, attempts, waited := RetryTransaction(tries, waits);
    commit := 0;
    if result.Done? {
      assert Returned(s, es, mu, tries[attempts - 1]);
      if LandedWith(s, es, mu, result.value) {
        commit := LandedIsAnswered(s, es, mu, result.value);
      } else if ReplayedWith(s, es, mu, result.value) {
        commit := ReplayedIsAnswered(s, es, mu, result.value);
      }
    }
  }
}
