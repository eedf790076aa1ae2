/** The polling loop of `wait` (ais/txn.go), for every behaviour of the rest of the target. */
module TxnWait {
  import opened Common
  import opened Transactions

  /** What one poll observes. */
  datatype Obs = Obs(done: Option<Err>, registered: bool, record: bool)

  /** Milliseconds between polls. */
  const SLEEP := 100

  /** The record has been seen at poll `k` or before. */
  predicate Found(env: seq<Obs>, k: nat)
    requires k < |env|
  {
    exists i :: 0 <= i <= k && env[i].record
  }

  /** The timeout that applies at poll `k` is set and has passed. */
  predicate Overdue(env: seq<Obs>, netw: nat, host: nat, k: nat)
    requires k < |env|
  {
    var timeout := if Found(env, k) then host else netw;
    timeout != 0 && (k + 1) * SLEEP > timeout
  }

  predicate EndsAt(env: seq<Obs>, netw: nat, host: nat, k: nat)
    requires k < |env|
  {
    env[k].done.Some? || !env[k].registered || Overdue(env, netw, host, k)
  }

  function ResultAt(env: seq<Obs>, k: nat): Err
    requires k < |env|
  {
    if env[k].done.Some? then env[k].done.value
    else if !env[k].registered then NotFound
    else TimedOut
  }

  /** `env` is what the polls observe, as far as it is known. The wait ends at the first poll that
      finds the transaction done or gone, or a timeout overdue; `None` means it is still polling. */
  method Wait(env: seq<Obs>, netw: nat, host: nat) returns (result: Option<Err>, polls: nat)
    ensures polls <= |env| && forall k :: 0 <= k < polls - 1 ==> !EndsAt(env, netw, host, k)
    ensures result.Some? ==> 0 < polls && EndsAt(env, netw, host, polls - 1) && result.value == ResultAt(env, polls - 1)
    ensures result.None? ==> polls == |env| && forall k :: 0 <= k < |env| ==> !EndsAt(env, netw, host, k)
  {
    var found, total := false, SLEEP;
    polls := 0;
    while polls < |env|
      invariant polls <= |env| && total == (polls + 1) * SLEEP
      invariant found <==> exists i :: 0 <= i < polls && env[i].record
      invariant forall k :: 0 <= k < polls ==> !EndsAt(env, netw, host, k)
    {
      var obs := env[polls];
      polls := polls + 1;
      if obs.done.Some? {
        return obs.done, polls;
      }
      if !obs.registered {
        return Some(NotFound), polls;
      }
      if !found {
        found := obs.record;
      }
      assert found <==> Found(env, polls - 1);
      if found {
        if host != 0 && total > host {
          return Some(TimedOut), polls;
        }
      } else if netw != 0 && total > netw {
        return Some(TimedOut), polls;
      }
      total := total + SLEEP;
    }
    result := None;
  }

  /** What a poll observes in a state of the protocol. */
  ghost function Observed(s: Sys, u: Uuid): Obs
    requires u in s.board.txns
  {
    Obs(s.board.txns[u].err, u in s.m, u in s.board.rdz)
  }

  /** One round of the loop is a poll, a check for an abort, and an expiry of the protocol, in that order:
      the first of them that ends the wait ends it with the result of the loop; if it is overdue, the
      third one does. */
  lemma RoundIsSteps(s: Sys, w: nat)
    requires WellFormed(s) && w in s.board.waiters && s.board.waiters[w].phase.Polling?
    ensures var u := s.board.waiters[w].uid;
            var env := [Observed(s, u)];
            var polled := Step(s, Poll(w));
            && WellFormed(polled) && w in polled.board.waiters
            && (env[0].done.Some? ==> polled.board.waiters[w].phase == Done(ResultAt(env, 0)))
            && (env[0].done.None? ==>
                  && polled == s
                  && var checked := Step(s, CheckAborted(w));
                  && w in checked.board.waiters
                  && (!env[0].registered ==> checked.board.waiters[w].phase == Done(ResultAt(env, 0)))
                  && (env[0].registered ==> checked == s && Step(s, Expire(w)).board.waiters[w].phase == Done(ResultAt(env, 0))))
  {
    StepWellFormed(s, Poll(w));
  }

  /** While the transaction is registered and not done: before a record is seen, only the network timeout
      ends the wait, at the first poll by which it has passed; after that, only the host timeout does. */
  lemma WhichTimeout(env: seq<Obs>, netw: nat, host: nat, k: nat)
    requires k < |env| && env[k].done.None? && env[k].registered
    ensures (forall i :: 0 <= i <= k ==> !env[i].record) ==> (EndsAt(env, netw, host, k) <==> netw != 0 && k >= netw / SLEEP)
    ensures (exists i :: 0 <= i <= k && env[i].record) ==> (EndsAt(env, netw, host, k) <==> host != 0 && k >= host / SLEEP)
  {
  }

  /** So a record that is never seen makes the host timeout irrelevant, and one that is seen at once makes
      the network timeout irrelevant. */
  lemma OneTimeout(env: seq<Obs>, netw: nat, host: nat, other: nat, k: nat)
    requires k < |env|
    ensures (forall i :: 0 <= i < |env| ==> !env[i].record) ==> (EndsAt(env, netw, host, k) <==> EndsAt(env, netw, other, k))
    ensures env[0].record ==> (EndsAt(env, netw, host, k) <==> EndsAt(env, other, host, k))
  {
    if env[k].done.None? && env[k].registered {
      WhichTimeout(env, netw, host, k);
      WhichTimeout(env, netw, other, k);
      WhichTimeout(env, other, host, k);
    }
  }

  /** The number of polls after which either timeout is overdue. */
  function Bound(netw: nat, host: nat): nat {
    (if netw < host then host else netw) / SLEEP + 1
  }

  /** Some environment keeps the wait polling for `n` polls. */
  ghost predicate CanPoll(netw: nat, host: nat, n: nat) {
    exists env: seq<Obs> :: |env| == n && forall k :: 0 <= k < n ==> !EndsAt(env, netw, host, k)
  }

  /** The wait is bounded, whatever the rest of the target does, if and only if both timeouts are
      set; the bound is the larger timeout over the polling interval, plus one. */
  lemma BoundedIff(netw: nat, host: nat)
    ensures netw != 0 && host != 0 ==> !CanPoll(netw, host, Bound(netw, host))
    ensures netw == 0 || host == 0 ==> forall n: nat :: CanPoll(netw, host, n)
  {
    if netw != 0 && host != 0 {
      forall env: seq<Obs> | |env| == Bound(netw, host)
        ensures EndsAt(env, netw, host, Bound(netw, host) - 1)
      {
      }
    } else {
      forall n: nat ensures CanPoll(netw, host, n) {
        NeverEnds(netw, host, n);
      }
    }
  }

  /** With one timeout not set, a record that never comes (or comes at once) keeps the wait going. */
  lemma NeverEnds(netw: nat, host: nat, n: nat)
    requires netw == 0 || host == 0
    ensures CanPoll(netw, host, n)
  {
    var env := seq(n, _ => Obs(None, true, netw != 0));
    assert forall k :: 0 <= k < n ==> env[k].record == (netw != 0);
    forall k | 0 <= k < n ensures !EndsAt(env, netw, host, k) {
      assert env[k].record == (netw != 0);
    }
  }

  /** The bound is reached. */
  lemma BoundIsTight(netw: nat, host: nat)
    ensures CanPoll(netw, host, Bound(netw, host) - 1)
  {
    var n, late := Bound(netw, host) - 1, netw < host;
    var env := seq(n, _ => Obs(None, true, late));
    assert forall k :: 0 <= k < n ==> env[k].record == late;
    forall k | 0 <= k < n ensures !EndsAt(env, netw, host, k) {
      assert env[k].record == late;
      assert Found(env, k) <==> late;
      assert (k + 1) * SLEEP <= n * SLEEP <= (if late then host else netw);
    }
    assert |env| == n;
  }
}
