/** When the wait for a replacement backend ends: the counter-keeping handler against a
    characterisation over the whole sequence of FE polls that mentions no counter. */
module BackendPolls {
  import opened Wrappers
  import opened GracefulTypes
  import opened HandlerReadings
  import Spec = GracefulSpec

  /** The record after a sequence of polls; once the wait is over it no longer changes. */
  function After(a: Action, polls: seq<View>): Action {
    if polls == [] then a
    else
      var before := After(a, polls[..|polls| - 1]);
      if before.phase != WaitBEAlive then before
      else Spec.HandleWaitBEAlive(polls[|polls| - 1], before).action
  }

  // ----- the characterisation

  /** The poll shows the pod's backend up, not shutting down, and of another generation than the drained one. */
  predicate Accepted(a: Action, v: View) {
    a.currentPod in v.backends
    && Acceptable(v.backends[a.currentPod], a.initial.backendStartTime, a.initial.backendEpoch)
  }

  /** The generation an accepted poll shows. */
  function Generation(a: Action, v: View): (string, string)
    requires Accepted(a, v)
  {
    (v.backends[a.currentPod].startTime, ToldEpoch(v.backends[a.currentPod]))
  }

  function Deadline(a: Action, polls: seq<View>): int
    requires polls != []
  {
    if a.timer.deadlineAt.Some? then a.timer.deadlineAt.value else polls[0].now + 400
  }

  /** j is the latest accepted poll before i. */
  ghost predicate LatestAccepted(a: Action, polls: seq<View>, i: nat, j: nat)
    requires i <= |polls|
  {
    j < i && Accepted(a, polls[j]) && forall m | j < m < i :: !Accepted(a, polls[m])
  }

  /** Poll i shows the generation of the latest accepted poll before it. */
  ghost predicate Confirms(a: Action, polls: seq<View>, i: nat)
    requires i < |polls|
  {
    Accepted(a, polls[i])
    && exists j: nat :: LatestAccepted(a, polls, i, j) && Generation(a, polls[j]) == Generation(a, polls[i])
  }

  ghost predicate EndsWait(a: Action, polls: seq<View>, i: nat)
    requires i < |polls|
  {
    Confirms(a, polls, i) || (!Accepted(a, polls[i]) && polls[i].later > Deadline(a, polls))
  }

  // ----- the refinement

  /** A record that has just entered the wait, or has seen no accepted poll yet. */
  predicate StartsWait(a: Action) {
    && a.phase == WaitBEAlive
    && a.stableObservations == 0
    && a.replacement.backendStartTime == "" && a.replacement.backendEpoch == ""
  }

  /** The generation of the latest accepted poll among the first n. */
  function LastGeneration(a: Action, polls: seq<View>, n: nat): Option<(string, string)>
    requires n <= |polls|
  {
    if n == 0 then None
    else if Accepted(a, polls[n - 1]) then Some(Generation(a, polls[n - 1]))
    else LastGeneration(a, polls, n - 1)
  }

  lemma {:induction false} LatestHasLastGeneration(a: Action, polls: seq<View>, n: nat)
    requires n <= |polls|
    ensures match LastGeneration(a, polls, n)
            case None => forall j: nat :: !LatestAccepted(a, polls, n, j)
            case Some(g) =>
              && (exists j: nat :: LatestAccepted(a, polls, n, j))
              && forall j: nat | LatestAccepted(a, polls, n, j) :: Generation(a, polls[j]) == g
  {
    hide Accepted, Generation;
    if n > 0 {
      LatestHasLastGeneration(a, polls, n - 1);
      if Accepted(a, polls[n - 1]) {
        assert LatestAccepted(a, polls, n, n - 1);
      } else {
        assert forall j: nat :: LatestAccepted(a, polls, n, j) <==> LatestAccepted(a, polls, n - 1, j);
        if LastGeneration(a, polls, n - 1).Some? {
          var j: nat :| LatestAccepted(a, polls, n - 1, j);
          assert LatestAccepted(a, polls, n, j);
        }
      }
    }
  }

  lemma ConfirmsByLastGeneration(a: Action, polls: seq<View>, i: nat)
    requires i < |polls|
    ensures Confirms(a, polls, i)
       <==> (Accepted(a, polls[i]) && LastGeneration(a, polls, i) == Some(Generation(a, polls[i])))
  {
    hide Accepted, Generation, LatestAccepted;
    LatestHasLastGeneration(a, polls, i);
  }

  /** The record is the starting one but for the timer, the generation last accepted and its count. */
  ghost predicate Tracks(a: Action, polls: seq<View>, n: nat, b: Action)
    requires n <= |polls|
  {
    && b == a.(timer := b.timer, replacement := b.replacement, stableObservations := b.stableObservations)
    && (n == 0 ==> b.timer == a.timer)
    && (n > 0 ==> b.timer.deadlineAt == Some(Deadline(a, polls)))
    && var last := LastGeneration(a, polls, n);
    && b.stableObservations == (if last.Some? then 1 else 0)
    && (b.replacement.backendStartTime, b.replacement.backendEpoch) == (if last.Some? then last.value else ("", ""))
  }

  lemma PollKeepsTrack(a: Action, polls: seq<View>, n: nat, b: Action)
    requires StartsWait(a) && n < |polls| && Tracks(a, polls, n, b)
    ensures var c := Spec.HandleWaitBEAlive(polls[n], b).action;
            if EndsWait(a, polls, n) then c == Spec.AdvanceToNextPod(a)
            else c.phase == WaitBEAlive && Tracks(a, polls, n + 1, c)
  {
    hide Confirms;
    ConfirmsByLastGeneration(a, polls, n);
    assert Accepted(b, polls[n]) == Accepted(a, polls[n]);
  }

  lemma StartTracks(a: Action, polls: seq<View>)
    requires StartsWait(a)
    ensures Tracks(a, polls, 0, a)
  {
  }

  /** While no poll has ended the wait the record tracks the polls; at the first that does, it is the
      starting record moved on to the next pod. */
  lemma {:induction false} WaitFollowsPolls(a: Action, polls: seq<View>, n: nat)
    requires StartsWait(a) && n <= |polls|
    ensures if exists i :: 0 <= i < n && EndsWait(a, polls, i)
            then After(a, polls[..n]) == Spec.AdvanceToNextPod(a)
            else After(a, polls[..n]).phase == WaitBEAlive && Tracks(a, polls, n, After(a, polls[..n]))
  {
    hide EndsWait, Tracks, Spec.HandleWaitBEAlive;
    StartTracks(a, polls);
    if n > 0 {
      WaitFollowsPolls(a, polls, n - 1);
      assert polls[..n][..n - 1] == polls[..n - 1];
      if !exists i :: 0 <= i < n - 1 && EndsWait(a, polls, i) {
        PollKeepsTrack(a, polls, n - 1, After(a, polls[..n - 1]));
      }
    }
  }

  /** For every sequence of polls the handler moves on at exactly the first poll that either confirms
      the generation of the latest accepted poll, or is not accepted and past the deadline. A poll that
      is not accepted in between does not break the confirmation. */
  lemma AdvancesAtFirstEnd(a: Action, polls: seq<View>, i: nat)
    requires StartsWait(a) && i < |polls|
    ensures (After(a, polls[..i]).phase == WaitBEAlive && After(a, polls[..i + 1]).phase != WaitBEAlive)
        <==> (EndsWait(a, polls, i) && forall m | 0 <= m < i :: !EndsWait(a, polls, m))
    ensures After(a, polls).phase != WaitBEAlive ==> After(a, polls) == Spec.AdvanceToNextPod(a)
  {
    hide After, EndsWait, Tracks;
    WaitFollowsPolls(a, polls, i);
    WaitFollowsPolls(a, polls, i + 1);
    WaitFollowsPolls(a, polls, |polls|);
    assert polls[..|polls|] == polls;
  }
}
