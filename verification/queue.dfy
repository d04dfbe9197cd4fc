/** The queue object itself: its methods update the table in place, loop by loop. */
module PostgameQueue {
  import opened Directories
  import opened Wrappers
  import opened QueueTable

  class Queue {
    var rows: Table

    constructor ()
      ensures rows == map[]
    {
      rows := map[];
    }

    method Reconcile(polls: seq<Poll>, directory: Directory, at: int) returns (answer: Admission)
      modifies this
      ensures answer == Admit(old(rows), polls, directory, at)
      ensures rows == Apply(old(rows), Event.Reconcile(polls, directory, at))
    {
      var seen: set<string> := {};
      var validated: seq<Poll> := [];
      for i := 0 to |polls|
        invariant rows == old(rows)
        invariant forall id :: id in seen <==> Mentions(polls[..i], id)
        invariant Admit(rows, polls[..i], directory, at) == Admitted(validated)
      {
        var p := polls[i];
        assert polls[..i + 1] == polls[..i] + [p];
        AdmitStep(rows, polls[..i], p, directory, at);
        if p.gameId == "" || p.gameId in seen {
          RejectionSpreads(rows, polls, i + 1, directory, at);
          return Rejected(DuplicateOrEmpty);
        }
        seen := seen + {p.gameId};
        match Screen(Lookup(rows, p.gameId), p, directory, at) {
          case Refused(why) =>
            RejectionSpreads(rows, polls, i + 1, directory, at);
            return Rejected(why);
          case Ignored =>
          case Taken => validated := validated + [p];
        }
      }
      assert polls[..|polls|] == polls;
      AdmittedAreDistinct(rows, polls, directory, at);
      Write(validated, at);
      return Admitted(validated);
    }

    /** The transaction at the end of `reconcile`. */
    method Write(validated: seq<Poll>, at: int)
      requires Distinct(validated)
      modifies this
      ensures rows == Upserts(old(rows), validated, at)
    {
      for i := 0 to |validated|
        invariant rows == Upserts(old(rows), validated[..i], at)
      {
        var p := validated[i];
        UpsertsLookup(old(rows), validated[..i], at, p.gameId);
        assert validated[..i + 1][..i] == validated[..i];
        rows := rows[p.gameId := Merge(Lookup(rows, p.gameId), p, at)];
      }
      assert validated[..|validated|] == validated;
    }

    method Claim(at: int, seconds: int, token: string) returns (reply: ClaimReply)
      modifies this
      ensures (rows, reply) == Claimed(old(rows), at, seconds, token)
    {
      if !(1 <= seconds <= 3600) {
        return BadLease;
      }
      var eligible := EligibleIds(rows, at);
      if eligible == {} {
        return NothingDue;
      }
      assert IsFirst(rows, eligible, First(rows, eligible));
      var g :| g in eligible && IsFirst(rows, eligible, g);
      reply := Granted(Grant(g, token, at + seconds, rows[g].verified));
      rows := rows[g := Lease(rows[g], at, seconds, token)];
      ClaimDetermined(old(rows), at, seconds, token, rows, reply);
    }

    method Finish(gameId: string, token: string, at: int, version: Option<string>, error: Option<string>,
                  failure: Option<State>, retry: int) returns (reply: FinishReply)
      modifies this
      ensures reply == FinishAnswer(old(rows), gameId, token, at, version, error, failure, retry)
      ensures rows == Apply(old(rows), Event.Finish(gameId, token, at, version, error, failure, retry))
    {
      if !(1 <= retry <= 86400) {
        return BadDelay;
      }
      if !Holds(rows, gameId, token, at) {
        return ExpiredOrSuperseded;
      }
      var row, state := rows[gameId], Quarantined;
      if Truthy(version) {
        if Truthy(error) || failure.Some? {
          return VerifyAndFail;
        }
        state := if Truthy(row.verified) && row.verified != version then Corrected else Verified;
      } else if !FailureState(failure) {
        return NoFailureState;
      } else {
        state := failure.value;
      }
      var due := if state == Quarantined then None else Some(at + retry);
      rows := rows[gameId := row.(state := state, due := due, token := None, leaseUntil := None, error := error,
                                  verified := if version.Some? then version else row.verified)];
      return Finished;
    }
  }

  /** One more poll at the end of a batch. */
  lemma AdmitStep(t: Table, polls: seq<Poll>, p: Poll, directory: Directory, at: int)
    ensures Admit(t, polls + [p], directory, at) ==
            match Admit(t, polls, directory, at)
            case Rejected(why) => Rejected(why)
            case Admitted(taken) =>
              if p.gameId == "" || Mentions(polls, p.gameId) then Rejected(DuplicateOrEmpty)
              else
                match Screen(Lookup(t, p.gameId), p, directory, at)
                case Refused(why) => Rejected(why)
                case Ignored => Admitted(taken)
                case Taken => Admitted(taken + [p])
  {
    assert (polls + [p])[..|polls|] == polls;
  }

  /** A refused prefix refuses the batch, for the same reason. */
  lemma {:induction false} RejectionSpreads(t: Table, polls: seq<Poll>, i: nat, directory: Directory, at: int)
    requires i <= |polls| && Admit(t, polls[..i], directory, at).Rejected?
    ensures Admit(t, polls, directory, at) == Admit(t, polls[..i], directory, at)
  {
    if i == |polls| {
      assert polls[..i] == polls;
    } else {
      assert polls[..|polls| - 1][..i] == polls[..i];
      RejectionSpreads(t, polls[..|polls| - 1], i, directory, at);
    }
  }

  predicate Distinct(polls: seq<Poll>) {
    forall i, j :: 0 <= i < j < |polls| ==> polls[i].gameId != polls[j].gameId
  }

  lemma {:induction false} AdmittedAreDistinct(t: Table, polls: seq<Poll>, directory: Directory, at: int)
    requires Admit(t, polls, directory, at).Admitted?
    ensures var taken := Admit(t, polls, directory, at).polls;
            Distinct(taken) && forall p <- taken :: p in polls
    ensures Distinct(polls)
  {
    if polls != [] {
      AdmittedAreDistinct(t, polls[..|polls| - 1], directory, at);
    }
  }

  /** Writing one game's poll leaves every other game's row as it was. */
  lemma {:induction false} UpsertsLookup(t: Table, taken: seq<Poll>, at: int, id: string)
    requires forall p <- taken :: p.gameId != id
    ensures Lookup(Upserts(t, taken, at), id) == Lookup(t, id)
  {
    if taken != [] {
      UpsertsLookup(t, taken[..|taken| - 1], at, id);
    }
  }
}
