/** `ApiClient::dispatch` of `src/services/api_client.rs`: sending until there is a
    response or the retries are used up. */
module RetryLoop {
  import opened Unsigned32

  /** How one `send` ends: a transport error, or a response that is a success or not */
  datatype Outcome = TransportError | Response(success: bool)

  /** The loop's counter after some transport errors in a row */
  function Attempts(errors: nat): nat {
    if errors == 0 then 0 else Increment(Attempts(errors - 1))
  }

  /** After so many transport errors in a row the loop still sends again. */
  predicate StillTrying(retryAttempts: nat, errors: nat) {
    errors == 0 || (StillTrying(retryAttempts, errors - 1) && Attempts(errors) <= retryAttempts)
  }

  ghost predicate AllErrors(outcome: nat -> Outcome, sends: nat) {
    forall k: nat :: k < sends ==> outcome(k).TransportError?
  }

  /** The loop ends with its `sends`-th send: the first response, or the first
      transport error after which it does not try again. */
  ghost predicate EndsAfter(outcome: nat -> Outcome, retryAttempts: nat, sends: nat) {
    && sends >= 1 && AllErrors(outcome, sends - 1) && StillTrying(retryAttempts, sends - 1)
    && (outcome(sends - 1).TransportError? ==> !StillTrying(retryAttempts, sends))
  }

  /** What is seen of the loop within `limit` sends: its end, or that many errors */
  ghost predicate IsDispatch(outcome: nat -> Outcome, retryAttempts: nat, limit: nat, finished: bool, ok: bool,
      sends: nat) {
    if finished then
      sends <= limit && EndsAfter(outcome, retryAttempts, sends) && (ok <==> outcome(sends - 1) == Response(true))
    else
      !ok && sends == limit && AllErrors(outcome, limit) && StillTrying(retryAttempts, limit)
  }

  /** `dispatch`, watched for at most `limit` sends, where `outcome(k)` is what the
      k-th send returns */
  method Dispatch(knownMethod: bool, outcome: nat -> Outcome, retryAttempts: nat, limit: nat)
    returns (finished: bool, ok: bool, sends: nat)
    requires retryAttempts < U32_SIZE
    ensures if knownMethod then IsDispatch(outcome, retryAttempts, limit, finished, ok, sends)
        else finished && !ok && sends == 0
    ensures knownMethod && (forall k: nat :: outcome(k).TransportError?) ==>
              (finished <==> retryAttempts < U32_SIZE - 1 && retryAttempts + 1 <= limit)
  {
    finished, ok, sends := false, false, 0;
    if !knownMethod {
      return true, false, 0;
    }
    var attempt: nat := 0;
    StillTryingIs(retryAttempts, 0);
    while sends < limit
      invariant sends <= limit && attempt == Attempts(sends)
      invariant AllErrors(outcome, sends) && StillTrying(retryAttempts, sends)
      invariant sends <= retryAttempts || retryAttempts == U32_SIZE - 1
    {
      var sent := outcome(sends);
      sends := sends + 1;
      match sent {
        case Response(success) =>
          return true, success, sends;
        case TransportError =>
          attempt := Increment(attempt);
          StillTryingIs(retryAttempts, sends);
          if attempt > retryAttempts {
            return true, false, sends;
          }
      }
    }
  }

  /** Without retries left over the counter says how many errors there were; the
      largest 32-bit value is never exceeded by it. */
  lemma {:induction false} StillTryingIs(retryAttempts: nat, errors: nat)
    requires retryAttempts < U32_SIZE
    ensures StillTrying(retryAttempts, errors) <==> errors <= retryAttempts || retryAttempts == U32_SIZE - 1
    ensures Attempts(errors) < U32_SIZE && (errors < U32_SIZE ==> Attempts(errors) == errors)
  {
    if errors > 0 {
      StillTryingIs(retryAttempts, errors - 1);
    }
  }

  lemma LastSendTried(outcome: nat -> Outcome, retryAttempts: nat, limit: nat, finished: bool, ok: bool, sends: nat)
    requires IsDispatch(outcome, retryAttempts, limit, finished, ok, sends)
    ensures sends > 0 ==> StillTrying(retryAttempts, sends - 1)
  {
  }

  /** The loop ends once only. */
  lemma EndsOnce(outcome: nat -> Outcome, retryAttempts: nat, sends: nat, sends': nat)
    requires EndsAfter(outcome, retryAttempts, sends) && EndsAfter(outcome, retryAttempts, sends')
    ensures sends == sends'
  {
    if sends < sends' {
      TryingBefore(retryAttempts, sends, sends' - 1);
    } else if sends' < sends {
      TryingBefore(retryAttempts, sends', sends - 1);
    }
  }

  lemma {:induction false} TryingBefore(retryAttempts: nat, early: nat, late: nat)
    requires StillTrying(retryAttempts, late) && early <= late
    ensures StillTrying(retryAttempts, early)
  {
    if early < late {
      TryingBefore(retryAttempts, early, late - 1);
    }
  }

  /** With fewer retries than the largest 32-bit value every call ends within
      `retryAttempts + 1` sends; a service that never answers is sent to that often. */
  lemma SendsAreBounded(outcome: nat -> Outcome, retryAttempts: nat, sends: nat)
    requires retryAttempts < U32_SIZE - 1 && EndsAfter(outcome, retryAttempts, sends)
    ensures sends <= retryAttempts + 1
    ensures outcome(sends - 1).TransportError? ==> sends == retryAttempts + 1
  {
    StillTryingIs(retryAttempts, sends - 1);
    StillTryingIs(retryAttempts, sends);
  }

  /** A service that never answers is given up on exactly when the number of retries
      is below the largest 32-bit value; with that value the counter wraps before it
      is exceeded. */
  lemma GivesUpBelowMax(outcome: nat -> Outcome, retryAttempts: nat, limit: nat)
    requires retryAttempts < U32_SIZE && forall k: nat :: outcome(k).TransportError?
    ensures (exists sends: nat :: sends <= limit && EndsAfter(outcome, retryAttempts, sends)) <==>
            retryAttempts < U32_SIZE - 1 && retryAttempts + 1 <= limit
  {
    StillTryingIs(retryAttempts, retryAttempts);
    StillTryingIs(retryAttempts, retryAttempts + 1);
    if retryAttempts < U32_SIZE - 1 {
      assert EndsAfter(outcome, retryAttempts, retryAttempts + 1);
    }
    forall sends: nat | EndsAfter(outcome, retryAttempts, sends)
      ensures retryAttempts < U32_SIZE - 1 && sends == retryAttempts + 1
    {
      StillTryingIs(retryAttempts, sends - 1);
      StillTryingIs(retryAttempts, sends);
    }
  }
}
