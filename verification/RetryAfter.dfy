/**
 The wait a refused client is told, as the Retry-After header of a 429 response counts it: in whole
 seconds (section 10.2.3 of RFC 9110).
 */
module RetryAfter {
  import opened Collections
  import opened AbuseGuard
  import opened GuardRuns

  const SECOND: int := 1_000_000_000

  /** The header is written only when the refusal knows its end, and its value is rounded up. */
  ghost predicate HeaderFor(outcome: Outcome, header: Option<int>) {
    if outcome.RateRefused? && outcome.wait > 0 then
      header.Some? && 1 <= header.value && (header.value - 1) * SECOND < outcome.wait <= header.value * SECOND
    else
      header == None
  }

  method SetRetryAfter(outcome: Outcome) returns (header: Option<int>)
    ensures HeaderFor(outcome, header)
  {
    if !outcome.RateRefused? {
      return None;
    }
    var wait := outcome.wait;
    if wait <= 0 {
      return None;
    }
    var seconds := (wait + SECOND - 1) / SECOND;
    if seconds < 1 {
      seconds := 1;
    }
    return Some(seconds);
  }

  /**
   A client that stays away for the advertised number of seconds gets past the rate check. One
   that comes back a whole second or more before that, or at any other time before the window
   reopens, is still refused.
   */
  lemma ObeyingTheHeaderIsNeverEarly(limits: Limits, policy: Policy, g: GuardState, clock: int, remoteHost: string,
                                     now: int, header: int, calls: seq<Call>, i: nat)
    requires WindowsValid(limits, g, clock) && clock <= now && Monotone(calls, now)
    requires var refusal := Step(limits, policy, g, Reserve(remoteHost, now)).1.value;
             refusal.RateRefused? && HeaderFor(refusal, Some(header))
    requires i < |calls| && AttemptBy(calls[i], ClientKey(remoteHost))
    requires forall j :: 0 <= j < i ==> !AttemptBy(calls[j], ClientKey(remoteHost))
    ensures 1 <= header <= 60
    ensures var (g', refusal) := Step(limits, policy, g, Reserve(remoteHost, now));
            var answer := Answers(limits, policy, g', calls)[i].value;
            && (calls[i].now >= now + header * SECOND ==> answer.PassesRateCheck())
            && (calls[i].now <= now + (header - 1) * SECOND ==> answer.RateRefused?)
            && (answer.PassesRateCheck() <==> calls[i].now >= now + refusal.value.wait)
  {
    AdvertisedWaitIsExact(limits, policy, g, clock, remoteHost, now, calls, i);
    var opensAt := now + Step(limits, policy, g, Reserve(remoteHost, now)).1.value.wait;
    if calls[i].now >= opensAt {
      assert FirstAtOrAfter(calls, ClientKey(remoteHost), opensAt, i);
    }
  }
}
