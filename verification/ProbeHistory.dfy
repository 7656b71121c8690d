/** The failure and quarantine machine of one endpoint, and what its counters
    mean in terms of the whole history of probes. */
module ProbeHistory {
  import opened EgressTypes

  datatype ProbeReport = ProbeReport(
    endpointID: string,
    checkedAt: Instant,
    reachable: bool,
    staticIPMatch: bool,
    countryMatch: bool,
    dnsLeak: bool,
    routeLeak: bool,
    tlsValid: bool)
  {
    predicate HardFailure() {
      !staticIPMatch || !countryMatch || dnsLeak || routeLeak || !tlsValid
    }
  }

  /** A failure counter that wraps like an unsigned 32-bit integer. */
  function Increment(n: uint32): uint32 {
    (n + 1) % 0x1_0000_0000
  }

  function AfterReport(h: Health, r: ProbeReport): Health {
    if r.HardFailure() then
      Health(false, true, r.checkedAt, Increment(h.failures))
    else if !r.reachable then
      Health(false, h.quarantined || Increment(h.failures) >= 3, r.checkedAt, Increment(h.failures))
    else if !h.quarantined then
      Health(true, false, r.checkedAt, 0)
    else
      h.(checkedAt := r.checkedAt)
  }

  function AfterMark(h: Health, healthy: bool, now: Instant): Health {
    if healthy then Health(true, h.quarantined, now, 0)
    else Health(false, h.quarantined || Increment(h.failures) >= 3, now, Increment(h.failures))
  }

  /** A probe that the registry accepted for an endpoint. */
  datatype Probe = Report(report: ProbeReport) | Mark(healthy: bool, at: Instant) {
    function Time(): Instant {
      match this
      case Report(r) => r.checkedAt
      case Mark(_, at) => at
    }

    predicate Hard() {
      Report? && report.HardFailure()
    }

    predicate Failed() {
      match this
      case Report(r) => r.HardFailure() || !r.reachable
      case Mark(h, _) => !h
    }

    function Apply(h: Health): Health {
      match this
      case Report(r) => AfterReport(h, r)
      case Mark(ok, at) => AfterMark(h, ok, at)
    }
  }

  function HealthAfter(history: seq<Probe>): Health {
    if history == [] then FRESH
    else history[|history| - 1].Apply(HealthAfter(history[..|history| - 1]))
  }

  ghost predicate HardFailureIn(history: seq<Probe>) {
    exists i :: 0 <= i < |history| && history[i].Hard()
  }

  ghost predicate FailedThriceAt(history: seq<Probe>, i: int) {
    0 <= i <= |history| - 3 && history[i].Failed() && history[i + 1].Failed() && history[i + 2].Failed()
  }

  ghost predicate ThreeFailuresInARow(history: seq<Probe>) {
    exists i :: FailedThriceAt(history, i)
  }

  /** The number of failed probes at the end of the history. */
  ghost function TrailingFailures(history: seq<Probe>): nat {
    if history == [] || !history[|history| - 1].Failed() then 0
    else 1 + TrailingFailures(history[..|history| - 1])
  }

  lemma {:induction false} TrailingAreFailures(history: seq<Probe>)
    ensures TrailingFailures(history) <= |history|
    ensures forall i :: |history| - TrailingFailures(history) <= i < |history| ==> history[i].Failed()
    ensures TrailingFailures(history) < |history| ==> !history[|history| - TrailingFailures(history) - 1].Failed()
  {
    if history != [] && history[|history| - 1].Failed() {
      TrailingAreFailures(history[..|history| - 1]);
    }
  }

  lemma ThreeInARowExtends(history: seq<Probe>)
    requires history != []
    ensures ThreeFailuresInARow(history) <==>
            ThreeFailuresInARow(history[..|history| - 1]) || TrailingFailures(history) >= 3
  {
    var prior := history[..|history| - 1];
    if ThreeFailuresInARow(prior) {
      var i :| FailedThriceAt(prior, i);
      assert FailedThriceAt(history, i);
    }
    TrailingAreFailures(history);
    if TrailingFailures(history) >= 3 {
      assert FailedThriceAt(history, |history| - 3);
    }
    if ThreeFailuresInARow(history) {
      var i :| FailedThriceAt(history, i);
      if i < |history| - 3 {
        assert FailedThriceAt(prior, i);
      }
    }
  }

  lemma HardExtends(history: seq<Probe>)
    requires history != []
    ensures HardFailureIn(history) <==> HardFailureIn(history[..|history| - 1]) || history[|history| - 1].Hard()
  {
    var prior := history[..|history| - 1];
    if HardFailureIn(prior) {
      var i :| 0 <= i < |prior| && prior[i].Hard();
      assert history[i].Hard();
    }
    if HardFailureIn(history) {
      var i :| 0 <= i < |history| && history[i].Hard();
      assert i < |prior| ==> prior[i].Hard();
    }
  }

  /** The counters refine the history, although the failure counter may wrap:
      it can only do so after the endpoint was quarantined for good. */
  lemma {:induction false} CountersRefineHistory(history: seq<Probe>)
    ensures HealthAfter(history).quarantined <==> HardFailureIn(history) || ThreeFailuresInARow(history)
    ensures !HealthAfter(history).quarantined ==>
              && HealthAfter(history).failures == TrailingFailures(history) < 3
              && (HealthAfter(history).healthy <==> history != [] && !history[|history| - 1].Failed())
    ensures HealthAfter(history).checkedAt == if history == [] then 0 else history[|history| - 1].Time()
  {
    if history != [] {
      var prior := history[..|history| - 1];
      CountersRefineHistory(prior);
      ThreeInARowExtends(history);
      HardExtends(history);
    }
  }

  /** Eligibility is a property of the history alone. Ages saturate at the
      largest Duration, so with that limit no age is too old. */
  lemma EligibleIffHistory(history: seq<Probe>, now: Instant, maxAge: int)
    requires maxAge <= MAX_DURATION
    ensures HealthAfter(history).Eligible(now, maxAge) <==>
            && history != []
            && !HardFailureIn(history)
            && !ThreeFailuresInARow(history)
            && !history[|history| - 1].Failed()
            && history[|history| - 1].Time() != 0
            && maxAge > 0
            && 0 <= now - history[|history| - 1].Time()
            && (now - history[|history| - 1].Time() <= maxAge || maxAge == MAX_DURATION)
  {
    CountersRefineHistory(history);
  }

  /** Differences of times saturate at the limits of 64 bits. */
  lemma DifferencesSaturate(a: Instant, b: Instant)
    ensures -9223372036854775808 <= a - b <= 9223372036854775807 ==> Sub(a, b) == a - b
    ensures a - b > 9223372036854775807 ==> Sub(a, b) == 9223372036854775807
    ensures a - b < -9223372036854775808 ==> Sub(a, b) == -9223372036854775808
  {
  }

  /** With that limit an endpoint stays eligible beyond it. */
  lemma AncientProbeIsEligible()
    ensures var history := [Mark(true, 1)];
            var now := MAX_DURATION + 2;
            now - history[0].Time() > 9223372036854775807 && HealthAfter(history).Eligible(now, 9223372036854775807)
  {
    assert HealthAfter([Mark(true, 1)][..0]) == FRESH;
  }

  /** The five checks that are hard: any of them failing quarantines at once, whatever else
      the report says; being unreachable is not among them. */
  lemma HardFailuresAre(r: ProbeReport, h: Health)
    ensures r.HardFailure() <==>
              !(r.staticIPMatch && r.countryMatch && !r.dnsLeak && !r.routeLeak && r.tlsValid)
    ensures r.HardFailure() ==> AfterReport(h, r).quarantined && !AfterReport(h, r).healthy
    ensures !r.HardFailure() && h.failures == 0 ==> AfterReport(h, r).quarantined == h.quarantined
  {
  }

  /** The failed probes since the counter was last set to zero. */
  ghost function FailuresSinceReset(history: seq<Probe>): nat {
    if history == [] then 0
    else
      var prior := history[..|history| - 1];
      var last := history[|history| - 1];
      if last.Failed() then FailuresSinceReset(prior) + 1
      else if last.Mark? || !HealthAfter(prior).quarantined then 0
      else FailuresSinceReset(prior)
  }

  /** The counter counts them modulo 2 to the 32. */
  lemma {:induction false} CounterWraps(history: seq<Probe>)
    ensures HealthAfter(history).failures == FailuresSinceReset(history) % 4294967296
  {
    if history != [] {
      CounterWraps(history[..|history| - 1]);
      ModuloNext(FailuresSinceReset(history[..|history| - 1]));
    }
  }

  lemma ModuloNext(n: nat)
    ensures (n % 4294967296 + 1) % 4294967296 == (n + 1) % 4294967296
  {
  }

  /** A probe says nothing about health when it succeeds on an endpoint in quarantine. */
  ghost predicate Silent(history: seq<Probe>, i: int) {
    0 <= i < |history| && history[i].Report? && !history[i].Failed() && HealthAfter(history[..i]).quarantined
  }

  /** The health flag is what the last probe that was not silent said. */
  lemma {:induction false} HealthIsLastWord(history: seq<Probe>, i: int)
    requires 0 <= i < |history| && !Silent(history, i) && forall j :: i < j < |history| ==> Silent(history, j)
    ensures HealthAfter(history).healthy <==> !history[i].Failed()
  {
    var prior := history[..|history| - 1];
    if i < |history| - 1 {
      assert Silent(history, |history| - 1);
      forall j | 0 <= j < |prior| ensures Silent(prior, j) <==> Silent(history, j) {
        assert prior[..j] == history[..j];
      }
      HealthIsLastWord(prior, i);
    }
  }
}
