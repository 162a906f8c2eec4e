/** What `progress_callback` records over a whole run of reports. */
module ProgressReports {
  import opened Entries
  import opened Scheduler

  datatype Report = Report(clock: int, total: int, now: int)

  datatype Sample = Sample(clock: int, speed: int)

  function Step(e: Entry, r: Report): Entry {
    Progress(e, r.clock, r.total, r.now)
  }

  /** A sample is taken when the last one, or the first report, is a second old. */
  predicate Sampled(e: Entry, r: Report) {
    e.measured != 0 && r.clock - e.measured >= 1
  }

  function After(e: Entry, reports: seq<Report>): Entry
    decreases |reports|
  {
    if reports == [] then e else After(Step(e, reports[0]), reports[1..])
  }

  /** The speeds recorded, with the time of each. */
  function Samples(e: Entry, reports: seq<Report>): seq<Sample>
    decreases |reports|
  {
    if reports == [] then []
    else
      var next := Step(e, reports[0]);
      (if Sampled(e, reports[0]) then [Sample(next.measured, next.speed)] else []) + Samples(next, reports[1..])
  }

  function Total(samples: seq<Sample>): int {
    if samples == [] then 0 else samples[0].speed + Total(samples[1..])
  }

  /** The recorded speeds add up to what was completed in between. */
  lemma {:induction false} EntryTelescopes(e: Entry, reports: seq<Report>)
    ensures Total(Samples(e, reports)) == After(e, reports).complete - e.complete
    decreases |reports|
  {
    if reports != [] {
      var next := Step(e, reports[0]);
      EntryTelescopes(next, reports[1..]);
      var rest := Samples(next, reports[1..]);
      assert [] + rest == rest;
      assert Sampled(e, reports[0]) ==> ([Sample(next.measured, next.speed)] + rest)[1..] == rest;
    }
  }

  /** Samples are a second or more apart, whatever the clock does in between. */
  lemma {:induction false} EntrySamplesApart(e: Entry, reports: seq<Report>)
    requires e.measured >= 0 && forall i | 0 <= i < |reports| :: reports[i].clock >= 0
    ensures var s := Samples(e, reports);
            && (s != [] && e.measured > 0 ==> s[0].clock >= e.measured + 1)
            && (forall i | 0 <= i < |s| :: s[i].clock > 0)
            && (forall i | 0 <= i < |s| - 1 :: s[i + 1].clock >= s[i].clock + 1)
    decreases |reports|
  {
    if reports != [] {
      EntrySamplesApart(Step(e, reports[0]), reports[1..]);
    }
  }

  function FirstTotal(reports: seq<Report>): int {
    if reports == [] then 0 else if reports[0].total != 0 then reports[0].total else FirstTotal(reports[1..])
  }

  /** `size` keeps the first total that is not zero. */
  lemma {:induction false} EntryLatches(e: Entry, reports: seq<Report>)
    ensures After(e, reports).size == if e.size != 0 then e.size else FirstTotal(reports)
    decreases |reports|
  {
    if reports != [] {
      EntryLatches(Step(e, reports[0]), reports[1..]);
    }
  }

  // ----- the reports of a worker -----

  function ReportStep(k: nat, r: Report): Scheduler.Step {
    Working(k, Work.Report(r.clock, r.total, r.now))
  }

  function ReportSteps(k: nat, reports: seq<Report>): (steps: seq<Scheduler.Step>)
    ensures |steps| == |reports|
    ensures forall i | 0 <= i < |steps| ::
              steps[i] == Working(k, Work.Report(reports[i].clock, reports[i].total, reports[i].now))
  {
    seq(|reports|, i requires 0 <= i < |reports| => ReportStep(k, reports[i]))
  }

  lemma ReportApplies(code: Code, max: nat, s: State, k: nat, r: Report)
    requires InRange(s) && k < |s.threads| && s.threads[k].phase == Transferring
    ensures var e := s.threads[k].entry;
            Next(code, max, s, ReportStep(k, r)) == s.(entries := s.entries[e := Step(s.entries[e], r)])
  {
  }

  /** Over any run of reports of one transferring worker its entry goes through the
      reports, and nothing else in the server changes. */
  lemma {:induction false} ReportsApply(code: Code, max: nat, s: State, k: nat, reports: seq<Report>)
    requires InRange(s) && k < |s.threads| && s.threads[k].phase == Transferring
    ensures var e := s.threads[k].entry;
            Run(code, max, s, ReportSteps(k, reports)) == s.(entries := s.entries[e := After(s.entries[e], reports)])
    decreases |reports|
  {
    var e := s.threads[k].entry;
    if reports == [] {
      assert s.entries[e := s.entries[e]] == s.entries;
    } else {
      var t := Next(code, max, s, ReportStep(k, reports[0]));
      ReportApplies(code, max, s, k, reports[0]);
      ReportsApply(code, max, t, k, reports[1..]);
      assert ReportSteps(k, reports)[1..] == ReportSteps(k, reports[1..]);
    }
  }

  /** The reports at which a sample is taken, given when the last one was: the first
      clock that is not zero only starts the measuring. */
  function SampledReports(measured: int, reports: seq<Report>): (r: seq<Report>)
    decreases |reports|
  {
    if reports == [] then []
    else
      var clock := reports[0].clock;
      if measured == 0 then SampledReports(clock, reports[1..])
      else if clock >= measured + 1 then [reports[0]] + SampledReports(clock, reports[1..])
      else SampledReports(measured, reports[1..])
  }

  function FirstClock(reports: seq<Report>): int {
    if reports == [] then 0 else if reports[0].clock != 0 then reports[0].clock else FirstClock(reports[1..])
  }

  /** The start: the clock of the report that set the size, or of the last one before. */
  function StartClock(start: int, reports: seq<Report>): int
    decreases |reports|
  {
    if reports == [] then start
    else if reports[0].total != 0 then reports[0].clock
    else StartClock(reports[0].clock, reports[1..])
  }

  function LastOr(now: int, sampled: seq<Report>): int {
    if sampled == [] then now else sampled[|sampled| - 1].now
  }

  /** What an entry shows after some reports, from what it showed before: the size and
      when it was found, and what the last sample said. */
  ghost predicate Shows(before: Entry, reports: seq<Report>, after: Entry) {
    && after.name == before.name && after.url == before.url && after.status == before.status
    && after.size == (if before.size != 0 then before.size else FirstTotal(reports))
    && after.start == (if before.size != 0 then before.start else StartClock(before.start, reports))
    && ShowsSample(before, SampledReports(before.measured, reports), FirstClock(reports), after)
  }

  ghost predicate ShowsSample(before: Entry, sampled: seq<Report>, clock: int, after: Entry) {
    var m := |sampled|;
    && after.complete == LastOr(before.complete, sampled)
    && if m == 0 then
         && after.remaining == before.remaining && after.speed == before.speed
         && after.measured == if before.measured != 0 then before.measured else clock
       else
         && after.remaining == sampled[m - 1].total && after.measured == sampled[m - 1].clock
         && after.speed == sampled[m - 1].now - LastOr(before.complete, sampled[..m - 1])
  }

  lemma NextSampled(e: Entry, reports: seq<Report>)
    requires reports != []
    ensures SampledReports(e.measured, reports)
            == (if Sampled(e, reports[0]) then [reports[0]] else [])
               + SampledReports(Step(e, reports[0]).measured, reports[1..])
  {
  }

  lemma LastOrAppend(now: int, first: seq<Report>, rest: seq<Report>)
    requires |first| <= 1
    ensures LastOr(now, first + rest) == LastOr(LastOr(now, first), rest)
    ensures rest != [] ==> (first + rest)[..|first + rest| - 1] == first + rest[..|rest| - 1]
  {
  }

  /** The first report is no sample. */
  lemma NoSampleFirst(e: Entry, reports: seq<Report>, rest: seq<Report>, after: Entry)
    requires reports != [] && !Sampled(e, reports[0])
    requires ShowsSample(Step(e, reports[0]), rest, FirstClock(reports[1..]), after)
    ensures ShowsSample(e, rest, FirstClock(reports), after)
  {
  }

  /** The first report is a sample. */
  lemma SampleFirst(e: Entry, reports: seq<Report>, rest: seq<Report>, after: Entry)
    requires reports != [] && Sampled(e, reports[0]) && reports[0].clock != 0
    requires ShowsSample(Step(e, reports[0]), rest, FirstClock(reports[1..]), after)
    ensures ShowsSample(e, [reports[0]] + rest, FirstClock(reports), after)
  {
    if rest == [] {
      assert [reports[0]] + rest == [reports[0]];
    } else {
      LastOrAppend(e.complete, [reports[0]], rest);
      LastOrAppend(e.complete, [reports[0]], rest[..|rest| - 1]);
    }
  }

  lemma ShowsNext(e: Entry, reports: seq<Report>, after: Entry)
    requires reports != [] && Shows(Step(e, reports[0]), reports[1..], after)
    requires e.measured >= 0 && reports[0].clock >= 0
    ensures Shows(e, reports, after)
  {
    var rest := SampledReports(Step(e, reports[0]).measured, reports[1..]);
    NextSampled(e, reports);
    if Sampled(e, reports[0]) {
      SampleFirst(e, reports, rest, after);
    } else {
      NoSampleFirst(e, reports, rest, after);
      assert [] + rest == rest;
    }
  }

  lemma {:induction false} AfterShows(e: Entry, reports: seq<Report>)
    requires e.measured >= 0 && forall i | 0 <= i < |reports| :: reports[i].clock >= 0
    ensures Shows(e, reports, After(e, reports))
    decreases |reports|
  {
    if reports != [] {
      AfterShows(Step(e, reports[0]), reports[1..]);
      ShowsNext(e, reports, After(e, reports));
    }
  }

  /** Over any run of reports of one transferring worker its entry shows what the reports
      say, and no other entry, no record and no list has changed. */
  lemma ReportsShown(code: Code, max: nat, s: State, k: nat, reports: seq<Report>)
    requires InRange(s) && k < |s.threads| && s.threads[k].phase == Transferring
    requires s.entries[s.threads[k].entry].measured >= 0 && forall i | 0 <= i < |reports| :: reports[i].clock >= 0
    ensures var t := Run(code, max, s, ReportSteps(k, reports));
            var e := s.threads[k].entry;
            && t.queue == s.queue && t.threads == s.threads && t.sweep == s.sweep && |t.entries| == |s.entries|
            && (forall x | 0 <= x < |s.entries| && x != e :: t.entries[x] == s.entries[x])
            && Shows(s.entries[e], reports, t.entries[e])
  {
    ReportsApply(code, max, s, k, reports);
    AfterShows(s.entries[s.threads[k].entry], reports);
  }

  /** `size` keeps the first total that is not zero, whatever the clock does. */
  lemma SizeLatches(code: Code, max: nat, s: State, k: nat, reports: seq<Report>)
    requires InRange(s) && k < |s.threads| && s.threads[k].phase == Transferring
    ensures var e, t := s.threads[k].entry, Run(code, max, s, ReportSteps(k, reports));
            && e < |t.entries|
            && t.entries[e].size == if s.entries[e].size != 0 then s.entries[e].size else FirstTotal(reports)
  {
    ReportsApply(code, max, s, k, reports);
    EntryLatches(s.entries[s.threads[k].entry], reports);
  }

  /** What the entry shows as remaining after the last sample is the whole download, so
      it is right exactly when nothing had arrived. */
  lemma RemainingExact(code: Code, max: nat, s: State, k: nat, reports: seq<Report>)
    requires InRange(s) && k < |s.threads| && s.threads[k].phase == Transferring
    requires s.entries[s.threads[k].entry].measured >= 0 && forall i | 0 <= i < |reports| :: reports[i].clock >= 0
    requires SampledReports(s.entries[s.threads[k].entry].measured, reports) != []
    ensures var e, t := s.threads[k].entry, Run(code, max, s, ReportSteps(k, reports));
            var sampled := SampledReports(s.entries[e].measured, reports);
            var last := sampled[|sampled| - 1];
            && e < |t.entries| && t.entries[e].complete == last.now
            && (t.entries[e].remaining == last.total - last.now <==> last.now == 0)
  {
    ReportsShown(code, max, s, k, reports);
  }

  // ----- the speeds -----

  /** The speeds the entry shows right after each sample, with the time of each. */
  function RunSamples(code: Code, max: nat, s: State, k: nat, reports: seq<Report>): seq<Sample>
    requires InRange(s) && k < |s.threads| && s.threads[k].phase == Transferring
    decreases |reports|
  {
    if reports == [] then []
    else
      var e := s.threads[k].entry;
      var t := Next(code, max, s, ReportStep(k, reports[0]));
      var shown := t.entries[e];
      var sampled := s.entries[e].measured != 0 && reports[0].clock - s.entries[e].measured >= 1;
      (if sampled then [Sample(shown.measured, shown.speed)] else []) + RunSamples(code, max, t, k, reports[1..])
  }

  lemma {:induction false} SameSamples(code: Code, max: nat, s: State, k: nat, reports: seq<Report>)
    requires InRange(s) && k < |s.threads| && s.threads[k].phase == Transferring
    ensures RunSamples(code, max, s, k, reports) == Samples(s.entries[s.threads[k].entry], reports)
    decreases |reports|
  {
    if reports != [] {
      ReportApplies(code, max, s, k, reports[0]);
      SameSamples(code, max, Next(code, max, s, ReportStep(k, reports[0])), k, reports[1..]);
    }
  }

  /** The recorded speeds add up to what was completed in between, over any run. */
  lemma SpeedsTelescope(code: Code, max: nat, s: State, k: nat, reports: seq<Report>)
    requires InRange(s) && k < |s.threads| && s.threads[k].phase == Transferring
    ensures var e, t := s.threads[k].entry, Run(code, max, s, ReportSteps(k, reports));
            && e < |t.entries|
            && Total(RunSamples(code, max, s, k, reports)) == t.entries[e].complete - s.entries[e].complete
  {
    SameSamples(code, max, s, k, reports);
    EntryTelescopes(s.entries[s.threads[k].entry], reports);
    ReportsApply(code, max, s, k, reports);
  }

  /** Samples are a second or more apart, whatever the clock does in between. */
  lemma SamplesApart(code: Code, max: nat, s: State, k: nat, reports: seq<Report>)
    requires InRange(s) && k < |s.threads| && s.threads[k].phase == Transferring
    requires s.entries[s.threads[k].entry].measured >= 0 && forall i | 0 <= i < |reports| :: reports[i].clock >= 0
    ensures var samples := RunSamples(code, max, s, k, reports);
            forall i | 0 <= i < |samples| - 1 :: samples[i + 1].clock >= samples[i].clock + 1
  {
    SameSamples(code, max, s, k, reports);
    EntrySamplesApart(s.entries[s.threads[k].entry], reports);
  }

  /** A recorded speed, which the client shows as a rate per second, is one exactly
      when the sample spans one second or nothing arrived. */
  lemma SpeedIsRateExact(code: Code, max: nat, s: State, k: nat, r: Report)
    requires InRange(s) && k < |s.threads| && s.threads[k].phase == Transferring
    requires var e := s.entries[s.threads[k].entry]; e.measured != 0 && r.clock - e.measured >= 1
    ensures var t, before := Next(code, max, s, ReportStep(k, r)), s.entries[s.threads[k].entry];
            && |t.entries| == |s.entries|
            && (t.entries[s.threads[k].entry].speed * (r.clock - before.measured) == r.now - before.complete
                <==> r.clock - before.measured == 1 || r.now == before.complete)
  {
    ReportApplies(code, max, s, k, r);
    var before := s.entries[s.threads[k].entry];
    var gap, delta := r.clock - before.measured, r.now - before.complete;
    assert Step(before, r).speed == delta;
    if gap >= 2 && delta != 0 {
      assert delta * gap - delta == delta * (gap - 1);
      assert delta * (gap - 1) != 0;
    }
  }
}
