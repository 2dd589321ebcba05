/** On a clock that does not go back, with rows created as they are stamped, every schedule is
    timely: then the guarantees hold by the archive names alone. */
module AuditClock {
  import opened Rfc3339
  import opened Audit
  import opened AuditSchedule
  import opened AuditGuarantees

  /** A row is stamped with the time of its step, and a cutoff lies no later. */
  ghost predicate Stamped(e: Event, now: Instant) {
    match e
    case Insert(row) => row.stamp == Render(now)
    case PostCount(_, own) => own.stamp == Render(now)
    case Begin(_, cutoff) =>
      exists c: Instant :: c.Valid() && Nanos(c) <= Nanos(now) && cutoff == Render(c)
    case _ => true
  }

  /** `times[i]` is what the clock shows at the `i`-th step. */
  ghost predicate OnClock(events: seq<Event>, times: seq<Instant>) {
    && |times| == |events|
    && (forall i :: 0 <= i < |times| ==> times[i].Valid() && Stamped(events[i], times[i]))
    && forall i, j :: 0 <= i <= j < |times| ==> Nanos(times[i]) <= Nanos(times[j])
  }

  lemma NoOtherBegins(s: State, e: Event)
    requires !e.Begin? && !e.BeginForeign?
    ensures Apply(s, e).runs.Keys == s.runs.Keys
  {
    match e
    case Insert(row) => assert InsertRow(s, row).runs.Keys == s.runs.Keys;
    case DeleteOld(j) =>
      if j in s.runs {
        assert DeleteStep(s, j, s.runs[j]).runs.Keys == s.runs.Keys;
      }
    case _ =>
  }

  lemma NewRunBegins(s: State, e: Event, k: nat)
    requires k !in s.runs && k in Apply(s, e).runs
    ensures Apply(s, e).runs[k].cutoff == "" || e == Begin(k, Apply(s, e).runs[k].cutoff)
  {
    if !e.Begin? && !e.BeginForeign? {
      NoOtherBegins(s, e);
    }
  }

  /** A cutoff is that of a prune's beginning; a foreign prune has none. */
  lemma {:induction false} CutoffsComeFromBegin(events: seq<Event>, k: nat)
    requires k in After(events).runs
    ensures
      var cutoff := After(events).runs[k].cutoff;
      cutoff == "" || exists i :: 0 <= i < |events| && events[i] == Begin(k, cutoff)
  {
    if events != [] {
      var front, e := events[..|events| - 1], events[|events| - 1];
      if k in After(front).runs {
        CutoffsComeFromBegin(front, k);
        StepKeepsCutoffs(After(front), e, k);
      } else {
        NewRunBegins(After(front), e, k);
      }
    }
  }

  lemma StampNotBehind(events: seq<Event>, times: seq<Instant>, i: nat, row: AuditRow)
    requires OnClock(events, times) && i < |events| && row.stamp == Render(times[i])
    ensures NotBehind(After(events[..i]), row)
  {
    var s := After(events[..i]);
    forall k | k in s.runs
      ensures !Before(row, s.runs[k].cutoff)
    {
      CutoffsComeFromBegin(events[..i], k);
      if s.runs[k].cutoff != "" {
        var j :| 0 <= j < i && events[..i][j] == Begin(k, s.runs[k].cutoff);
        assert Stamped(events[j], times[j]);
        var c: Instant :| c.Valid() && Nanos(c) <= Nanos(times[j]) && s.runs[k].cutoff == Render(c);
        LexicalIsChronological(times[i], c);
      }
    }
  }

  lemma ClockedIsTimely(events: seq<Event>, times: seq<Instant>)
    requires OnClock(events, times)
    ensures Respects(events, Timely)
  {
    forall i | 0 <= i < |events|
      ensures Timely(After(events[..i]), events[i])
    {
      match events[i]
      case Insert(row) => StampNotBehind(events, times, i, row);
      case PostCount(_, own) => StampNotBehind(events, times, i, own);
      case _ =>
    }
  }

  /** By the clock and the names alone, no row is lost. */
  lemma NoRowIsLostOnClock(events: seq<Event>, times: seq<Instant>, r: AuditRow)
    requires Respects(events, NewName) && OnClock(events, times) && r in After(events).created
    ensures Kept(After(events), r)
  {
    ClockedIsTimely(events, times);
    NoRowIsLost(events, r);
  }
}
