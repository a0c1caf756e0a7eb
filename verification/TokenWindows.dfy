/**
  The two token windows of a key, refined against the log of everything counted.
  A window tumbles: it is opened by the first event that finds it unopened or at
  least its length old, and later events feed it.
 */
module TokenWindows {
  import opened KeyRows

  /** One counted event: a success that reported a positive prompt count. */
  datatype Usage = Usage(at: int, prompt: int, completion: int)

  ghost predicate InOrder(log: seq<Usage>) {
    forall i, j :: 0 <= i < j < |log| ==> log[i].at <= log[j].at
  }

  ghost predicate Positive(log: seq<Usage>) {
    forall i :: 0 <= i < |log| ==> log[i].prompt > 0 && log[i].completion >= 0
  }

  /** The window after a log, as the stored row accumulates it. */
  ghost function Fold(log: seq<Usage>, length: int): Window {
    if log == [] then UNOPENED else
    var u := log[|log| - 1];
    Advance(Fold(log[..|log| - 1], length), length, u.at, u.prompt, u.completion)
  }

  // ------------------------------------------------ reference: cut into segments

  ghost function PromptSum(log: seq<Usage>): int {
    if log == [] then 0 else PromptSum(log[..|log| - 1]) + log[|log| - 1].prompt
  }

  ghost function CompletionSum(log: seq<Usage>): int {
    if log == [] then 0 else CompletionSum(log[..|log| - 1]) + log[|log| - 1].completion
  }

  ghost function Concat(segments: seq<seq<Usage>>): seq<Usage> {
    if segments == [] then [] else Concat(segments[..|segments| - 1]) + segments[|segments| - 1]
  }

  /** A segment is what one window saw: never empty, and shorter than the window. */
  ghost predicate IsSegment(s: seq<Usage>, length: int) {
    s != [] && forall i :: 0 <= i < |s| ==> s[0].at <= s[i].at < s[0].at + length
  }

  /** The windows a log is cut into: each opens at least one length after the one before it. */
  ghost predicate IsCut(segments: seq<seq<Usage>>, log: seq<Usage>, length: int) {
    && Concat(segments) == log
    && (forall i :: 0 <= i < |segments| ==> IsSegment(segments[i], length))
    && (forall i, j :: 0 <= i < j < |segments| && j == i + 1
          ==> segments[i][0].at + length <= segments[j][0].at)
  }

  ghost function PromptTotals(segments: seq<seq<Usage>>): int {
    if segments == [] then 0
    else PromptTotals(segments[..|segments| - 1]) + PromptSum(segments[|segments| - 1])
  }

  ghost function CompletionTotals(segments: seq<seq<Usage>>): int {
    if segments == [] then 0
    else CompletionTotals(segments[..|segments| - 1]) + CompletionSum(segments[|segments| - 1])
  }

  lemma {:induction false} PromptSumAppends(a: seq<Usage>, b: seq<Usage>)
    ensures PromptSum(a + b) == PromptSum(a) + PromptSum(b)
    ensures CompletionSum(a + b) == CompletionSum(a) + CompletionSum(b)
  {
    if b == [] {
      assert a + b == a;
    } else {
      assert (a + b)[..|a + b| - 1] == a + b[..|b| - 1];
      PromptSumAppends(a, b[..|b| - 1]);
    }
  }

  lemma {:induction false} TotalsConserved(segments: seq<seq<Usage>>)
    ensures PromptTotals(segments) == PromptSum(Concat(segments))
    ensures CompletionTotals(segments) == CompletionSum(Concat(segments))
  {
    if segments != [] {
      var n := |segments| - 1;
      TotalsConserved(segments[..n]);
      PromptSumAppends(Concat(segments[..n]), segments[n]);
    }
  }

  /** A window that started with a segment and holds exactly its totals. */
  ghost predicate Summarises(w: Window, segment: seq<Usage>)
    requires segment != []
  {
    w == Window(Some(segment[0].at), PromptSum(segment), CompletionSum(segment))
  }

  lemma OpenSegment(cut: seq<seq<Usage>>, log: seq<Usage>, u: Usage, length: int)
    requires length > 0 && IsCut(cut, log, length)
    requires cut == [] || cut[|cut| - 1][0].at + length <= u.at
    ensures IsCut(cut + [[u]], log + [u], length)
    ensures PromptSum([u]) == u.prompt && CompletionSum([u]) == u.completion
  {
    var segments := cut + [[u]];
    assert segments[..|cut|] == cut;
    assert [u][..0] == [];
    assert PromptSum([u]) == PromptSum([u][..0]) + u.prompt;
    assert CompletionSum([u]) == CompletionSum([u][..0]) + u.completion;
    assert IsSegment([u], length);
  }

  lemma GrowSegment(cut: seq<seq<Usage>>, log: seq<Usage>, u: Usage, length: int)
    requires cut != [] && IsCut(cut, log, length)
    requires cut[|cut| - 1][0].at <= u.at < cut[|cut| - 1][0].at + length
    ensures var last := cut[|cut| - 1];
      && IsCut(cut[..|cut| - 1] + [last + [u]], log + [u], length)
      && PromptSum(last + [u]) == PromptSum(last) + u.prompt
      && CompletionSum(last + [u]) == CompletionSum(last) + u.completion
  {
    var n := |cut| - 1;
    var last := cut[n];
    var segments := cut[..n] + [last + [u]];
    assert segments[..n] == cut[..n];
    assert Concat(segments) == Concat(cut) + [u];
    assert (last + [u])[..|last|] == last;
    assert IsSegment(last + [u], length);
    assert forall i :: 0 <= i <= n ==> segments[i][0] == cut[i][0];
  }

  /** The window is unopened before any event, and afterwards summarises the last segment. */
  ghost predicate Describes(segments: seq<seq<Usage>>, log: seq<Usage>, w: Window, length: int) {
    && IsCut(segments, log, length)
    && (log == [] <==> segments == [])
    && if segments == [] then w == UNOPENED
       else segments[|segments| - 1] != [] && Summarises(w, segments[|segments| - 1])
  }

  lemma DescribeNext(segments: seq<seq<Usage>>, log: seq<Usage>, w: Window, u: Usage, length: int)
    returns (next: seq<seq<Usage>>)
    requires length > 0 && Describes(segments, log, w, length)
    requires forall i :: 0 <= i < |log| ==> log[i].at <= u.at
    ensures Describes(next, log + [u], Advance(w, length, u.at, u.prompt, u.completion), length)
  {
    if segments == [] {
      OpenSegment(segments, log, u, length);
      next := segments + [[u]];
    } else {
      var last := segments[|segments| - 1];
      LastSegmentInLog(segments, log);
      if u.at - last[0].at >= length {
        OpenSegment(segments, log, u, length);
        next := segments + [[u]];
      } else {
        GrowSegment(segments, log, u, length);
        next := segments[..|segments| - 1] + [last + [u]];
      }
    }
  }

  /**
    The stored window is the last of a cut of the whole log into windows: it starts at
    that segment's first event and holds exactly that segment's totals.
   */
  lemma {:induction false} FoldIsLastSegment(log: seq<Usage>, length: int) returns (segments: seq<seq<Usage>>)
    requires length > 0 && InOrder(log)
    ensures Describes(segments, log, Fold(log, length), length)
  {
    if log == [] {
      segments := [];
    } else {
      var n := |log| - 1;
      var before := log[..n];
      assert log == before + [log[n]];
      segments := FoldIsLastSegment(before, length);
      segments := DescribeNext(segments, before, Fold(before, length), log[n], length);
    }
  }

  lemma LastSegmentInLog(segments: seq<seq<Usage>>, log: seq<Usage>)
    requires segments != [] && Concat(segments) == log && segments[|segments| - 1] != []
    ensures segments[|segments| - 1][0] in log
  {
    var before, last := Concat(segments[..|segments| - 1]), segments[|segments| - 1];
    assert log[|before|] == last[0];
  }

  // --------------------------------------------------- sums since an instant

  /** Everything in the log at or after an instant. */
  ghost function Since(log: seq<Usage>, start: int): seq<Usage> {
    if log == [] then [] else
    var u := log[|log| - 1];
    Since(log[..|log| - 1], start) + if u.at >= start then [u] else []
  }

  lemma {:induction false} SinceAppends(a: seq<Usage>, b: seq<Usage>, start: int)
    ensures Since(a + b, start) == Since(a, start) + Since(b, start)
  {
    if b == [] {
      assert a + b == a;
    } else {
      assert (a + b)[..|a + b| - 1] == a + b[..|b| - 1];
      SinceAppends(a, b[..|b| - 1], start);
    }
  }

  lemma {:induction false} SinceAll(log: seq<Usage>, start: int)
    requires forall i :: 0 <= i < |log| ==> start <= log[i].at
    ensures Since(log, start) == log
  {
    if log != [] {
      SinceAll(log[..|log| - 1], start);
    }
  }

  lemma {:induction false} SinceNone(log: seq<Usage>, start: int)
    requires forall i :: 0 <= i < |log| ==> log[i].at < start
    ensures Since(log, start) == []
  {
    if log != [] {
      SinceNone(log[..|log| - 1], start);
    }
  }

  lemma {:induction false} CutEndsBefore(segments: seq<seq<Usage>>, log: seq<Usage>, length: int, limit: int)
    requires length > 0 && segments != [] && IsCut(segments, log, length)
    requires segments[|segments| - 1][0].at + length <= limit
    ensures forall i :: 0 <= i < |log| ==> log[i].at < limit
  {
    var n := |segments| - 1;
    if n > 0 {
      CutEndsBefore(segments[..n], Concat(segments[..n]), length, segments[n][0].at);
    } else {
      assert Concat(segments[..0]) == [];
    }
  }

  /** The last segment of the cut is everything counted since the stored start. */
  lemma ClosedAndRecent(log: seq<Usage>, length: int) returns (closed: seq<seq<Usage>>, recent: seq<Usage>)
    requires length > 0 && log != [] && InOrder(log)
    ensures recent != [] && Summarises(Fold(log, length), recent)
    ensures recent == Since(log, recent[0].at)
    ensures IsCut(closed + [recent], log, length)
    ensures log == Concat(closed) + recent
    ensures forall i :: 0 <= i < |Concat(closed)| ==> Concat(closed)[i].at < recent[0].at
  {
    var segments := FoldIsLastSegment(log, length);
    var n := |segments| - 1;
    closed, recent := segments[..n], segments[n];
    var start := recent[0].at;
    assert segments == closed + [recent];
    if n > 0 {
      CutEndsBefore(closed, Concat(closed), length, start);
    } else {
      assert Concat(closed) == [];
    }
    SinceNone(Concat(closed), start);
    SinceAll(recent, start);
    SinceAppends(Concat(closed), recent, start);
  }

  /**
    A stored window that has counted anything equals the sums of everything counted
    since the instant it stores as its start, all of it within one length of that start;
    nothing counted earlier is that recent.
   */
  lemma WindowSumsSinceStart(log: seq<Usage>, length: int)
    requires length > 0 && log != [] && InOrder(log)
    ensures var w := Fold(log, length);
      && w.startedAt.Some?
      && var recent := Since(log, w.startedAt.value);
      && recent != [] && recent[0].at == w.startedAt.value
      && IsSegment(recent, length)
      && |recent| <= |log| && recent == log[|log| - |recent|..]
      && (forall i :: 0 <= i < |log| - |recent| ==> log[i].at < w.startedAt.value)
      && w.prompt == PromptSum(recent) && w.completion == CompletionSum(recent)
  {
    var closed, recent := ClosedAndRecent(log, length);
    var before := Concat(closed);
    assert log[|before|..] == recent && log[..|before|] == before;
    assert (closed + [recent])[|closed|] == recent;
  }

  /**
    Nothing is lost or counted twice: the closed windows and the stored one cut the log,
    and their totals add up to everything ever counted.
   */
  lemma NothingLost(log: seq<Usage>, length: int) returns (closed: seq<seq<Usage>>)
    requires length > 0 && log != [] && InOrder(log)
    ensures var w := Fold(log, length);
      && w.startedAt.Some?
      && IsCut(closed + [Since(log, w.startedAt.value)], log, length)
      && PromptTotals(closed) + w.prompt == PromptSum(log)
      && CompletionTotals(closed) + w.completion == CompletionSum(log)
  {
    var recent: seq<Usage>;
    closed, recent := ClosedAndRecent(log, length);
    var segments := closed + [recent];
    assert segments[..|closed|] == closed;
    TotalsConserved(closed);
    PromptSumAppends(Concat(closed), recent);
  }

  // ------------------------------------------------------ session against weekly

  lemma {:induction false} PromptSumPositive(log: seq<Usage>)
    requires Positive(log)
    ensures PromptSum(log) >= |log|
  {
    if log != [] {
      PromptSumPositive(log[..|log| - 1]);
    }
  }

  lemma {:induction false} SincePositive(log: seq<Usage>, start: int)
    requires Positive(log)
    ensures Positive(Since(log, start))
  {
    if log != [] {
      SincePositive(log[..|log| - 1], start);
    }
  }

  lemma {:induction false} SinceLater(log: seq<Usage>, early: int, late: int)
    requires InOrder(log) && Positive(log) && early <= late
    ensures PromptSum(Since(log, late)) <= PromptSum(Since(log, early))
    ensures Since(log, early) != [] && Since(log, early)[0].at < late
        ==> PromptSum(Since(log, late)) < PromptSum(Since(log, early))
  {
    if log != [] {
      var u, before := log[|log| - 1], log[..|log| - 1];
      SinceLater(before, early, late);
      var a, b := Since(before, early), Since(before, late);
      SincePositive(before, early);
      PromptSumPositive(a);
      PromptSumAppends(a, [u]);
      PromptSumAppends(b, [u]);
      assert PromptSum([u]) == PromptSum([u][..0]) + u.prompt;
      assert a == [] || (a + [u])[0] == a[0];
      if u.at >= late {
        assert Since(log, late) == b + [u] && Since(log, early) == a + [u];
      } else {
        SinceNone(before, late);
        assert Since(log, late) == [];
        assert Since(log, early) == if u.at >= early then a + [u] else a;
      }
    }
  }

  /**
    A session never outgrows its week: true of the stored counters exactly when the
    stored weekly window is no younger than the stored session window.
   */
  lemma SessionWithinWeekIff(log: seq<Usage>)
    requires log != [] && InOrder(log) && Positive(log)
    ensures var session, weekly := Fold(log, SESSION_WINDOW), Fold(log, WEEKLY_WINDOW);
      && session.startedAt.Some? && weekly.startedAt.Some?
      && (session.prompt <= weekly.prompt <==> weekly.startedAt.value <= session.startedAt.value)
  {
    WindowSumsSinceStart(log, SESSION_WINDOW);
    WindowSumsSinceStart(log, WEEKLY_WINDOW);
    var s, w := Fold(log, SESSION_WINDOW).startedAt.value, Fold(log, WEEKLY_WINDOW).startedAt.value;
    if w <= s {
      SinceLater(log, w, s);
    } else {
      SinceLater(log, s, w);
    }
  }

  /** Only the weekly window runs out: the event that lets the session outgrow the week. */
  predicate WeekAloneRestarts(session: Window, weekly: Window, now: int) {
    Restarts(weekly, WEEKLY_WINDOW, now) && !Restarts(session, SESSION_WINDOW, now)
  }

  /** Both windows have been opened and fed, or neither. */
  predicate FedAlike(session: Window, weekly: Window) {
    && (session.startedAt.None? <==> weekly.startedAt.None?)
    && (session.startedAt.Some? ==> session.prompt > 0 && weekly.prompt > 0)
    && session.completion >= 0 && weekly.completion >= 0
    && (session.startedAt.None? ==> session.completion == 0 && weekly.completion == 0)
  }

  /**
    One counted event more: the session is within the week afterwards exactly when the
    session window starts over, which mends whatever was before, or when it was within the
    week before and the weekly window does not start over alone.  For completion tokens the
    weekly window may also start over while the session has none.
   */
  lemma AdvanceWithinIff(session: Window, weekly: Window, now: int, prompt: int, completion: int)
    requires FedAlike(session, weekly) && prompt > 0 && completion >= 0
    ensures var s, w := Advance(session, SESSION_WINDOW, now, prompt, completion),
                        Advance(weekly, WEEKLY_WINDOW, now, prompt, completion);
      && FedAlike(s, w)
      && (s.prompt <= w.prompt <==>
            Restarts(session, SESSION_WINDOW, now)
            || (session.prompt <= weekly.prompt && !WeekAloneRestarts(session, weekly, now)))
      && (s.completion <= w.completion <==>
            || Restarts(session, SESSION_WINDOW, now)
            || if Restarts(weekly, WEEKLY_WINDOW, now) then session.completion == 0
               else session.completion <= weekly.completion)
  {
  }

  lemma {:induction false} FoldsFedAlike(log: seq<Usage>)
    requires Positive(log)
    ensures FedAlike(Fold(log, SESSION_WINDOW), Fold(log, WEEKLY_WINDOW))
  {
    if log != [] {
      var u, before := log[|log| - 1], log[..|log| - 1];
      FoldsFedAlike(before);
      AdvanceWithinIff(Fold(before, SESSION_WINDOW), Fold(before, WEEKLY_WINDOW), u.at, u.prompt, u.completion);
    }
  }

  ghost predicate SessionRestartsAt(log: seq<Usage>, i: nat)
    requires i < |log|
  {
    Restarts(Fold(log[..i], SESSION_WINDOW), SESSION_WINDOW, log[i].at)
  }

  ghost predicate WeekAloneRestartsAt(log: seq<Usage>, i: nat)
    requires i < |log|
  {
    WeekAloneRestarts(Fold(log[..i], SESSION_WINDOW), Fold(log[..i], WEEKLY_WINDOW), log[i].at)
  }

  /** The week is restarted alone while the session has tokens: of completions it may have none. */
  ghost predicate OvertakesAt(log: seq<Usage>, i: nat, ofCompletion: bool)
    requires i < |log|
  {
    WeekAloneRestartsAt(log, i) && (ofCompletion ==> Fold(log[..i], SESSION_WINDOW).completion > 0)
  }

  /** Some event restarted the week alone while the session had tokens, and none since has restarted the session. */
  ghost predicate Overtaken(log: seq<Usage>, ofCompletion: bool) {
    exists i :: 0 <= i < |log| && OvertakesAt(log, i, ofCompletion)
                && forall j :: i < j < |log| ==> !SessionRestartsAt(log, j)
  }

  lemma EarlierRestarts(log: seq<Usage>, before: seq<Usage>, i: nat, ofCompletion: bool)
    requires log != [] && before == log[..|log| - 1] && i < |before|
    ensures SessionRestartsAt(before, i) <==> SessionRestartsAt(log, i)
    ensures OvertakesAt(before, i, ofCompletion) <==> OvertakesAt(log, i, ofCompletion)
  {
    assert before[..i] == log[..i];
  }

  lemma StaysOvertaken(log: seq<Usage>, before: seq<Usage>, ofCompletion: bool)
    requires log != [] && before == log[..|log| - 1]
    requires Overtaken(before, ofCompletion) && !SessionRestartsAt(log, |before|)
    ensures Overtaken(log, ofCompletion)
  {
    var n := |before|;
    var i :| 0 <= i < n && OvertakesAt(before, i, ofCompletion)
             && forall j :: i < j < n ==> !SessionRestartsAt(before, j);
    EarlierRestarts(log, before, i, ofCompletion);
    forall j | i < j <= n ensures !SessionRestartsAt(log, j) {
      if j < n {
        EarlierRestarts(log, before, j, ofCompletion);
      }
    }
  }

  lemma WasOvertaken(log: seq<Usage>, before: seq<Usage>, ofCompletion: bool)
    requires log != [] && before == log[..|log| - 1]
    requires Overtaken(log, ofCompletion) && !OvertakesAt(log, |before|, ofCompletion)
    ensures Overtaken(before, ofCompletion) && !SessionRestartsAt(log, |before|)
  {
    var n := |before|;
    var i :| 0 <= i <= n && OvertakesAt(log, i, ofCompletion)
             && forall j :: i < j <= n ==> !SessionRestartsAt(log, j);
    EarlierRestarts(log, before, i, ofCompletion);
    forall j | i < j < n ensures !SessionRestartsAt(before, j) {
      EarlierRestarts(log, before, j, ofCompletion);
    }
  }

  lemma OvertakenNext(log: seq<Usage>, before: seq<Usage>, ofCompletion: bool)
    requires log != [] && before == log[..|log| - 1]
    ensures Overtaken(log, ofCompletion) <==>
      OvertakesAt(log, |before|, ofCompletion)
      || (Overtaken(before, ofCompletion) && !SessionRestartsAt(log, |before|))
  {
    if Overtaken(before, ofCompletion) && !SessionRestartsAt(log, |before|) {
      StaysOvertaken(log, before, ofCompletion);
    }
    if Overtaken(log, ofCompletion) && !OvertakesAt(log, |before|, ofCompletion) {
      WasOvertaken(log, before, ofCompletion);
    }
  }

  /**
    Over whole logs, with clock readings in any order: the session exceeds the week exactly
    from an event that restarts the week alone, while the session has such tokens, until
    one that restarts the session.
   */
  lemma {:induction false} SessionOutgrowsWeekIff(log: seq<Usage>)
    requires Positive(log)
    ensures Fold(log, SESSION_WINDOW).prompt > Fold(log, WEEKLY_WINDOW).prompt <==> Overtaken(log, false)
    ensures Fold(log, SESSION_WINDOW).completion > Fold(log, WEEKLY_WINDOW).completion <==> Overtaken(log, true)
  {
    if log != [] {
      var u, before := log[|log| - 1], log[..|log| - 1];
      SessionOutgrowsWeekIff(before);
      FoldsFedAlike(before);
      AdvanceWithinIff(Fold(before, SESSION_WINDOW), Fold(before, WEEKLY_WINDOW), u.at, u.prompt, u.completion);
      OvertakenNext(log, before, false);
      OvertakenNext(log, before, true);
    }
  }

  /** It can fail: an event at 0, one a microsecond after six days, and one at seven days. */
  lemma SessionCanOutgrowWeek()
    ensures var log := [Usage(0, 1, 0), Usage(6 * SESSION_WINDOW + 1, 1, 0), Usage(WEEKLY_WINDOW, 1, 0)];
      Fold(log, SESSION_WINDOW).prompt == 2 && Fold(log, WEEKLY_WINDOW).prompt == 1
  {
    var log := [Usage(0, 1, 0), Usage(6 * SESSION_WINDOW + 1, 1, 0), Usage(WEEKLY_WINDOW, 1, 0)];
    assert log[..2] == [log[0], log[1]] && log[..2][..1] == [log[0]] && log[..2][..1][..0] == [];
    forall length | length == SESSION_WINDOW || length == WEEKLY_WINDOW
      ensures Fold(log[..2][..1], length) == Window(Some(0), 1, 0)
    {
      assert Fold([], length) == UNOPENED;
    }
    assert Fold(log[..2], SESSION_WINDOW) == Window(Some(6 * SESSION_WINDOW + 1), 1, 0);
    assert Fold(log[..2], WEEKLY_WINDOW) == Window(Some(0), 2, 0);
  }

  // -------------------------------------------------------------- in the table

  predicate IsCounted(e: Event, id: KeyId) {
    && e.Record? && e.id == id && e.report.SuccessWithUsage?
    && e.report.prompt.Some? && e.report.prompt.value > 0
  }

  lemma UncountedKeepsWindows(rows: Table, e: Event, id: KeyId)
    requires Accepted(rows, e) && !IsCounted(e, id) && e != Create(id) && id in Commit(rows, e)
    ensures id in rows
    ensures Commit(rows, e)[id].session == rows[id].session && Commit(rows, e)[id].weekly == rows[id].weekly
  {
  }

  /** What a counted success reports, as it stands in the report. */
  function UsageOf(e: Event, id: KeyId): Usage
    requires IsCounted(e, id)
  {
    Usage(e.now, e.report.prompt.value, match e.report.completion case Some(n) => if n > 0 then n else 0 case None => 0)
  }

  /** The usage counted for a key since it was created, from the log of all writes. */
  ghost function Counted(log: seq<Event>, id: KeyId): seq<Usage> {
    if log == [] then [] else
    var e, before := log[|log| - 1], log[..|log| - 1];
    if e == Create(id) then []
    else if IsCounted(e, id) then
      Counted(before, id) + [UsageOf(e, id)]
    else
      Counted(before, id)
  }

  /** After any accepted log of writes, both stored windows are folds of what was counted. */
  lemma {:induction false} RowWindowsFold(log: seq<Event>, id: KeyId)
    requires Valid(log) && id in Replay(log)
    ensures Replay(log)[id].session == Fold(Counted(log, id), SESSION_WINDOW)
    ensures Replay(log)[id].weekly == Fold(Counted(log, id), WEEKLY_WINDOW)
    ensures Positive(Counted(log, id))
  {
    var e, before := log[|log| - 1], log[..|log| - 1];
    if e != Create(id) {
      RowWindowsFold(before, id);
      var rows := Replay(before);
      if IsCounted(e, id) {
        var counted := Counted(log, id);
        assert counted[..|counted| - 1] == Counted(before, id);
      } else {
        UncountedKeepsWindows(rows, e, id);
      }
    }
  }

  /**
    In any run of the table whose clock readings for a key never go back, the key's two
    counters are the sums of what was counted since the stored starts, within 24 hours
    and within 7 days of them.
   */
  lemma StoredWindowsRefineLog(log: seq<Event>, id: KeyId)
    requires Valid(log) && id in Replay(log)
    requires Counted(log, id) != [] && InOrder(Counted(log, id))
    ensures var row, counted := Replay(log)[id], Counted(log, id);
      && row.session.startedAt.Some? && row.weekly.startedAt.Some?
      && var s, w := Since(counted, row.session.startedAt.value), Since(counted, row.weekly.startedAt.value);
      && IsSegment(s, SESSION_WINDOW) && IsSegment(w, WEEKLY_WINDOW)
      && row.session.prompt == PromptSum(s) && row.session.completion == CompletionSum(s)
      && row.weekly.prompt == PromptSum(w) && row.weekly.completion == CompletionSum(w)
      && (row.session.prompt <= row.weekly.prompt
          <==> row.weekly.startedAt.value <= row.session.startedAt.value)
  {
    RowWindowsFold(log, id);
    WindowSumsSinceStart(Counted(log, id), SESSION_WINDOW);
    WindowSumsSinceStart(Counted(log, id), WEEKLY_WINDOW);
    SessionWithinWeekIff(Counted(log, id));
  }

  /**
    The same for a row of the table, told from the row before the write: after any accepted
    log, a counted success leaves the session within the week exactly when the session
    window has run out or was not opened, or when it was within the week and the weekly
    window has not run out.  For completion tokens it is also enough that the session had
    none when the weekly window ran out.
   */
  lemma {:induction false} CountedStaysWithinIff(log: seq<Event>, e: Event)
    requires Valid(log) && Accepted(Replay(log), e) && e.Record? && IsCounted(e, e.id)
    ensures var row, after := Replay(log)[e.id], Commit(Replay(log), e)[e.id];
      after.session.prompt <= after.weekly.prompt <==>
        Restarts(row.session, SESSION_WINDOW, e.now)
        || (row.session.prompt <= row.weekly.prompt && !Restarts(row.weekly, WEEKLY_WINDOW, e.now))
    ensures var row, after := Replay(log)[e.id], Commit(Replay(log), e)[e.id];
      after.session.completion <= after.weekly.completion <==>
        || Restarts(row.session, SESSION_WINDOW, e.now)
        || if Restarts(row.weekly, WEEKLY_WINDOW, e.now) then row.session.completion == 0
           else row.session.completion <= row.weekly.completion
  {
    var row := Replay(log)[e.id];
    RowWindowsFold(log, e.id);
    FoldsFedAlike(Counted(log, e.id));
    AdvanceWithinIff(row.session, row.weekly, e.now, e.report.prompt.value, CountedCompletion(e.report.completion));
  }

  /** And told from its whole history. */
  lemma StoredSessionOutgrowsIff(log: seq<Event>, id: KeyId)
    requires Valid(log) && id in Replay(log)
    ensures Replay(log)[id].session.prompt > Replay(log)[id].weekly.prompt <==> Overtaken(Counted(log, id), false)
    ensures Replay(log)[id].session.completion > Replay(log)[id].weekly.completion
       <==> Overtaken(Counted(log, id), true)
  {
    RowWindowsFold(log, id);
    SessionOutgrowsWeekIff(Counted(log, id));
  }

  // ------------------------------------------------- clock readings in any order

  /** The events a window has been fed since it was last opened by event `k`. */
  ghost predicate FedSince(w: Window, log: seq<Usage>, k: nat, length: int) {
    && k < |log| && w == Window(Some(log[k].at), PromptSum(log[k..]), CompletionSum(log[k..]))
    && forall i :: k <= i < |log| ==> log[i].at - log[k].at < length
  }

  lemma FedNext(w: Window, before: seq<Usage>, k: nat, u: Usage, length: int)
    requires FedSince(w, before, k, length) && !Restarts(w, length, u.at)
    ensures FedSince(Advance(w, length, u.at, u.prompt, u.completion), before + [u], k, length)
  {
    var log := before + [u];
    assert log[k..] == before[k..] + [u];
    assert log[k..][..|before| - k] == before[k..];
  }

  lemma FedFirst(before: seq<Usage>, u: Usage, w: Window, length: int)
    requires length > 0 && Restarts(w, length, u.at)
    ensures FedSince(Advance(w, length, u.at, u.prompt, u.completion), before + [u], |before|, length)
  {
    var log := before + [u];
    assert log[|before|..] == [u] && [u][..0] == [];
    assert PromptSum([u]) == PromptSum([u][..0]) + u.prompt;
    assert CompletionSum([u]) == CompletionSum([u][..0]) + u.completion;
  }

  /**
    Even if clock readings go back, a window holds exactly the sums of everything counted
    from the event on that opened it, and no reading since was a length or more later.
   */
  lemma {:induction false} FoldIsSuffix(log: seq<Usage>, length: int) returns (k: nat)
    requires length > 0 && log != []
    ensures FedSince(Fold(log, length), log, k, length)
  {
    var n := |log| - 1;
    var u, before := log[n], log[..n];
    assert log == before + [u];
    if Restarts(Fold(before, length), length, u.at) {
      FedFirst(before, u, Fold(before, length), length);
      k := n;
    } else {
      k := FoldIsSuffix(before, length);
      FedNext(Fold(before, length), before, k, u, length);
    }
  }

  /** So in the table, whatever the clock did, each stored window sums up a run of events to the end. */
  lemma StoredWindowsAnyOrder(log: seq<Event>, id: KeyId) returns (i: nat, j: nat)
    requires Valid(log) && id in Replay(log) && Counted(log, id) != []
    ensures FedSince(Replay(log)[id].session, Counted(log, id), i, SESSION_WINDOW)
    ensures FedSince(Replay(log)[id].weekly, Counted(log, id), j, WEEKLY_WINDOW)
  {
    RowWindowsFold(log, id);
    i := FoldIsSuffix(Counted(log, id), SESSION_WINDOW);
    j := FoldIsSuffix(Counted(log, id), WEEKLY_WINDOW);
  }
}
