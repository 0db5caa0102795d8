/** SessionManager: one creation session per player, saved drafts keyed by
    lower-cased code, and one repeating "reopen the creation book" timer
    per player. */
module SessionManagement {
  import opened Common
  import opened Polls
  import opened Sessions
  import opened Scheduling

  /** What one tick of a player's reopen timer does. */
  datatype TickResult =
    | Stopped      // the player has no session: the timer cancels itself
    | Busy         // a field is awaited and reopening waits for idleness
    | BookOpen     // the player already has a book open
    | Offline      // the player is not online
    | Reopen       // the creation book is opened again

  class SessionManager {
    var sessions: map<Uuid, PollCreationSession>
    var autoReopenTasks: map<Uuid, nat>
    var playersWithOpenBooks: set<Uuid>
    var drafts: map<string, PollDraft>
    /** The scheduler's running reopen timers. */
    var timers: set<nat>
    /** The next handle the scheduler hands out. */
    var nextTaskId: nat
    /** Configuration: `books.creation.autoReopen.enabled`,
        `...onlyWhenIdle` and `...intervalTicks`. */
    const autoReopenEnabled: bool
    const onlyWhenIdle: bool
    const intervalTicks: int

    /** Every session belongs to the player it is filed under (so distinct
        players never share a session object); the running timers are
        exactly the ones in the timer map, one per player, and no two
        players share one. */
    ghost predicate Valid()
      reads this, sessions.Values
    {
      && (forall p :: p in sessions ==> sessions[p].creator == p && sessions[p].Valid())
      && (forall p :: p in autoReopenTasks ==> autoReopenTasks[p] < nextTaskId)
      && Injective(autoReopenTasks)
      && timers == autoReopenTasks.Values
    }

    constructor (autoReopenEnabled: bool, onlyWhenIdle: bool, intervalTicks: int)
      ensures Valid()
      ensures sessions == map[] && autoReopenTasks == map[] && drafts == map[]
      ensures playersWithOpenBooks == {} && timers == {}
      ensures this.autoReopenEnabled == autoReopenEnabled && this.onlyWhenIdle == onlyWhenIdle
      ensures this.intervalTicks == intervalTicks
    {
      sessions := map[];
      autoReopenTasks := map[];
      playersWithOpenBooks := {};
      drafts := map[];
      timers := {};
      nextTaskId := 0;
      this.autoReopenEnabled := autoReopenEnabled;
      this.onlyWhenIdle := onlyWhenIdle;
      this.intervalTicks := intervalTicks;
    }

    /** The reopen timer of p after `scheduleAutoReopen(p)`: when enabled,
        the earlier timer of p is cancelled and a new one, distinct from
        every timer running before, takes its place; when disabled nothing
        changes. */
    twostate predicate ReopenScheduled(p: Uuid)
      reads this
    {
      if autoReopenEnabled then
        && p in autoReopenTasks
        && autoReopenTasks == old(autoReopenTasks)[p := autoReopenTasks[p]]
        && autoReopenTasks[p] !in old(timers)
        && timers == (old(timers) - TaskOf(old(autoReopenTasks), p)) + {autoReopenTasks[p]}
      else
        autoReopenTasks == old(autoReopenTasks) && timers == old(timers)
    }

    /** `scheduleAutoReopen`. */
    method ScheduleAutoReopen(p: Uuid)
      requires Valid()
      modifies this
      ensures Valid()
      ensures ReopenScheduled(p)
      ensures sessions == old(sessions) && drafts == old(drafts)
      ensures playersWithOpenBooks == old(playersWithOpenBooks)
    {
      if !autoReopenEnabled {
        return;
      }
      var handle := nextTaskId;
      FileNext(autoReopenTasks, p, handle, autoReopenTasks[p := handle]);
      if p in autoReopenTasks {
        timers := timers - {autoReopenTasks[p]};
      }
      autoReopenTasks := autoReopenTasks[p := handle];
      timers := timers + {handle};
      nextTaskId := nextTaskId + 1;
    }

    /** `startSession`: a fresh session for p, replacing any earlier one,
        and a rescheduled reopen timer. */
    method StartSession(p: Uuid) returns (s: PollCreationSession)
      requires Valid()
      modifies this
      ensures Valid()
      ensures fresh(s)
      ensures sessions == old(sessions)[p := s]
      ensures s.creator == p && s.awaiting == NoField && s.awaitingOptionIndex == -1
      ensures s.Entered() == Entries(None, None, None, seq(SLOT_COUNT, _ => None))
      ensures s.Valid() && !s.editingExisting && s.editingPollId == None
      ensures ReopenScheduled(p)
      ensures drafts == old(drafts) && playersWithOpenBooks == old(playersWithOpenBooks)
    {
      s := new PollCreationSession(p);
      sessions := sessions[p := s];
      ScheduleAutoReopen(p);
    }

    /** `getSession`: the session filed under p belongs to p. */
    method GetSession(p: Uuid) returns (r: Option<PollCreationSession>)
      requires Valid()
      ensures r.Some? <==> p in sessions
      ensures r.Some? ==> r.value == sessions[p] && r.value.creator == p
    {
      if p in sessions {
        r := Some(sessions[p]);
      } else {
        r := None;
      }
    }

    /** `endSession`: p is left with no session and no reopen timer; the
        timer p had is cancelled. */
    method EndSession(p: Uuid)
      requires Valid()
      modifies this
      ensures Valid()
      ensures p !in sessions && p !in autoReopenTasks
      ensures sessions == old(sessions) - {p}
      ensures autoReopenTasks == old(autoReopenTasks) - {p}
      ensures timers == old(timers) - TaskOf(old(autoReopenTasks), p)
      ensures drafts == old(drafts) && playersWithOpenBooks == old(playersWithOpenBooks)
    {
      sessions := sessions - {p};
      ValuesRemove(autoReopenTasks, p);
      if p in autoReopenTasks {
        timers := timers - {autoReopenTasks[p]};
      }
      autoReopenTasks := autoReopenTasks - {p};
    }

    /** The sessions an `await*` call may change: p's, if there is one. */
    function SessionOf(p: Uuid): set<PollCreationSession>
      reads this
    {
      if p in sessions then {sessions[p]} else {}
    }

    method AwaitQuestion(p: Uuid)
      requires Valid()
      modifies SessionOf(p)
      ensures Valid()
      ensures p in sessions ==> sessions[p].awaiting == QuestionField && sessions[p].awaitingOptionIndex == -1
      ensures p in sessions ==> sessions[p].Entered() == old(sessions[p].Entered())
      ensures p in sessions ==> sessions[p].editingExisting == old(sessions[p].editingExisting)
                                && sessions[p].editingPollId == old(sessions[p].editingPollId)
      ensures forall q :: q in sessions && q != p ==> unchanged(sessions[q])
    {
      if p in sessions {
        sessions[p].AwaitQuestion();
      }
    }

    method AwaitCode(p: Uuid)
      requires Valid()
      modifies SessionOf(p)
      ensures Valid()
      ensures p in sessions ==> sessions[p].awaiting == CodeField && sessions[p].awaitingOptionIndex == -1
      ensures p in sessions ==> sessions[p].Entered() == old(sessions[p].Entered())
      ensures p in sessions ==> sessions[p].editingExisting == old(sessions[p].editingExisting)
                                && sessions[p].editingPollId == old(sessions[p].editingPollId)
      ensures forall q :: q in sessions && q != p ==> unchanged(sessions[q])
    {
      if p in sessions {
        sessions[p].AwaitCode();
      }
    }

    method AwaitDuration(p: Uuid)
      requires Valid()
      modifies SessionOf(p)
      ensures Valid()
      ensures p in sessions ==> sessions[p].awaiting == DurationField && sessions[p].awaitingOptionIndex == -1
      ensures p in sessions ==> sessions[p].Entered() == old(sessions[p].Entered())
      ensures p in sessions ==> sessions[p].editingExisting == old(sessions[p].editingExisting)
                                && sessions[p].editingPollId == old(sessions[p].editingPollId)
      ensures forall q :: q in sessions && q != p ==> unchanged(sessions[q])
    {
      if p in sessions {
        sessions[p].AwaitDuration();
      }
    }

    method AwaitOption(p: Uuid, index: int)
      requires Valid()
      modifies SessionOf(p)
      ensures Valid()
      ensures p in sessions ==> sessions[p].awaiting == OptionField && sessions[p].awaitingOptionIndex == index
      ensures p in sessions ==> sessions[p].Entered() == old(sessions[p].Entered())
      ensures p in sessions ==> sessions[p].editingExisting == old(sessions[p].editingExisting)
                                && sessions[p].editingPollId == old(sessions[p].editingPollId)
      ensures forall q :: q in sessions && q != p ==> unchanged(sessions[q])
    {
      if p in sessions {
        sessions[p].AwaitOption(index);
      }
    }

    method MarkBookOpened(p: Uuid)
      modifies this
      ensures playersWithOpenBooks == old(playersWithOpenBooks) + {p}
      ensures sessions == old(sessions) && autoReopenTasks == old(autoReopenTasks)
      ensures timers == old(timers) && drafts == old(drafts) && nextTaskId == old(nextTaskId)
    {
      playersWithOpenBooks := playersWithOpenBooks + {p};
    }

    method MarkBookClosed(p: Uuid)
      modifies this
      ensures playersWithOpenBooks == old(playersWithOpenBooks) - {p}
      ensures sessions == old(sessions) && autoReopenTasks == old(autoReopenTasks)
      ensures timers == old(timers) && drafts == old(drafts) && nextTaskId == old(nextTaskId)
    {
      playersWithOpenBooks := playersWithOpenBooks - {p};
    }

    /** The draft `saveDraft` makes of a session at time now. */
    static function DraftOf(s: PollCreationSession, now: int): (d: PollDraft)
      reads s
      requires s.code.Some?
      ensures d.code == s.code.value && d.creatorId == s.creator
      ensures d.options == DefinedOptions(s.options)
    {
      PollDraft(s.code.value, s.creator, s.question, s.durationSeconds, DefinedOptions(s.options), now)
    }

    /** `saveDraft`: a session without a code, or with a blank one, is not
        saved; otherwise its draft replaces any draft under the lower-cased
        code. */
    method SaveDraft(s: PollCreationSession, now: int)
      requires Valid()
      modifies this
      ensures Valid()
      ensures s.code.None? || IsBlank(s.code.value) ==> drafts == old(drafts)
      ensures s.code.Some? && !IsBlank(s.code.value) ==>
        drafts == old(drafts)[Lower(s.code.value) := DraftOf(s, now)]
      ensures sessions == old(sessions) && autoReopenTasks == old(autoReopenTasks)
      ensures timers == old(timers) && playersWithOpenBooks == old(playersWithOpenBooks)
    {
      if s.code.None? || IsBlank(s.code.value) {
        return;
      }
      drafts := drafts[Lower(s.code.value) := DraftOf(s, now)];
    }

    /** `getDraft`: lookup under the lower-cased code. */
    function GetDraft(code: string): (r: Option<PollDraft>)
      reads this
      ensures r.Some? <==> Lower(code) in drafts
      ensures r.Some? ==> r.value == drafts[Lower(code)]
    {
      var key := Lower(code);
      if key in drafts then Some(drafts[key]) else None
    }

    /** `removeDraft`. */
    method RemoveDraft(code: string)
      modifies this
      ensures drafts == old(drafts) - {Lower(code)}
      ensures GetDraft(code) == None
      ensures sessions == old(sessions) && autoReopenTasks == old(autoReopenTasks)
      ensures timers == old(timers) && playersWithOpenBooks == old(playersWithOpenBooks)
      ensures nextTaskId == old(nextTaskId)
    {
      drafts := drafts - {Lower(code)};
    }

    /** `loadDraftIntoSession`: nothing happens without a draft; otherwise a
        fresh session for p carries the draft's code, question, duration and
        first min(6, n) options, and replaces p's session. */
    method LoadDraftIntoSession(p: Uuid, code: string) returns (r: Option<PollCreationSession>)
      requires Valid()
      modifies this
      ensures Valid()
      ensures old(GetDraft(code)).None? ==>
                r.None? && sessions == old(sessions)
                && autoReopenTasks == old(autoReopenTasks) && timers == old(timers)
      ensures old(GetDraft(code)).Some? ==> r.Some? && fresh(r.value) && sessions == old(sessions)[p := r.value]
      ensures old(GetDraft(code)).Some? ==> ReopenScheduled(p)
      ensures r.Some? ==> LoadedFrom(r.value, p, old(GetDraft(code)).value)
      ensures drafts == old(drafts) && playersWithOpenBooks == old(playersWithOpenBooks)
    {
      var d := GetDraft(code);
      if d.None? {
        return None;
      }
      var draft := d.value;
      var s := new PollCreationSession(p);
      s.SetCode(Some(draft.code));
      s.SetQuestion(draft.question);
      s.SetDurationSeconds(draft.durationSeconds);
      var n := if |draft.options| < SLOT_COUNT then |draft.options| else SLOT_COUNT;
      var i := 0;
      while i < n
        invariant 0 <= i <= n
        invariant s.Valid() && s.creator == p
        invariant s.code == Some(draft.code) && s.question == draft.question
        invariant s.durationSeconds == draft.durationSeconds
        invariant SlotsFilledFrom(s.options, draft.options[..i])
        invariant s.awaiting == NoField && !s.editingExisting
        invariant unchanged(this)
      {
        var _ := s.SetOption(i, Some(draft.options[i]));
        i := i + 1;
      }
      sessions := sessions[p := s];
      ScheduleAutoReopen(p);
      r := Some(s);
    }

    /** One tick of p's reopen timer. The scheduler only ticks running
        timers, so p has one; whether p is online is passed in. */
    method ReopenTick(p: Uuid, online: bool) returns (r: TickResult)
      requires Valid()
      requires p in autoReopenTasks
      modifies this
      ensures Valid()
      ensures r == Stopped <==> p !in sessions
      ensures r == Stopped ==>
                autoReopenTasks == old(autoReopenTasks) - {p}
                && timers == old(timers) - {old(autoReopenTasks)[p]}
      ensures r != Stopped ==> autoReopenTasks == old(autoReopenTasks) && timers == old(timers)
      ensures r == Busy <==> p in sessions && onlyWhenIdle && sessions[p].awaiting != NoField
      ensures r == BookOpen <==>
                (p in sessions && !(onlyWhenIdle && sessions[p].awaiting != NoField)
                 && p in playersWithOpenBooks)
      ensures r == Reopen <==>
                (p in sessions && !(onlyWhenIdle && sessions[p].awaiting != NoField)
                 && p !in playersWithOpenBooks && online)
      ensures sessions == old(sessions) && drafts == old(drafts)
      ensures playersWithOpenBooks == old(playersWithOpenBooks)
    {
      if p !in sessions {
        ValuesRemove(autoReopenTasks, p);
        timers := timers - {autoReopenTasks[p]};
        autoReopenTasks := autoReopenTasks - {p};
        return Stopped;
      }
      var s := sessions[p];
      if onlyWhenIdle && s.awaiting != NoField {
        return Busy;
      }
      if p in playersWithOpenBooks {
        return BookOpen;
      }
      if !online {
        return Offline;
      }
      return Reopen;
    }
  }

  /** A session loaded from draft d for player p: the draft's code,
      question and duration, its first min(6, n) options in the first
      slots, the remaining slots empty, nothing awaited, not editing. */
  ghost predicate LoadedFrom(s: PollCreationSession, p: Uuid, d: PollDraft)
    reads s
  {
    && s.Valid() && s.creator == p
    && s.code == Some(d.code) && s.question == d.question
    && s.durationSeconds == d.durationSeconds
    && SlotsFilledFrom(s.options, d.options)
    && s.awaiting == NoField && !s.editingExisting
  }

  /** Saving a session as a draft and loading the draft back restores the
      session's options, in order. */
  lemma DraftRoundTrip(s: PollCreationSession, now: int, loaded: PollCreationSession, p: Uuid)
    requires s.Valid() && s.code.Some?
    requires LoadedFrom(loaded, p, SessionManager.DraftOf(s, now))
    ensures DefinedOptions(loaded.options) == DefinedOptions(s.options)
    ensures loaded.code == s.code && loaded.question == s.question
    ensures loaded.durationSeconds == s.durationSeconds
  {
    var d := SessionManager.DraftOf(s, now);
    FillThenCollect(loaded.options, d.options);
  }

  /** Draft lookup ignores letter case. */
  lemma DraftLookupIgnoresCase(m: SessionManager, a: string, b: string)
    requires EqualsIgnoreCase(a, b)
    ensures m.GetDraft(a) == m.GetDraft(b)
  {
  }
}
