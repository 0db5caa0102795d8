/** PollCommand: the `/poll` sub-commands, with their guards. Messages sent
    to the player become reply values. */
module Commands {
  import opened Common
  import opened Polls
  import opened Sessions
  import opened SessionManagement
  import opened Storage
  import opened Lifecycle
  import opened Scheduling
  import Durations
  import Ordinals

  // ---------------------------------------------------------------------
  // Arguments of `create`

  /** What `create` takes from its arguments. */
  datatype CreateArgs = CreateArgs(duration: Option<nat>, question: Option<string>)

  /** A first argument that parses as a duration is the duration, and the
      remaining arguments, joined by single spaces, the question (none when
      there are none); otherwise all arguments, joined, are the question. */
  function SplitCreateArgs(args: seq<string>): (c: CreateArgs)
    ensures args == [] ==> c == CreateArgs(None, None)
    ensures c.duration.Some? <==> |args| >= 1 && Durations.ParseDurationSeconds(args[0]).Some?
    ensures c.duration.Some? ==> c.duration == Durations.ParseDurationSeconds(args[0]) && c.duration.value > 0
    ensures c.duration.Some? ==> c.question == if |args| >= 2 then Some(JoinSpace(args[1..])) else None
    ensures |args| >= 1 && c.duration.None? ==> c.question == Some(JoinSpace(args))
  {
    if |args| == 0 then CreateArgs(None, None)
    else
      var parsed := Durations.ParseDurationSeconds(args[0]);
      if parsed.Some? then
        CreateArgs(parsed, if |args| >= 2 then Some(JoinSpace(args[1..])) else None)
      else
        CreateArgs(None, Some(JoinSpace(args)))
  }

  /** The question `create` puts in the session: a blank one is not set. */
  function CreateQuestion(c: CreateArgs): (q: Option<string>)
    ensures q.Some? ==> !IsBlank(q.value) && q == c.question
    ensures c.question.Some? && !IsBlank(c.question.value) ==> q == c.question
  {
    if c.question.Some? && !IsBlank(c.question.value) then c.question else None
  }

  lemma NotADuration()
    ensures Durations.ParseDurationSeconds("Best") == None
  {
    TrimOfTrimmed("Best");
    assert Lower("Best") == "best";
    assert Durations.DigitRun("best") == 0;
  }

  lemma JoinBestColour()
    ensures JoinSpace(["Best", "colour?"]) == "Best colour?"
  {
    assert ["Best", "colour?"][1..] == ["colour?"];
  }

  /** `/poll create 45m Best colour?` opens a 45-minute session asking
      "Best colour?". */
  lemma CreateArgsWithDuration()
    ensures SplitCreateArgs(["45m", "Best", "colour?"]) == CreateArgs(Some(2700), Some("Best colour?"))
  {
    Durations.ExampleMinutes();
    assert ["45m", "Best", "colour?"][1..] == ["Best", "colour?"];
    JoinBestColour();
  }

  /** `/poll create Best colour?` keeps both words as the question and
      leaves the duration unset. */
  lemma CreateArgsWithoutDuration()
    ensures SplitCreateArgs(["Best", "colour?"]) == CreateArgs(None, Some("Best colour?"))
  {
    NotADuration();
    JoinBestColour();
  }

  // ---------------------------------------------------------------------
  // Arguments of `edit`

  /** The field an `edit` keyword prompts for, compared ignoring case;
      any other first argument names the poll to edit. */
  function EditKeyword(arg: string): (f: Option<Awaiting>)
    ensures f != Some(NoField)
    ensures f == Some(CodeField) <==> EqualsIgnoreCase(arg, "code")
    ensures f == Some(OptionField) <==> EqualsIgnoreCase(arg, "option")
  {
    if EqualsIgnoreCase(arg, "question") then Some(QuestionField)
    else if EqualsIgnoreCase(arg, "duration") then Some(DurationField)
    else if EqualsIgnoreCase(arg, "option") then Some(OptionField)
    else if EqualsIgnoreCase(arg, "code") then Some(CodeField)
    else None
  }

  /** A session prepared by `edit <idOrCode>`: it edits the target, carries
      its code, question and first six options, and, only while the target
      is open, the time left until it closes (never negative). */
  ghost predicate EditPrefilled(s: PollCreationSession, target: Poll, now: int)
    reads s, target
  {
    && s.Valid()
    && s.editingExisting && s.editingPollId == Some(target.id)
    && s.code == target.code
    && s.question == Some(target.question)
    && s.durationSeconds == (if target.status == Open then Some(Max(0, target.closesAt - now)) else None)
    && SlotsFilledFrom(s.options, target.options)
    && s.awaiting == NoField
  }

  /** Publishing an edit straight away keeps the poll's options, when it
      has at most six and none is blank. */
  lemma EditKeepsOptions(s: PollCreationSession, target: Poll, now: int)
    requires EditPrefilled(s, target, now)
    requires |target.options| <= SLOT_COUNT
    requires forall j :: 0 <= j < |target.options| ==> !IsBlank(target.options[j])
    ensures DefinedOptions(s.options) == target.options
  {
    FillThenCollect(s.options, target.options);
  }

  /** Editing an open poll that has not reached its close time keeps that
      close time; one already past it is due to close at once. */
  lemma EditKeepsCloseTime(s: PollCreationSession, target: Poll, now: int)
    requires EditPrefilled(s, target, now)
    requires target.status == Open
    ensures target.closesAt >= now ==> s.PreviewClosesAt(now) == target.closesAt
    ensures target.closesAt < now ==> s.PreviewClosesAt(now) == now
  {
  }

  /** The setter calls of `create` on its new session: the question when
      the arguments give a non-blank one, the duration when they give one. */
  method Prefill(s: PollCreationSession, c: CreateArgs)
    requires s.Valid()
    modifies s
    ensures s.Valid()
    ensures s.question == (if CreateQuestion(c).Some? then CreateQuestion(c) else old(s.question))
    ensures s.durationSeconds == (if c.duration.Some? then Some(c.duration.value as int) else old(s.durationSeconds))
    ensures s.code == old(s.code) && s.options == old(s.options)
    ensures s.awaiting == old(s.awaiting) && s.awaitingOptionIndex == old(s.awaitingOptionIndex)
    ensures s.editingExisting == old(s.editingExisting) && s.editingPollId == old(s.editingPollId)
  {
    var q := CreateQuestion(c);
    if q.Some? {
      s.SetQuestion(q);
    }
    if c.duration.Some? {
      s.SetDurationSeconds(Some(c.duration.value));
    }
  }

  /** The setter calls of `edit` on the new session: mark it as an edit of
      the target, copy the code and question, the time left while the
      target is open, and the options. */
  method PrefillFromPoll(s: PollCreationSession, target: Poll, now: int)
    requires s.Valid() && s.awaiting == NoField
    requires s.Entered() == Entries(None, None, None, seq(SLOT_COUNT, _ => None))
    modifies s
    ensures EditPrefilled(s, target, now)
  {
    s.StartEditing(target.id);
    s.SetCode(target.code);
    s.SetQuestion(Some(target.question));
    if target.status == Open {
      s.SetDurationSeconds(Some(Max(0, target.closesAt - now)));
    }
    CopyOptions(s, target.options);
  }

  /** The option-copying loop of `edit`: into the empty slots of a
      session, the first min(6, n) texts in order, one per slot. */
  method CopyOptions(s: PollCreationSession, opts: seq<string>)
    requires s.Valid() && s.options == seq(SLOT_COUNT, _ => None)
    modifies s
    ensures s.Valid()
    ensures SlotsFilledFrom(s.options, opts)
    ensures s.code == old(s.code) && s.question == old(s.question)
    ensures s.durationSeconds == old(s.durationSeconds)
    ensures s.awaiting == old(s.awaiting) && s.awaitingOptionIndex == old(s.awaitingOptionIndex)
    ensures s.editingExisting == old(s.editingExisting) && s.editingPollId == old(s.editingPollId)
  {
    var n := if |opts| < SLOT_COUNT then |opts| else SLOT_COUNT;
    var i := 0;
    while i < n
      invariant 0 <= i <= n
      invariant s.Valid()
      invariant SlotsFilledFrom(s.options, opts[..i])
      invariant s.code == old(s.code) && s.question == old(s.question)
      invariant s.durationSeconds == old(s.durationSeconds)
      invariant s.awaiting == old(s.awaiting) && s.awaitingOptionIndex == old(s.awaitingOptionIndex)
      invariant s.editingExisting == old(s.editingExisting) && s.editingPollId == old(s.editingPollId)
    {
      var _ := s.SetOption(i, Some(opts[i]));
      i := i + 1;
    }
  }

  // ---------------------------------------------------------------------
  // Replies

  datatype CreateReply = CreationInProgress | CreationStarted(session: PollCreationSession)
  /** Both `AlreadyClosed` and `ClosedNow` report "close.success". */
  datatype CloseReply = CloseInvalidArgs | CloseInvalidPoll | AlreadyClosed(id: Uuid)
                      | ClosedNow(id: Uuid, announcement: Announcement)
  datatype RemoveReply = RemoveInvalidArgs | RemoveInvalidPoll | Removed(id: Uuid)
  datatype ViewReply = ViewInvalidArgs | ViewInvalidPoll | Viewing(poll: Poll)
  datatype VoteReply = VoteInvalidArgs | VoteInvalidPoll | VoteInvalidOption | VoteSubmitted(result: VoteResult)
  datatype PublishReply = PublishNoSession | PublishAttempted(result: PublishResult)
  datatype EditReply =
    | EditInvalidArgs
    | EditInvalidPoll
    | EditInvalidOption
    | EditStarted(session: PollCreationSession)
    | Prompted(field: Awaiting, ordinal: Option<string>)

  class PollCommand {
    const manager: PollManager

    ghost predicate Valid()
      reads this, manager, manager.storage, manager.sessions, manager.sessions.sessions.Values
    {
      manager.Valid()
    }

    constructor (manager: PollManager)
      requires manager.Valid()
      ensures Valid() && this.manager == manager
    {
      this.manager := manager;
    }

    /** `create`: refused while the player has a session; otherwise a new
        session with the duration and non-blank question the arguments
        give. */
    method HandleCreate(player: Uuid, args: seq<string>) returns (r: CreateReply)
      requires Valid()
      modifies manager.sessions
      ensures Valid()
      ensures r == CreationInProgress <==> player in old(manager.sessions.sessions)
      ensures r == CreationInProgress ==> unchanged(manager.sessions)
      ensures r.CreationStarted? ==>
                && fresh(r.session)
                && manager.sessions.sessions == old(manager.sessions.sessions)[player := r.session]
                && r.session.question == CreateQuestion(SplitCreateArgs(args))
                && r.session.durationSeconds == SplitCreateArgs(args).duration
                && r.session.code == None && r.session.options == seq(SLOT_COUNT, _ => None)
                && r.session.awaiting == NoField && !r.session.editingExisting
                && manager.sessions.ReopenScheduled(player)
                && manager.sessions.drafts == old(manager.sessions.drafts)
                && manager.sessions.playersWithOpenBooks == old(manager.sessions.playersWithOpenBooks)
    {
      if player in manager.sessions.sessions {
        return CreationInProgress;
      }
      var c := SplitCreateArgs(args);
      var s := manager.sessions.StartSession(player);
      Prefill(s, c);
      r := CreationStarted(s);
    }

    /** `close <uuid>`: a closed poll is reported closed without closing it
        again; an open one is closed. Codes are not accepted. */
    method HandleClose(args: seq<string>, parseUuid: UuidParser) returns (r: CloseReply)
      requires Valid()
      modifies manager, manager.storage, manager.storage.polls.Values
      ensures Valid()
      ensures r == CloseInvalidArgs <==> args == []
      ensures r == CloseInvalidPoll <==>
                args != [] && (parseUuid(args[0]).None? || parseUuid(args[0]).value !in old(manager.storage.polls))
      ensures r.AlreadyClosed? ==>
                && args != [] && parseUuid(args[0]) == Some(r.id) && r.id in old(manager.storage.polls)
                && old(manager.storage.polls[r.id].status) == Closed
      ensures !r.ClosedNow? ==>
                && unchanged(manager) && unchanged(manager.storage)
                && (forall k :: k in manager.storage.polls ==> unchanged(manager.storage.polls[k]))
      ensures r.ClosedNow? ==>
                && args != [] && parseUuid(args[0]) == Some(r.id) && r.id in old(manager.storage.polls)
                && old(manager.storage.polls[r.id].status) == Open
                && r.id in manager.storage.polls && manager.storage.polls[r.id].status == Closed
                && r.id !in manager.scheduledTasks
      ensures r.ClosedNow? ==>
                var p := manager.storage.polls[r.id];
                && manager.storage.polls == old(manager.storage.polls)
                && p.question == old(p.question) && p.options == old(p.options)
                && p.code == old(p.code) && p.closesAt == old(p.closesAt)
                && (forall k :: k in manager.storage.polls && k != r.id ==> unchanged(manager.storage.polls[k]))
                && manager.storage.votes == old(manager.storage.votes)
                && (p.code.None? ==> manager.storage.codeIndex == old(manager.storage.codeIndex))
                && (p.code.Some? ==>
                      manager.storage.codeIndex == old(manager.storage.codeIndex)[Lower(p.code.value) := r.id])
                && manager.scheduledTasks == old(manager.scheduledTasks) - {r.id}
                && manager.running == old(manager.running) - TaskOf(old(manager.scheduledTasks), r.id)
                && exists o :: IsOutcome(Tally(manager.storage.BallotsOf(r.id)), o)
                     && r.announcement == Announce(p.question, p.options, o)
    {
      if args == [] {
        return CloseInvalidArgs;
      }
      var id := parseUuid(args[0]);
      if id.None? {
        return CloseInvalidPoll;
      }
      var found := manager.storage.GetPoll(id.value);
      if found.None? {
        return CloseInvalidPoll;
      }
      var poll := found.value;
      if poll.status == Closed {
        return AlreadyClosed(id.value);
      }
      var a := manager.ClosePoll(poll);
      r := ClosedNow(id.value, a);
    }

    /** `remove <uuid>`: any id that parses is removed, whether or not a
        poll has it. */
    method HandleRemove(args: seq<string>, parseUuid: UuidParser) returns (r: RemoveReply)
      requires Valid()
      modifies manager, manager.storage
      ensures Valid()
      ensures r == RemoveInvalidArgs <==> args == []
      ensures r == RemoveInvalidPoll <==> args != [] && parseUuid(args[0]).None?
      ensures r.Removed? ==>
                && args != [] && parseUuid(args[0]) == Some(r.id)
                && manager.storage.polls == old(manager.storage.polls) - {r.id}
                && manager.storage.votes == old(manager.storage.votes) - {r.id}
                && r.id !in manager.storage.codeIndex.Values
                && r.id !in manager.scheduledTasks
      ensures r.Removed? ==>
                && manager.storage.codeIndex ==
                     (map c | c in old(manager.storage.codeIndex) && old(manager.storage.codeIndex)[c] != r.id
                            :: old(manager.storage.codeIndex)[c])
                && manager.scheduledTasks == old(manager.scheduledTasks) - {r.id}
                && manager.running == old(manager.running) - TaskOf(old(manager.scheduledTasks), r.id)
      ensures !r.Removed? ==> unchanged(manager) && unchanged(manager.storage)
    {
      if args == [] {
        return RemoveInvalidArgs;
      }
      var id := parseUuid(args[0]);
      if id.None? {
        return RemoveInvalidPoll;
      }
      manager.RemovePoll(id.value);
      r := Removed(id.value);
    }

    /** `view <uuid>`: the stored poll with that id. */
    method HandleView(args: seq<string>, parseUuid: UuidParser) returns (r: ViewReply)
      requires Valid()
      ensures r == ViewInvalidArgs <==> args == []
      ensures r == ViewInvalidPoll <==>
                args != [] && (parseUuid(args[0]).None? || parseUuid(args[0]).value !in manager.storage.polls)
      ensures r.Viewing? ==>
                && args != [] && parseUuid(args[0]) == Some(r.poll.id)
                && manager.storage.polls[r.poll.id] == r.poll
    {
      if args == [] {
        return ViewInvalidArgs;
      }
      var id := parseUuid(args[0]);
      if id.None? {
        return ViewInvalidPoll;
      }
      var found := manager.storage.GetPoll(id.value);
      if found.None? {
        return ViewInvalidPoll;
      }
      r := Viewing(found.value);
    }

    /** `vote <uuid> <n>`: the option is the zero-based index n as given. */
    method HandleVote(player: Uuid, args: seq<string>, parseUuid: UuidParser, now: int) returns (r: VoteReply)
      requires Valid()
      modifies manager.storage
      ensures Valid()
      ensures r == VoteInvalidArgs <==> |args| < 2
      ensures r == VoteInvalidPoll <==> |args| >= 2 && parseUuid(args[0]).None?
      ensures r == VoteInvalidOption <==> |args| >= 2 && parseUuid(args[0]).Some? && ParseInt(args[1]).None?
      ensures !r.VoteSubmitted? ==> unchanged(manager.storage)
      ensures r == VoteSubmitted(Voted) ==>
                var id := parseUuid(args[0]).value;
                manager.storage.BallotsOf(id) == old(manager.storage.BallotsOf(id))[player := ParseInt(args[1]).value]
      ensures r.VoteSubmitted? ==>
                && |args| >= 2 && parseUuid(args[0]).Some? && ParseInt(args[1]).Some?
                && manager.VoteOutcome(player, parseUuid(args[0]).value, ParseInt(args[1]).value, now, r.result)
    {
      if |args| < 2 {
        return VoteInvalidArgs;
      }
      var id := parseUuid(args[0]);
      if id.None? {
        return VoteInvalidPoll;
      }
      var index := ParseInt(args[1]);
      if index.None? {
        return VoteInvalidOption;
      }
      var result := manager.Vote(player, id.value, index.value, now);
      r := VoteSubmitted(result);
    }

    /** `publish`: the player's session, if any, is published. */
    method HandlePublish(player: Uuid, now: int, freshId: Uuid, parseUuid: UuidParser) returns (r: PublishReply)
      requires Valid()
      modifies manager, manager.storage, manager.sessions, manager.storage.polls.Values
      ensures Valid()
      ensures r == PublishNoSession <==> player !in old(manager.sessions.sessions)
      ensures r == PublishNoSession ==> unchanged(manager) && unchanged(manager.sessions)
      ensures r.PublishAttempted? && r.result.Published? ==> player !in manager.sessions.sessions
      ensures r.PublishAttempted? ==>
                && player in old(manager.sessions.sessions)
                && manager.PublishOutcome(player, old(manager.sessions.sessions[player]), now, freshId, parseUuid, r.result)
    {
      if player !in manager.sessions.sessions {
        return PublishNoSession;
      }
      var s := manager.sessions.sessions[player];
      var result := manager.PublishFromSession(player, s, now, freshId, parseUuid);
      r := PublishAttempted(result);
    }

    /** `cancel`: ends the player's session when there is one. */
    method HandleCancel(player: Uuid) returns (cancelled: bool)
      requires Valid()
      modifies manager.sessions
      ensures Valid()
      ensures cancelled <==> player in old(manager.sessions.sessions)
      ensures cancelled ==> player !in manager.sessions.sessions && player !in manager.sessions.autoReopenTasks
      ensures !cancelled ==> unchanged(manager.sessions)
      ensures cancelled ==> manager.sessions.sessions == old(manager.sessions.sessions) - {player}
      ensures cancelled ==> manager.SessionEnded(player)
    {
      if player !in manager.sessions.sessions {
        return false;
      }
      manager.sessions.EndSession(player);
      cancelled := true;
    }

    /** `edit`. With a first argument that is not a field keyword, the poll
        it names (by id or code) is loaded into a new editing session that
        replaces any session of the player. With a keyword, the player's
        session awaits that field; `option n` takes n from 1 to 6 and
        awaits slot n - 1. */
    method HandleEdit(player: Uuid, args: seq<string>, now: int, parseUuid: UuidParser) returns (r: EditReply)
      requires Valid()
      modifies manager.sessions, manager.sessions.sessions.Values
      ensures Valid()
      ensures r == EditInvalidArgs <==>
                args == [] || (EditKeyword(args[0]).Some? &&
                  (player !in old(manager.sessions.sessions) || (EditKeyword(args[0]) == Some(OptionField) && |args| < 2)))
      ensures r == EditInvalidPoll <==>
                args != [] && EditKeyword(args[0]).None? && old(manager.storage.FindByIdOrCode(args[0], parseUuid)).None?
      ensures r.EditStarted? ==>
                && args != [] && EditKeyword(args[0]).None?
                && old(manager.storage.FindByIdOrCode(args[0], parseUuid)).Some?
                && fresh(r.session)
                && manager.sessions.sessions == old(manager.sessions.sessions)[player := r.session]
                && EditPrefilled(r.session, old(manager.storage.FindByIdOrCode(args[0], parseUuid)).value, now)
                && manager.sessions.ReopenScheduled(player)
                && manager.sessions.drafts == old(manager.sessions.drafts)
                && manager.sessions.playersWithOpenBooks == old(manager.sessions.playersWithOpenBooks)
                && (forall q :: q in manager.sessions.sessions && q != player ==> unchanged(manager.sessions.sessions[q]))
      ensures r == EditInvalidOption ==>
                && |args| >= 2 && EditKeyword(args[0]) == Some(OptionField)
                && (ParseInt(args[1]).None? || !(1 <= ParseInt(args[1]).value <= SLOT_COUNT))
      ensures r.Prompted? ==>
                && args != [] && EditKeyword(args[0]) == Some(r.field)
                && player in old(manager.sessions.sessions) && player in manager.sessions.sessions
                && manager.sessions.sessions[player].awaiting == r.field
                && unchanged(manager.sessions)
                && (forall q :: q in manager.sessions.sessions && q != player ==> unchanged(manager.sessions.sessions[q]))
                && manager.sessions.sessions[player].Entered() == old(manager.sessions.sessions[player].Entered())
                && manager.sessions.sessions[player].editingExisting == old(manager.sessions.sessions[player].editingExisting)
                && manager.sessions.sessions[player].editingPollId == old(manager.sessions.sessions[player].editingPollId)
      ensures r.Prompted? && r.field == OptionField ==>
                && |args| >= 2 && ParseInt(args[1]).Some?
                && 1 <= ParseInt(args[1]).value <= SLOT_COUNT
                && manager.sessions.sessions[player].awaitingOptionIndex == ParseInt(args[1]).value - 1
                && r.ordinal == Some(Ordinals.ToOrdinal(ParseInt(args[1]).value))
      ensures !r.EditStarted? && !r.Prompted? ==>
                unchanged(manager.sessions) && forall q :: q in manager.sessions.sessions ==> unchanged(manager.sessions.sessions[q])
    {
      if args == [] {
        return EditInvalidArgs;
      }
      var keyword := EditKeyword(args[0]);
      if keyword.None? {
        var found := manager.storage.FindByIdOrCode(args[0], parseUuid);
        if found.None? {
          return EditInvalidPoll;
        }
        var s := LoadForEdit(player, found.value, now);
        return EditStarted(s);
      }
      if player !in manager.sessions.sessions {
        return EditInvalidArgs;
      }
      r := PromptField(player, keyword.value, args);
    }

    /** The target path of `edit`: a new session for the player, marked as
        an edit of the target and pre-filled from it. */
    method LoadForEdit(player: Uuid, target: Poll, now: int) returns (s: PollCreationSession)
      requires Valid()
      modifies manager.sessions
      ensures Valid()
      ensures fresh(s)
      ensures manager.sessions.sessions == old(manager.sessions.sessions)[player := s]
      ensures EditPrefilled(s, target, now)
      ensures manager.sessions.ReopenScheduled(player)
      ensures manager.sessions.drafts == old(manager.sessions.drafts)
      ensures manager.sessions.playersWithOpenBooks == old(manager.sessions.playersWithOpenBooks)
    {
      s := manager.sessions.StartSession(player);
      PrefillFromPoll(s, target, now);
    }

    /** The keyword path of `edit`: the player's session awaits the field;
        `option n` needs n from 1 to 6 and awaits slot n - 1. */
    method PromptField(player: Uuid, field: Awaiting, args: seq<string>) returns (r: EditReply)
      requires Valid()
      requires player in manager.sessions.sessions && field != NoField
      modifies manager.sessions.sessions[player]
      ensures Valid()
      ensures r.Prompted? || r == EditInvalidArgs || r == EditInvalidOption
      ensures r == EditInvalidArgs <==> field == OptionField && |args| < 2
      ensures r == EditInvalidOption <==>
                && field == OptionField && |args| >= 2
                && (ParseInt(args[1]).None? || !(1 <= ParseInt(args[1]).value <= SLOT_COUNT))
      ensures !r.Prompted? ==> unchanged(manager.sessions.sessions[player])
      ensures r.Prompted? ==>
                && r.field == field
                && manager.sessions.sessions[player].awaiting == field
                && manager.sessions.sessions[player].Entered() == old(manager.sessions.sessions[player].Entered())
                && manager.sessions.sessions[player].editingExisting == old(manager.sessions.sessions[player].editingExisting)
                && manager.sessions.sessions[player].editingPollId == old(manager.sessions.sessions[player].editingPollId)
                && unchanged(manager.sessions)
                && (forall q :: q in manager.sessions.sessions && q != player ==> unchanged(manager.sessions.sessions[q]))
      ensures r.Prompted? && field == OptionField ==>
                && |args| >= 2 && ParseInt(args[1]).Some?
                && 1 <= ParseInt(args[1]).value <= SLOT_COUNT
                && manager.sessions.sessions[player].awaitingOptionIndex == ParseInt(args[1]).value - 1
                && r.ordinal == Some(Ordinals.ToOrdinal(ParseInt(args[1]).value))
    {
      match field
      case CodeField =>
        manager.sessions.AwaitCode(player);
        r := Prompted(CodeField, None);
      case QuestionField =>
        manager.sessions.AwaitQuestion(player);
        r := Prompted(QuestionField, None);
      case DurationField =>
        manager.sessions.AwaitDuration(player);
        r := Prompted(DurationField, None);
      case OptionField =>
        if |args| < 2 {
          return EditInvalidArgs;
        }
        var idx := ParseInt(args[1]);
        if idx.None? || idx.value < 1 || idx.value > SLOT_COUNT {
          return EditInvalidOption;
        }
        manager.sessions.AwaitOption(player, idx.value - 1);
        r := Prompted(OptionField, Some(Ordinals.ToOrdinal(idx.value)));
    }
  }
}
