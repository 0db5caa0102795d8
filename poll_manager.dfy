/** PollManager: publishing a creation session as a poll, one close timer
    per poll, closing and announcing results, removal, voting and
    shutdown. */
module Lifecycle {
  import opened Common
  import opened Polls
  import opened Sessions
  import opened Scheduling
  import opened SessionManagement
  import opened Storage
  import Durations

  // ---------------------------------------------------------------------
  // Results

  /** How a close resolves the tally. */
  datatype Outcome = NoVotes | Tie(votes: nat) | Winner(index: int, votes: nat)

  /** The options that reach count m. */
  function Leaders(t: map<int, nat>, m: nat): set<int> {
    set v | v in t.Keys && t[v] == m
  }

  /** The outcome of a tally: no votes for an empty tally; otherwise, with
      m the largest count, a tie at m when two or more options reach m,
      and else the one option that reaches m, every other option being
      strictly below it. */
  predicate IsOutcome(t: map<int, nat>, o: Outcome) {
    match o
    case NoVotes => t == map[]
    case Tie(m) =>
      && (forall v :: v in t ==> t[v] <= m)
      && |Leaders(t, m)| >= 2
    case Winner(i, m) =>
      && i in t && t[i] == m
      && (forall v :: v in t && v != i ==> t[v] < m)
  }

  /** A non-empty set of option indexes has a member. */
  lemma HasMember(s: set<int>)
    requires |s| >= 1
    ensures exists x :: x in s
  {
    if forall y :: y !in s {
    }
  }

  /** A member of a non-empty set of option indexes. */
  lemma Member(s: set<int>) returns (x: int)
    requires |s| >= 1
    ensures x in s
  {
    HasMember(s);
    x :| x in s;
  }

  /** Two distinct members of a set of two or more. */
  lemma TwoMembers(s: set<int>) returns (a: int, b: int)
    requires |s| >= 2
    ensures a in s && b in s && a != b
  {
    a := Member(s);
    b := Member(s - {a});
  }

  /** A tally has at most one outcome. */
  lemma OutcomeUnique(t: map<int, nat>, o1: Outcome, o2: Outcome)
    requires IsOutcome(t, o1) && IsOutcome(t, o2)
    ensures o1 == o2
  {
    match o1 {
      case NoVotes =>
      case Tie(m) =>
        var a, b := TwoMembers(Leaders(t, m));
        match o2 {
          case NoVotes =>
          case Tie(m2) =>
            var c := Member(Leaders(t, m2));
            assert t[a] <= m2 && t[c] <= m;
          case Winner(i, m2) =>
        }
      case Winner(i, m) =>
        match o2 {
          case NoVotes =>
          case Tie(m2) =>
            var a, b := TwoMembers(Leaders(t, m2));
          case Winner(j, m2) =>
        }
    }
  }

  /** The first pass of `announceResults`: the largest count, starting
      from 0. */
  method MaxCount(t: map<int, nat>) returns (max: nat)
    ensures forall v :: v in t ==> t[v] <= max
    ensures max == 0 || exists v :: v in t && t[v] == max
  {
    max := 0;
    var todo := t.Keys;
    while todo != {}
      invariant todo <= t.Keys
      invariant forall v :: v in t && v !in todo ==> t[v] <= max
      invariant max == 0 || exists v :: v in t && v !in todo && t[v] == max
      decreases |todo|
    {
      HasMember(todo);
      var k :| k in todo;
      if t[k] > max {
        max := t[k];
      }
      todo := todo - {k};
    }
  }

  /** The second pass: the options whose count is max, each once. */
  method CollectLeaders(t: map<int, nat>, max: nat) returns (winners: seq<int>)
    ensures |winners| == |Leaders(t, max)|
    ensures forall i :: 0 <= i < |winners| ==> winners[i] in Leaders(t, max)
    ensures forall v :: v in Leaders(t, max) ==> v in winners
    ensures forall i, j :: 0 <= i < j < |winners| ==> winners[i] != winners[j]
  {
    winners := [];
    ghost var found: set<int> := {};
    var todo := t.Keys;
    while todo != {}
      invariant todo <= t.Keys
      invariant found == set v | v in t.Keys && v !in todo && t[v] == max
      invariant |winners| == |found|
      invariant forall i :: 0 <= i < |winners| ==> winners[i] in found
      invariant forall v :: v in found ==> v in winners
      invariant forall i, j :: 0 <= i < j < |winners| ==> winners[i] != winners[j]
      decreases |todo|
    {
      HasMember(todo);
      var k :| k in todo;
      if t[k] == max {
        winners := winners + [k];
        found := found + {k};
      }
      todo := todo - {k};
    }
    assert found == Leaders(t, max);
  }

  /** `announceResults`, the part that decides: more than one option at
      the largest count is a tie, otherwise the one found wins. */
  method ResolveOutcome(t: map<int, nat>) returns (o: Outcome)
    ensures IsOutcome(t, o)
  {
    if t == map[] {
      return NoVotes;
    }
    var max := MaxCount(t);
    var winners := CollectLeaders(t, max);
    if |winners| > 1 {
      o := Tie(max);
    } else {
      LeaderExists(t, max);
      var w := winners[0];
      SoleLeader(t, max, w);
      o := Winner(w, max);
    }
  }

  /** The largest count of a non-empty tally is reached by some option. */
  lemma LeaderExists(t: map<int, nat>, max: nat)
    requires t != map[]
    requires forall v :: v in t ==> t[v] <= max
    requires max == 0 || exists v :: v in t && t[v] == max
    ensures |Leaders(t, max)| >= 1
  {
    if max == 0 {
      var v := Member(t.Keys);
      assert v in Leaders(t, max);
    } else {
      var w :| w in t && t[w] == max;
      assert w in Leaders(t, max);
    }
  }

  /** When one option alone reaches the largest count, every other option
      is strictly below it. */
  lemma SoleLeader(t: map<int, nat>, max: nat, w: int)
    requires forall v :: v in t ==> t[v] <= max
    requires |Leaders(t, max)| == 1 && w in Leaders(t, max)
    ensures forall v :: v in t && v != w ==> t[v] < max
  {
    forall v | v in t && v != w
      ensures t[v] < max
    {
      assert |Leaders(t, max) - {w}| == 0;
      assert v !in Leaders(t, max) - {w};
    }
  }

  /** What the close announces; a winning index that is no longer one of
      the poll's options (the poll was edited to fewer options after the
      vote) makes the source's list lookup throw. */
  datatype Announcement =
    | ClosedNoVotes(question: string)
    | ClosedTie(question: string, votes: nat)
    | ClosedWinner(question: string, winningOption: string, votes: nat)
    | WinnerNotAnOption(index: int)

  /** The announcement for an outcome on a poll with these options. */
  function Announce(question: string, options: seq<string>, o: Outcome): (a: Announcement)
    ensures o.Winner? && 0 <= o.index < |options| ==>
              a == ClosedWinner(question, options[o.index], o.votes)
    ensures a.WinnerNotAnOption? <==> o.Winner? && !(0 <= o.index < |options|)
  {
    match o
    case NoVotes => ClosedNoVotes(question)
    case Tie(m) => ClosedTie(question, m)
    case Winner(i, m) =>
      if 0 <= i < |options| then ClosedWinner(question, options[i], m) else WinnerNotAnOption(i)
  }

  /** While every ballot names one of the options, the winner is one of
      them. */
  lemma WinnerIsAnOption(b: Ballots, options: seq<string>, o: Outcome)
    requires forall p :: p in b ==> 0 <= b[p] < |options|
    requires IsOutcome(Tally(b), o)
    ensures o.Winner? ==> 0 <= o.index < |options|
  {
    if o.Winner? {
      var p :| p in b && b[p] == o.index;
    }
  }

  lemma ExampleTie()
    ensures IsOutcome(map[0 := 3, 1 := 3, 2 := 1], Tie(3))
  {
    var t := map[0 := 3, 1 := 3, 2 := 1];
    assert Leaders(t, 3) == {0, 1};
  }

  lemma ExampleWinner()
    ensures IsOutcome(map[0 := 4, 1 := 2], Winner(0, 4))
  {
  }

  // ---------------------------------------------------------------------
  // The manager

  datatype PublishResult =
    | NothingToPublish
    | MissingCode
    | CodeInUse
    | InvalidPoll
    | CannotEditClosed
    | Published(poll: Poll)

  datatype VoteResult = UnknownPoll | PollClosed | AlreadyVoted | InvalidOption | Voted

  function Max(a: int, b: int): int { if a >= b then a else b }

  /** Ticks until a poll closing at closesAt is closed: twenty ticks per
      second, at least one. */
  function CloseDelayTicks(closesAt: int, now: int): (d: int)
    ensures d >= 1
    ensures closesAt > now ==> d == (closesAt - now) * 20
  {
    Max(1, (closesAt - now) * 20)
  }

  /** The poll a session publishes: its defined options, its code, open
      until now plus its duration (the default hour when unset). */
  ghost predicate PublishedFrom(p: Poll, s: PollCreationSession, now: int)
    reads p, s
  {
    && p.options == DefinedOptions(s.options)
    && p.closesAt == now + s.durationSeconds.GetOr(Durations.DEFAULT_DURATION_SECONDS)
    && p.status == Open
    && p.code == s.code
  }

  class PollManager {
    const storage: JsonPollStorage
    const sessions: SessionManager
    /** Close timers by poll id. */
    var scheduledTasks: map<Uuid, nat>
    /** The close timers running, and the delay each was started with. */
    var running: set<nat>
    var delayOf: map<nat, int>
    var nextHandle: nat

    ghost predicate Valid()
      reads this, storage, sessions, sessions.sessions.Values
    {
      && storage.Valid()
      && sessions.Valid()
      && Injective(scheduledTasks)
      && running == scheduledTasks.Values
      && (forall k :: k in scheduledTasks ==> scheduledTasks[k] < nextHandle)
      && running <= delayOf.Keys
    }

    constructor (storage: JsonPollStorage, sessions: SessionManager)
      requires storage.Valid() && sessions.Valid()
      ensures Valid()
      ensures this.storage == storage && this.sessions == sessions
      ensures scheduledTasks == map[] && running == {}
    {
      this.storage := storage;
      this.sessions := sessions;
      scheduledTasks := map[];
      running := {};
      delayOf := map[];
      nextHandle := 0;
    }

    /** The poll's earlier close timer, if any, is cancelled and replaced
        by one new timer, distinct from every timer running before, with
        the delay to closesAt; no other poll's timer changes. */
    twostate predicate TimerReplaced(id: Uuid, now: int, closesAt: int)
      reads this
    {
      && id in scheduledTasks
      && scheduledTasks == old(scheduledTasks)[id := scheduledTasks[id]]
      && scheduledTasks[id] !in old(running)
      && running == (old(running) - TaskOf(old(scheduledTasks), id)) + {scheduledTasks[id]}
      && scheduledTasks[id] in delayOf
      && delayOf[scheduledTasks[id]] == CloseDelayTicks(closesAt, now)
    }

    /** The player's session and reopen timer are gone, and nothing else of
        the session manager changed. */
    twostate predicate SessionEnded(player: Uuid)
      reads this, sessions
    {
      && sessions.sessions == old(sessions.sessions) - {player}
      && sessions.autoReopenTasks == old(sessions.autoReopenTasks) - {player}
      && sessions.timers == old(sessions.timers) - TaskOf(old(sessions.autoReopenTasks), player)
      && sessions.drafts == old(sessions.drafts)
      && sessions.playersWithOpenBooks == old(sessions.playersWithOpenBooks)
    }

    /** `trackOpenPoll`: the earlier close timer of the poll, if any, is
        cancelled, and a new one is started with the delay to closesAt. */
    method TrackOpenPoll(p: Poll, now: int)
      requires Valid()
      modifies this
      ensures Valid()
      ensures TimerReplaced(p.id, now, p.closesAt)
    {
      var h := nextHandle;
      FileNext(scheduledTasks, p.id, h, scheduledTasks[p.id := h]);
      if p.id in scheduledTasks {
        running := running - {scheduledTasks[p.id]};
      }
      scheduledTasks := scheduledTasks[p.id := h];
      running := running + {h};
      delayOf := delayOf[h := CloseDelayTicks(p.closesAt, now)];
      nextHandle := nextHandle + 1;
    }

    /** The removal and cancelling of a poll's close timer, as `closePoll`
        and `removePoll` each do it: the timer filed under id, if any, stops
        running and leaves the map. (`trackOpenPoll` files a new timer under
        the same id at once, so there the entry is overwritten instead.) */
    method CancelTimer(id: Uuid)
      requires Valid()
      modifies this
      ensures Valid()
      ensures scheduledTasks == old(scheduledTasks) - {id}
      ensures running == old(running) - TaskOf(old(scheduledTasks), id)
      ensures delayOf == old(delayOf) && nextHandle == old(nextHandle)
    {
      ValuesRemove(scheduledTasks, id);
      if id in scheduledTasks {
        running := running - {scheduledTasks[id]};
      }
      scheduledTasks := scheduledTasks - {id};
    }

    /** `closePoll` followed by `announceResults`: the poll is closed and
        saved, its timer cancelled, and its tally announced. */
    method ClosePoll(p: Poll) returns (a: Announcement)
      requires Valid()
      modifies this, storage, p
      ensures Valid()
      ensures p.status == Closed
      ensures p.question == old(p.question) && p.options == old(p.options)
      ensures p.code == old(p.code) && p.closesAt == old(p.closesAt)
      ensures forall t :: !p.IsOpen(t)
      ensures storage.polls == old(storage.polls)[p.id := p]
      ensures storage.votes == old(storage.votes)
      ensures p.code.None? ==> storage.codeIndex == old(storage.codeIndex)
      ensures p.code.Some? ==> storage.codeIndex == old(storage.codeIndex)[Lower(p.code.value) := p.id]
      ensures p.id !in scheduledTasks
      ensures scheduledTasks == old(scheduledTasks) - {p.id}
      ensures running == old(running) - TaskOf(old(scheduledTasks), p.id)
      ensures exists o :: IsOutcome(Tally(storage.BallotsOf(p.id)), o)
                && a == Announce(p.question, p.options, o)
    {
      p.SetStatus(Closed);
      storage.SavePoll(p);
      CancelTimer(p.id);
      var tally := storage.GetVoteTally(p.id);
      var o := ResolveOutcome(tally);
      a := Announce(p.question, p.options, o);
    }

    /** `removePoll`: the close timer is cancelled and the poll, its
        ballots and its codes leave storage. */
    method RemovePoll(id: Uuid)
      requires Valid()
      modifies this, storage
      ensures Valid()
      ensures id !in scheduledTasks && scheduledTasks == old(scheduledTasks) - {id}
      ensures running == old(running) - TaskOf(old(scheduledTasks), id)
      ensures storage.polls == old(storage.polls) - {id}
      ensures storage.votes == old(storage.votes) - {id}
      ensures storage.codeIndex ==
                map c | c in old(storage.codeIndex) && old(storage.codeIndex)[c] != id :: old(storage.codeIndex)[c]
      ensures id !in storage.codeIndex.Values
    {
      CancelTimer(id);
      storage.RemovePoll(id);
    }

    /** What `vote` reports and leaves behind: the poll must exist, be
        open, not have a ballot from the player yet, and have the option;
        the first failing check, in that order, is reported, and a ballot
        is saved only when all pass. */
    twostate predicate VoteOutcome(player: Uuid, pollId: Uuid, optionIndex: int, now: int, r: VoteResult)
      reads storage, storage.polls.Values
    {
      && (r == UnknownPoll <==> pollId !in storage.polls)
      && (r == PollClosed <==> pollId in storage.polls && !storage.polls[pollId].IsOpen(now))
      && (r == AlreadyVoted <==>
          (pollId in storage.polls && storage.polls[pollId].IsOpen(now)
           && old(storage.HasVoted(pollId, player))))
      && (r == InvalidOption <==>
          (pollId in storage.polls && storage.polls[pollId].IsOpen(now)
           && !old(storage.HasVoted(pollId, player))
           && !(0 <= optionIndex < |storage.polls[pollId].options|)))
      && (r == Voted ==> storage.BallotsOf(pollId) == old(storage.BallotsOf(pollId))[player := optionIndex])
      && (r != Voted ==> storage.votes == old(storage.votes))
      && (forall q :: q != pollId ==> storage.BallotsOf(q) == old(storage.BallotsOf(q)))
      && (storage.polls == old(storage.polls) && storage.codeIndex == old(storage.codeIndex))
    }

    /** `vote`. */
    method Vote(player: Uuid, pollId: Uuid, optionIndex: int, now: int) returns (r: VoteResult)
      requires Valid()
      modifies storage
      ensures Valid()
      ensures VoteOutcome(player, pollId, optionIndex, now, r)
    {
      var found := storage.GetPoll(pollId);
      if found.None? {
        return UnknownPoll;
      }
      var poll := found.value;
      if !poll.IsOpen(now) {
        return PollClosed;
      }
      if storage.HasVoted(pollId, player) {
        return AlreadyVoted;
      }
      if optionIndex < 0 || optionIndex >= |poll.options| {
        return InvalidOption;
      }
      storage.SaveVote(pollId, player, optionIndex);
      r := Voted;
    }

    /** `shutdown`: every close timer is cancelled; storage is untouched. */
    method Shutdown()
      requires Valid()
      modifies this
      ensures Valid()
      ensures scheduledTasks == map[] && running == {}
    {
      running := running - scheduledTasks.Values;
      scheduledTasks := map[];
    }

    /** What `publishFromSession` reports and leaves behind. The checks
        run in order: at least two defined options, then a code that is set
        and not blank, then (new polls only) a code that no stored poll
        answers to; then an edit needs a stored target that is not closed.
        Each failed check leaves everything as it was. */
    twostate predicate PublishOutcome(player: Uuid, s: PollCreationSession, now: int,
                                      freshId: Uuid, parseUuid: UuidParser, new r: PublishResult)
      requires old(storage.Valid()) && s.Valid()
      reads this, storage, sessions, s, storage.polls.Values, if r.Published? then {r.poll} else {}
    {
      && (r == NothingToPublish <==> |DefinedOptions(s.options)| < 2)
      && (r == MissingCode <==>
          (|DefinedOptions(s.options)| >= 2 && (s.code.None? || IsBlank(s.code.value))))
      && (r == CodeInUse <==>
          (|DefinedOptions(s.options)| >= 2 && s.code.Some? && !IsBlank(s.code.value)
           && !s.editingExisting && (var code := s.code.value; old(storage.FindByIdOrCode(code, parseUuid)).Some?)))
      && (r == InvalidPoll <==>
          (|DefinedOptions(s.options)| >= 2 && s.code.Some? && !IsBlank(s.code.value)
           && s.editingExisting && s.editingPollId.value !in old(storage.polls)))
      && (r == CannotEditClosed <==>
          (|DefinedOptions(s.options)| >= 2 && s.code.Some? && !IsBlank(s.code.value)
           && s.editingExisting && s.editingPollId.value in old(storage.polls)
           && (var id := s.editingPollId.value; old(storage.polls[id].status) == Closed)))
      && (!r.Published? ==>
          && unchanged(this) && unchanged(storage) && unchanged(sessions)
          && (forall k :: k in storage.polls ==> unchanged(storage.polls[k])))
      && (r.Published? ==> PublishedState(r.poll, s, now, player))
      && (r.Published? && s.editingExisting ==>
          && s.editingPollId.value in old(storage.polls)
          && r.poll.id == s.editingPollId.value
          && (var id := s.editingPollId.value; r.poll == old(storage.polls[id]))
          && r.poll.question == (if s.question.Some? then s.question.value else old(r.poll.question)))
      && (r.Published? && !s.editingExisting ==>
          && fresh(r.poll) && r.poll.id == freshId && r.poll.createdAt == now
          && r.poll.question == s.question.GetOr("Untitled Poll"))
    }

    /** `publishFromSession`. On success the poll is saved and tracked and
        only then is the player's session ended. The fresh id of a new poll
        is passed in. */
    method PublishFromSession(player: Uuid, s: PollCreationSession, now: int,
                              freshId: Uuid, parseUuid: UuidParser)
      returns (r: PublishResult)
      requires Valid() && s.Valid()
      modifies this, storage, sessions, storage.polls.Values
      ensures Valid()
      ensures PublishOutcome(player, s, now, freshId, parseUuid, r)
    {
      var options := DefinedOptions(s.options);
      if |options| < 2 {
        return NothingToPublish;
      }
      if s.code.None? || IsBlank(s.code.value) {
        return MissingCode;
      }
      if s.editingExisting {
        r := PublishEdit(player, s, now);
      } else {
        if storage.FindByIdOrCode(s.code.value, parseUuid).Some? {
          return CodeInUse;
        }
        var poll := PublishNew(player, s, now, freshId);
        r := Published(poll);
      }
    }

    /** After a successful publish: the poll is the one the session
        describes and is stored under its id, indexed under the session's
        code, with every ballot kept and no other stored poll touched; its
        close timer is replaced and the player's session is over. */
    twostate predicate PublishedState(new poll: Poll, s: PollCreationSession, now: int, player: Uuid)
      reads this, storage, sessions, s, poll, storage.polls.Values
    {
      && PublishedFrom(poll, s, now)
      && s.code.Some?
      && storage.polls == old(storage.polls)[poll.id := poll]
      && storage.votes == old(storage.votes)
      && storage.codeIndex == old(storage.codeIndex)[Lower(s.code.value) := poll.id]
      && (forall k :: k in storage.polls && k != poll.id ==> unchanged(storage.polls[k]))
      && TimerReplaced(poll.id, now, poll.closesAt)
      && SessionEnded(player)
    }

    /** The new-poll branch of `publishFromSession`, after its checks: a
        poll with the given id, the session's question or "Untitled Poll",
        its defined options and code, open until now plus the duration. */
    method PublishNew(player: Uuid, s: PollCreationSession, now: int, freshId: Uuid)
      returns (poll: Poll)
      requires Valid() && s.Valid()
      requires s.code.Some? && !IsBlank(s.code.value)
      modifies this, storage, sessions
      ensures Valid()
      ensures fresh(poll) && poll.id == freshId && poll.createdAt == now
      ensures poll.question == s.question.GetOr("Untitled Poll")
      ensures PublishedState(poll, s, now, player)
    {
      var closesAt := now + s.durationSeconds.GetOr(Durations.DEFAULT_DURATION_SECONDS);
      poll := new Poll(freshId, s.question.GetOr("Untitled Poll"), DefinedOptions(s.options), now, closesAt, Open);
      poll.SetCode(s.code);
      Commit(player, poll, now);
    }

    /** The edit branch of `publishFromSession`, after the option and code
        checks: the target must be stored and not closed; it is then
        rewritten from the session, keeping its id and creation time. */
    method PublishEdit(player: Uuid, s: PollCreationSession, now: int) returns (r: PublishResult)
      requires Valid() && s.Valid()
      requires s.editingExisting && s.code.Some? && !IsBlank(s.code.value)
      modifies this, storage, sessions, storage.polls.Values
      ensures Valid()
      ensures r.Published? || r == InvalidPoll || r == CannotEditClosed
      ensures r == InvalidPoll <==> s.editingPollId.value !in old(storage.polls)
      ensures r == CannotEditClosed <==>
                (s.editingPollId.value in old(storage.polls)
                 && old(storage.polls[s.editingPollId.value].status) == Closed)
      ensures !r.Published? ==>
                && unchanged(this) && unchanged(storage) && unchanged(sessions)
                && (forall k :: k in storage.polls ==> unchanged(storage.polls[k]))
      ensures r.Published? ==>
                && PublishedState(r.poll, s, now, player)
                && s.editingPollId.value in old(storage.polls)
                && r.poll.id == s.editingPollId.value
                && r.poll == old(storage.polls[s.editingPollId.value])
                && r.poll.question == (if s.question.Some? then s.question.value else old(r.poll.question))
    {
      var target := storage.GetPoll(s.editingPollId.value);
      if target.None? {
        return InvalidPoll;
      }
      var poll := target.value;
      if poll.status == Closed {
        return CannotEditClosed;
      }
      var closesAt := now + s.durationSeconds.GetOr(Durations.DEFAULT_DURATION_SECONDS);
      RewriteForEdit(poll, if s.question.Some? then s.question.value else poll.question,
                     DefinedOptions(s.options), closesAt, s.code);
      Commit(player, poll, now);
      r := Published(poll);
    }

    /** The last steps of a successful publish: the poll is saved, its
        close timer started, and only then the player's session ended. */
    method Commit(player: Uuid, poll: Poll, now: int)
      requires Valid()
      modifies this, storage, sessions
      ensures Valid()
      ensures storage.polls == old(storage.polls)[poll.id := poll]
      ensures storage.votes == old(storage.votes)
      ensures poll.code.None? ==> storage.codeIndex == old(storage.codeIndex)
      ensures poll.code.Some? ==> storage.codeIndex == old(storage.codeIndex)[Lower(poll.code.value) := poll.id]
      ensures TimerReplaced(poll.id, now, poll.closesAt)
      ensures SessionEnded(player)
    {
      storage.SavePoll(poll);
      TrackOpenPoll(poll, now);
      sessions.EndSession(player);
    }
  }

  /** The setter calls by which publishing an edit rewrites the stored
      poll: question, options, closing time, status back to open, code. */
  method RewriteForEdit(poll: Poll, question: string, options: seq<string>, closesAt: int,
                        code: Option<string>)
    modifies poll
    ensures poll.question == question && poll.options == options
    ensures poll.closesAt == closesAt && poll.status == Open && poll.code == code
  {
    poll.SetQuestion(question);
    poll.SetOptions(options);
    poll.SetClosesAt(closesAt);
    poll.SetStatus(Open);
    poll.SetCode(code);
  }

  /** A poll published with a positive duration, or with none, is open
      right away. */
  lemma PublishedIsOpen(p: Poll, s: PollCreationSession, now: int)
    requires PublishedFrom(p, s, now)
    requires s.durationSeconds.None? || s.durationSeconds.value > 0
    ensures p.IsOpen(now)
  {
  }
}
