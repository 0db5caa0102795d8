/** ChatListener.onChat: a chat line from a player with an open creation
    session fills in whichever field the session awaits. */
module ChatInput {
  import opened Common
  import opened Sessions
  import opened SessionManagement
  import Durations

  /** What became of a chat line. Every outcome except `Ignored` means the
      chat event was cancelled, i.e. the line was consumed. */
  datatype ChatOutcome =
    | Ignored            // no session, or nothing awaited
    | CodeSet
    | QuestionSet
    | DurationSet
    | InvalidDuration    // the line is not a duration; the session is left alone
    | OptionSet(slot: int)
    | SlotOutOfRange     // the awaited index is not a slot; List.set throws

  predicate Consumed(o: ChatOutcome) { o != Ignored }

  /** `onChat`. The MiniMessage sanitiser is not part of this model and is
      passed in; the session's `awaiting` tag decides the branch. */
  method OnChat(m: SessionManager, p: Uuid, msg: string, sanitize: string -> string)
    returns (o: ChatOutcome)
    requires m.Valid()
    modifies m.SessionOf(p)
    ensures m.Valid()
    ensures !Consumed(o) <==> (p !in m.sessions || old(m.sessions[p].awaiting) == NoField)
    ensures !Consumed(o) || o == InvalidDuration || o == SlotOutOfRange ==>
              p !in m.sessions || unchanged(m.sessions[p])
    ensures forall q :: q in m.sessions && q != p ==> unchanged(m.sessions[q])
    ensures p in m.sessions ==> m.sessions[p].editingExisting == old(m.sessions[p].editingExisting)
                                && m.sessions[p].editingPollId == old(m.sessions[p].editingPollId)
    ensures p in m.sessions ==> Filled(m.sessions[p], old(m.sessions[p].awaiting),
              old(m.sessions[p].awaitingOptionIndex), old(m.sessions[p].Entered()), msg, sanitize, o)
  {
    if p !in m.sessions {
      return Ignored;
    }
    var s := m.sessions[p];
    match s.awaiting
    case NoField =>
      o := Ignored;
    case CodeField =>
      s.SetCode(Some(sanitize(Trim(msg))));
      s.ClearAwaiting();
      o := CodeSet;
    case QuestionField =>
      s.SetQuestion(Some(msg));
      s.ClearAwaiting();
      o := QuestionSet;
    case DurationField =>
      var seconds := Durations.ParseDurationSeconds(msg);
      if seconds.None? {
        return InvalidDuration;
      }
      s.SetDurationSeconds(Some(seconds.value));
      s.ClearAwaiting();
      o := DurationSet;
    case OptionField =>
      var idx := s.awaitingOptionIndex;
      var ok := s.SetOption(idx, Some(msg));
      if !ok {
        return SlotOutOfRange;
      }
      s.ClearAwaiting();
      o := OptionSet(idx);
  }

  /** How the awaited field was filled, given the session's awaited tag,
      option index and entries before the line arrived:
      - CODE: the sanitised, trimmed line becomes the code;
      - QUESTION: the line, verbatim, becomes the question;
      - DURATION: a parsable line becomes the duration in seconds, an
        unparsable one changes nothing;
      - OPTION: the line, verbatim, goes into the awaited slot and no other.
      Whenever a field was filled, nothing is awaited any more. */
  ghost predicate Filled(s: PollCreationSession, tag: Awaiting, index: int, before: Entries,
                         msg: string, sanitize: string -> string, o: ChatOutcome)
    reads s
  {
    match tag
    case NoField => o == Ignored
    case CodeField =>
      && o == CodeSet
      && s.Entered() == before.(code := Some(sanitize(Trim(msg))))
      && s.awaiting == NoField
    case QuestionField =>
      && o == QuestionSet
      && s.Entered() == before.(question := Some(msg))
      && s.awaiting == NoField
    case DurationField =>
      var parsed := Durations.ParseDurationSeconds(msg);
      if parsed.None? then o == InvalidDuration
      else
        && o == DurationSet
        && s.Entered() == before.(durationSeconds := Some(parsed.value as int))
        && s.awaiting == NoField
    case OptionField =>
      |before.options| == SLOT_COUNT &&
      if 0 <= index < SLOT_COUNT then
        && o == OptionSet(index)
        && s.Entered() == before.(options := before.options[index := Some(msg)])
        && s.awaiting == NoField
      else o == SlotOutOfRange
  }

  /** A duration accepted from chat always puts the preview close time
      strictly after the present. */
  lemma AcceptedDurationIsAhead(s: PollCreationSession, msg: string, now: int)
    requires Durations.ParseDurationSeconds(msg).Some?
    requires s.durationSeconds == Some(Durations.ParseDurationSeconds(msg).value as int)
    ensures s.PreviewClosesAt(now) > now
  {
  }
}
