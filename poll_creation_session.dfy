/** PollCreationSession: the in-progress form a player fills in before a
    poll is published. */
module Sessions {
  import opened Common

  /** Which field the player's next chat line fills in. */
  datatype Awaiting = NoField | CodeField | QuestionField | DurationField | OptionField

  /** A session always holds exactly this many option slots. */
  const SLOT_COUNT: nat := 6

  /** A slot counts as an option when it is set and not blank. */
  predicate IsDefinedSlot(slot: Option<string>) {
    slot.Some? && !IsBlank(slot.value)
  }

  /** `getDefinedOptions`: the set, non-blank slots, in slot order. */
  function DefinedOptions(slots: seq<Option<string>>): (r: seq<string>)
    ensures |r| <= |slots|
    ensures forall j :: 0 <= j < |r| ==> !IsBlank(r[j])
  {
    if slots == [] then []
    else
      var init := slots[..|slots| - 1];
      var last := slots[|slots| - 1];
      assert slots == init + [last];
      DefinedOptions(init) + (if IsDefinedSlot(last) then [last.value] else [])
  }

  /** A text is an option exactly when some slot holds it and it is not
      blank. */
  lemma {:induction false} DefinedOptionsMembers(slots: seq<Option<string>>)
    ensures forall x :: x in DefinedOptions(slots) <==> (Some(x) in slots && !IsBlank(x))
  {
    if slots != [] {
      var init := slots[..|slots| - 1];
      var last := slots[|slots| - 1];
      assert slots == init + [last];
      DefinedOptionsMembers(init);
    }
  }

  /** The filter distributes over concatenation: the options of a slot list
      are those of its first part followed by those of the rest, so slot
      order is kept. */
  lemma {:induction false} DefinedOptionsAppend(a: seq<Option<string>>, b: seq<Option<string>>)
    ensures DefinedOptions(a + b) == DefinedOptions(a) + DefinedOptions(b)
    decreases |b|
  {
    if b == [] {
      assert a + b == a;
    } else {
      var init := b[..|b| - 1];
      var last := b[|b| - 1];
      assert b == init + [last];
      assert a + b == (a + init) + [last];
      DefinedOptionsAppend(a, init);
    }
  }

  /** A single slot contributes its text exactly when it is defined. */
  lemma DefinedOptionsOfSlot(slot: Option<string>)
    ensures DefinedOptions([slot]) == if IsDefinedSlot(slot) then [slot.value] else []
  {
    assert [slot][..0] == [];
  }

  /** Slots filled from a list of option texts: its first six entries in
      order, the remaining slots empty. */
  ghost predicate SlotsFilledFrom(slots: seq<Option<string>>, list: seq<string>) {
    && |slots| == SLOT_COUNT
    && forall j :: 0 <= j < SLOT_COUNT ==> slots[j] == if j < |list| then Some(list[j]) else None
  }

  /** Every entry of a list of texts in its own slot. */
  function AllSet(list: seq<string>): (r: seq<Option<string>>)
    ensures |r| == |list|
    ensures forall j :: 0 <= j < |list| ==> r[j] == Some(list[j])
  {
    seq(|list|, j requires 0 <= j < |list| => Some(list[j]))
  }

  /** n empty slots. */
  function AllEmpty(n: nat): (r: seq<Option<string>>)
    ensures |r| == n
    ensures forall j :: 0 <= j < n ==> r[j] == None
  {
    seq(n, _ => None)
  }

  lemma {:induction false} DefinedOptionsOfEmpty(n: nat)
    ensures DefinedOptions(AllEmpty(n)) == []
  {
    if n > 0 {
      DefinedOptionsOfEmpty(n - 1);
      assert AllEmpty(n)[..n - 1] == AllEmpty(n - 1);
    }
  }

  lemma {:induction false} DefinedOptionsOfSet(list: seq<string>)
    requires forall j :: 0 <= j < |list| ==> !IsBlank(list[j])
    ensures DefinedOptions(AllSet(list)) == list
  {
    if list != [] {
      var n := |list|;
      DefinedOptionsOfSet(list[..n - 1]);
      assert AllSet(list)[..n - 1] == AllSet(list[..n - 1]);
      assert list == list[..n - 1] + [list[n - 1]];
    }
  }

  /** Filled slots are the texts, each in its own slot, then empty slots. */
  lemma FilledSlotsSplit(slots: seq<Option<string>>, list: seq<string>)
    requires SlotsFilledFrom(slots, list)
    requires |list| <= SLOT_COUNT
    ensures slots == AllSet(list) + AllEmpty(SLOT_COUNT - |list|)
  {
  }

  /** Filling the slots from at most six non-blank texts and collecting
      the defined options gives the texts back, in order. */
  lemma FillThenCollect(slots: seq<Option<string>>, list: seq<string>)
    requires SlotsFilledFrom(slots, list)
    requires |list| <= SLOT_COUNT
    requires forall j :: 0 <= j < |list| ==> !IsBlank(list[j])
    ensures DefinedOptions(slots) == list
  {
    FilledSlotsSplit(slots, list);
    DefinedOptionsOfFilled(list, SLOT_COUNT - |list|);
  }

  /** The options of non-blank texts in their own slots followed by empty
      slots are the texts. */
  lemma DefinedOptionsOfFilled(list: seq<string>, n: nat)
    requires forall j :: 0 <= j < |list| ==> !IsBlank(list[j])
    ensures DefinedOptions(AllSet(list) + AllEmpty(n)) == list
  {
    var filled := AllSet(list);
    var empty := AllEmpty(n);
    DefinedOptionsAppend(filled, empty);
    DefinedOptionsOfSet(list);
    DefinedOptionsOfEmpty(n);
    assert list + [] == list;
  }

  /** The fields a player fills in, as one value. */
  datatype Entries = Entries(
    code: Option<string>,
    question: Option<string>,
    durationSeconds: Option<int>,
    options: seq<Option<string>>)

  class PollCreationSession {
    const creator: Uuid
    var code: Option<string>
    var question: Option<string>
    var durationSeconds: Option<int>
    var options: seq<Option<string>>
    var awaiting: Awaiting
    var awaitingOptionIndex: int
    var editingExisting: bool
    var editingPollId: Option<Uuid>

    /** Six slots; an option index only while an option is awaited; an
        edit target exactly when editing. */
    ghost predicate Valid()
      reads this
    {
      && |options| == SLOT_COUNT
      && (awaiting != OptionField ==> awaitingOptionIndex == -1)
      && (editingExisting <==> editingPollId.Some?)
    }

    function Entered(): Entries
      reads this
    {
      Entries(code, question, durationSeconds, options)
    }

    /** A new session: six empty slots, nothing awaited, nothing filled in,
        not editing. */
    constructor (creator: Uuid)
      ensures Valid()
      ensures this.creator == creator
      ensures Entered() == Entries(None, None, None, seq(SLOT_COUNT, _ => None))
      ensures awaiting == NoField && awaitingOptionIndex == -1
      ensures !editingExisting && editingPollId == None
    {
      this.creator := creator;
      code := None;
      question := None;
      durationSeconds := None;
      options := seq(SLOT_COUNT, _ => None);
      awaiting := NoField;
      awaitingOptionIndex := -1;
      editingExisting := false;
      editingPollId := None;
    }

    method SetCode(code: Option<string>)
      requires Valid()
      modifies this
      ensures Valid()
      ensures Entered() == old(Entered()).(code := code)
      ensures awaiting == old(awaiting) && awaitingOptionIndex == old(awaitingOptionIndex)
      ensures editingExisting == old(editingExisting) && editingPollId == old(editingPollId)
    {
      this.code := code;
    }

    method SetQuestion(question: Option<string>)
      requires Valid()
      modifies this
      ensures Valid()
      ensures Entered() == old(Entered()).(question := question)
      ensures awaiting == old(awaiting) && awaitingOptionIndex == old(awaitingOptionIndex)
      ensures editingExisting == old(editingExisting) && editingPollId == old(editingPollId)
    {
      this.question := question;
    }

    method SetDurationSeconds(durationSeconds: Option<int>)
      requires Valid()
      modifies this
      ensures Valid()
      ensures Entered() == old(Entered()).(durationSeconds := durationSeconds)
      ensures awaiting == old(awaiting) && awaitingOptionIndex == old(awaitingOptionIndex)
      ensures editingExisting == old(editingExisting) && editingPollId == old(editingPollId)
    {
      this.durationSeconds := durationSeconds;
    }

    /** `setOption`: `List.set` on the six slots. An index outside 0..5
        raises IndexOutOfBoundsException in the source; here it reports
        failure and changes nothing. */
    method SetOption(index: int, value: Option<string>) returns (ok: bool)
      requires Valid()
      modifies this
      ensures Valid()
      ensures ok <==> 0 <= index < SLOT_COUNT
      ensures ok ==> Entered() == old(Entered()).(options := old(options)[index := value])
      ensures !ok ==> unchanged(this)
      ensures awaiting == old(awaiting) && awaitingOptionIndex == old(awaitingOptionIndex)
      ensures editingExisting == old(editingExisting) && editingPollId == old(editingPollId)
    {
      if 0 <= index < SLOT_COUNT {
        options := options[index := value];
        ok := true;
      } else {
        ok := false;
      }
    }

    method AwaitQuestion()
      requires Valid()
      modifies this
      ensures Valid()
      ensures awaiting == QuestionField && awaitingOptionIndex == -1
      ensures Entered() == old(Entered())
      ensures editingExisting == old(editingExisting) && editingPollId == old(editingPollId)
    {
      awaiting := QuestionField;
      awaitingOptionIndex := -1;
    }

    method AwaitDuration()
      requires Valid()
      modifies this
      ensures Valid()
      ensures awaiting == DurationField && awaitingOptionIndex == -1
      ensures Entered() == old(Entered())
      ensures editingExisting == old(editingExisting) && editingPollId == old(editingPollId)
    {
      awaiting := DurationField;
      awaitingOptionIndex := -1;
    }

    /** The index is stored as given; it is checked only when the slot is
        written. */
    method AwaitOption(index: int)
      requires Valid()
      modifies this
      ensures Valid()
      ensures awaiting == OptionField && awaitingOptionIndex == index
      ensures Entered() == old(Entered())
      ensures editingExisting == old(editingExisting) && editingPollId == old(editingPollId)
    {
      awaiting := OptionField;
      awaitingOptionIndex := index;
    }

    method AwaitCode()
      requires Valid()
      modifies this
      ensures Valid()
      ensures awaiting == CodeField && awaitingOptionIndex == -1
      ensures Entered() == old(Entered())
      ensures editingExisting == old(editingExisting) && editingPollId == old(editingPollId)
    {
      awaiting := CodeField;
      awaitingOptionIndex := -1;
    }

    /** The outcome does not depend on the state before, so clearing twice
        is the same as clearing once. */
    method ClearAwaiting()
      requires Valid()
      modifies this
      ensures Valid()
      ensures awaiting == NoField && awaitingOptionIndex == -1
      ensures Entered() == old(Entered())
      ensures editingExisting == old(editingExisting) && editingPollId == old(editingPollId)
    {
      awaiting := NoField;
      awaitingOptionIndex := -1;
    }

    /** `previewClosesAt` with the clock reading passed in. */
    function PreviewClosesAt(now: int): (r: int)
      reads this
      ensures durationSeconds == None ==> r == now
      ensures durationSeconds.Some? ==> r - now == durationSeconds.value
    {
      now + durationSeconds.GetOr(0)
    }

    /** Marks the session as an edit of an existing poll. Nothing in the
        session clears the mark again. */
    method StartEditing(pollId: Uuid)
      requires Valid()
      modifies this
      ensures Valid()
      ensures editingExisting && editingPollId == Some(pollId)
      ensures Entered() == old(Entered())
      ensures awaiting == old(awaiting) && awaitingOptionIndex == old(awaitingOptionIndex)
    {
      editingExisting := true;
      editingPollId := Some(pollId);
    }
  }
}
