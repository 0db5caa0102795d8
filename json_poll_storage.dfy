/** JsonPollStorage without its file I/O: three in-memory maps holding the
    polls by id, the ballots by poll and player, and a lower-cased code
    index. */
module Storage {
  import opened Common
  import opened Polls

  // ---------------------------------------------------------------------
  // Tallies

  /** A poll's ballots: player to chosen option index. */
  type Ballots = map<Uuid, int>

  /** The players who chose option v. */
  function VotersFor(b: Ballots, v: int): set<Uuid> {
    set p | p in b.Keys && b[p] == v
  }

  /** The per-option tally: every option index that was chosen at least
      once, mapped to the number of players who chose it. */
  function Tally(b: Ballots): (t: map<int, nat>)
    ensures t.Keys == b.Values
    ensures forall v :: v in t ==> t[v] >= 1
  {
    var t := map v | v in b.Values :: |VotersFor(b, v)|;
    assert forall v :: v in t ==> t[v] >= 1 by {
      forall v | v in t
        ensures t[v] >= 1
      {
        var p :| p in b && b[p] == v;
        assert p in VotersFor(b, v);
      }
    }
    t
  }

  /** A new ballot for v joins the voters of v and no other option. */
  lemma VotersAdd(b: Ballots, p: Uuid, v: int, w: int)
    requires p !in b
    ensures VotersFor(b[p := v], w) == if w == v then VotersFor(b, w) + {p} else VotersFor(b, w)
  {
  }

  lemma ValuesAddBallot(b: Ballots, p: Uuid, v: int)
    requires p !in b
    ensures b[p := v].Values == b.Values + {v}
  {
    var b' := b[p := v];
    forall x | x in b.Values
      ensures x in b'.Values
    {
      var q :| q in b && b[q] == x;
      assert b'[q] == x;
    }
    assert b'[p] == v;
  }

  /** Adding one new ballot raises the count of its option by one and
      leaves the other counts alone. */
  lemma TallyAdd(b: Ballots, p: Uuid, v: int)
    requires p !in b
    ensures Tally(b[p := v]) == Tally(b)[v := Count(Tally(b), v) + 1]
  {
    var b' := b[p := v];
    var lhs := Tally(b');
    var rhs := Tally(b)[v := Count(Tally(b), v) + 1];
    ValuesAddBallot(b, p, v);
    assert lhs.Keys == rhs.Keys;
    forall w | w in lhs
      ensures lhs[w] == rhs[w]
    {
      VotersAdd(b, p, v, w);
    }
  }

  /** The tally with one ballot taken back out. */
  lemma TallyRemove(b: Ballots, p: Uuid)
    requires p in b
    ensures Tally(b) == Tally(b - {p})[b[p] := Count(Tally(b - {p}), b[p]) + 1]
  {
    var rest := b - {p};
    assert b == rest[p := b[p]];
    TallyAdd(rest, p, b[p]);
  }

  /** The count of option v in a tally, zero when absent. */
  function Count(t: map<int, nat>, v: int): nat {
    if v in t then t[v] else 0
  }

  /** A non-empty tally has an entry. */
  lemma HasEntry(t: map<int, nat>)
    requires |t| != 0
    ensures exists v :: v in t
  {
    if forall v :: v !in t {
    }
  }

  /** Non-empty ballots have a voter. */
  lemma HasVoter(b: Ballots)
    requires |b| != 0
    ensures exists p :: p in b
  {
    if forall p :: p !in b {
    }
  }

  /** The entry a sum takes out first. */
  ghost function Pick(t: map<int, nat>): (v: int)
    requires |t| != 0
    ensures v in t
  {
    HasEntry(t);
    var v :| v in t;
    v
  }

  /** The sum of all counts of a tally. */
  ghost function SumCounts(t: map<int, nat>): nat
    decreases |t|
  {
    if |t| == 0 then 0
    else t[Pick(t)] + SumCounts(t - {Pick(t)})
  }

  /** The sum does not depend on which entry is taken out first. */
  lemma {:induction false} SumCountsRemove(t: map<int, nat>, v: int)
    requires v in t
    ensures SumCounts(t) == t[v] + SumCounts(t - {v})
    decreases |t|
  {
    var w := Pick(t);
    if w != v {
      var t1 := t - {w};
      var t2 := t - {v};
      SumCountsRemove(t1, v);
      SumCountsRemove(t2, w);
      assert t1 - {v} == t2 - {w};
    }
  }

  /** A first vote for an option adds one to the sum. */
  lemma SumCountsNewEntry(t: map<int, nat>, v: int)
    requires v !in t
    ensures SumCounts(t[v := 1]) == SumCounts(t) + 1
  {
    var u := t[v := 1];
    SumCountsRemove(u, v);
    assert u - {v} == t;
  }

  /** One more vote for an option already counted adds one to the sum. */
  lemma SumCountsRaised(t: map<int, nat>, v: int)
    requires v in t
    ensures SumCounts(t[v := t[v] + 1]) == SumCounts(t) + 1
  {
    var u := t[v := t[v] + 1];
    SumCountsRemove(u, v);
    SumCountsRemove(t, v);
    assert u - {v} == t - {v};
  }

  /** Raising one count by one raises the sum by one. */
  lemma SumCountsOfBumped(t: map<int, nat>, bumped: map<int, nat>, v: int)
    requires bumped == t[v := Count(t, v) + 1]
    ensures SumCounts(bumped) == SumCounts(t) + 1
  {
    if v in t {
      SumCountsRaised(t, v);
    } else {
      SumCountsNewEntry(t, v);
    }
  }

  /** Taking one ballot out lowers the sum of the tally by one. */
  lemma SumAfterRemove(b: Ballots, p: Uuid)
    requires p in b
    ensures SumCounts(Tally(b)) == SumCounts(Tally(b - {p})) + 1
  {
    var v := b[p];
    var t := Tally(b - {p});
    var u := Tally(b);
    TallyRemove(b, p);
    assert u == t[v := Count(t, v) + 1];
    SumCountsOfBumped(t, u, v);
  }

  /** The counts of a tally add up to the number of ballots. */
  lemma {:induction false} TallySumsToVoters(b: Ballots)
    ensures SumCounts(Tally(b)) == |b|
    decreases |b|
  {
    if |b| == 0 {
      assert b == map[];
      assert Tally(b) == map[];
    } else {
      HasVoter(b);
      var p :| p in b;
      var rest := b - {p};
      assert |rest| == |b| - 1 by {
        assert b.Keys == rest.Keys + {p};
      }
      TallySumsToVoters(rest);
      SumAfterRemove(b, p);
    }
  }

  /** A restriction of ballots to some players. */
  function Restrict(b: Ballots, players: set<Uuid>): Ballots {
    map p | p in b.Keys && p in players :: b[p]
  }

  /** Counting the ballot of one more player p of b. */
  lemma TallyCountsOneMore(b: Ballots, todo: set<Uuid>, p: Uuid)
    requires todo <= b.Keys && p in todo
    ensures var t := Tally(Restrict(b, b.Keys - todo));
            Tally(Restrict(b, b.Keys - (todo - {p}))) == t[b[p] := Count(t, b[p]) + 1]
  {
    var before := Restrict(b, b.Keys - todo);
    assert Restrict(b, b.Keys - (todo - {p})) == before[p := b[p]];
    TallyAdd(before, p, b[p]);
  }

  // ---------------------------------------------------------------------
  // Ordering

  /** Newest first: non-increasing creation time. */
  predicate SortedNewestFirst(list: seq<Poll>) {
    forall i, j :: 0 <= i < j < |list| ==> list[i].createdAt >= list[j].createdAt
  }

  /** A poll no older than the head of a sorted list may go in front. */
  lemma SortedCons(x: Poll, list: seq<Poll>)
    requires SortedNewestFirst(list)
    requires list == [] || x.createdAt >= list[0].createdAt
    ensures SortedNewestFirst([x] + list)
  {
    var r := [x] + list;
    forall i, j | 0 <= i < j < |r|
      ensures r[i].createdAt >= r[j].createdAt
    {
      if i == 0 && j > 1 {
        assert r[j] == list[j - 1];
        assert list[0].createdAt >= list[j - 1].createdAt;
      }
    }
  }

  /** Inserts p before the first poll created strictly before it. */
  function InsertByCreation(list: seq<Poll>, p: Poll): (r: seq<Poll>)
    requires SortedNewestFirst(list)
    ensures SortedNewestFirst(r)
    ensures multiset(r) == multiset(list) + multiset{p}
    ensures |r| == |list| + 1
    ensures r[0] == p || (list != [] && r[0] == list[0])
  {
    if list == [] || list[0].createdAt <= p.createdAt then
      SortedCons(p, list);
      [p] + list
    else
      var tail := InsertByCreation(list[1..], p);
      SortedCons(list[0], tail);
      assert multiset(list) == multiset{list[0]} + multiset(list[1..]) by {
        assert list == [list[0]] + list[1..];
      }
      assert multiset([list[0]] + tail) == multiset{list[0]} + multiset(tail);
      [list[0]] + tail
  }

  // ---------------------------------------------------------------------
  // The store

  class JsonPollStorage {
    var polls: map<Uuid, Poll>
    var votes: map<Uuid, Ballots>
    var codeIndex: map<string, Uuid>

    /** Every poll is filed under its own id, and every code leads to a
        stored poll. Codes are not unique per poll: a code that was
        replaced keeps pointing at its poll. */
    ghost predicate Valid()
      reads this
    {
      && (forall k :: k in polls ==> polls[k].id == k)
      && codeIndex.Values <= polls.Keys
    }

    constructor ()
      ensures Valid()
      ensures polls == map[] && votes == map[] && codeIndex == map[]
    {
      polls := map[];
      votes := map[];
      codeIndex := map[];
    }

    /** `getPoll`. */
    function GetPoll(id: Uuid): (r: Option<Poll>)
      reads this
      requires Valid()
      ensures r.Some? <==> id in polls
      ensures r.Some? ==> r.value.id == id
    {
      if id in polls then Some(polls[id]) else None
    }

    /** `findByIdOrCode`: text that parses as a UUID is looked up by id
        only, with no fall-back to codes; any other text is looked up, in
        lower case, in the code index. */
    function FindByIdOrCode(text: string, parseUuid: UuidParser): (r: Option<Poll>)
      reads this
      requires Valid()
      ensures parseUuid(text).Some? ==> r == GetPoll(parseUuid(text).value)
      ensures parseUuid(text).None? && Lower(text) in codeIndex ==>
                r.Some? && r.value.id == codeIndex[Lower(text)]
      ensures parseUuid(text).None? && Lower(text) !in codeIndex ==> r.None?
    {
      match parseUuid(text)
      case Some(id) => GetPoll(id)
      case None =>
        var key := Lower(text);
        if key in codeIndex then GetPoll(codeIndex[key]) else None
    }

    /** `hasVoted`: the player has a ballot among the poll's ballots. */
    predicate HasVoted(pollId: Uuid, player: Uuid): (b: bool)
      reads this
      ensures b <==> player in BallotsOf(pollId)
    {
      pollId in votes && player in votes[pollId]
    }

    /** The ballots of a poll, empty when it has none. */
    function BallotsOf(pollId: Uuid): Ballots
      reads this
    {
      if pollId in votes then votes[pollId] else map[]
    }

    /** `savePoll`: an upsert keyed by the poll's id. A poll with a code is
        also indexed under the lower-cased code, so every letter-case
        variant of that code finds it. */
    method SavePoll(p: Poll)
      requires Valid()
      modifies this
      ensures Valid()
      ensures polls == old(polls)[p.id := p]
      ensures p.code.None? ==> codeIndex == old(codeIndex)
      ensures p.code.Some? ==> codeIndex == old(codeIndex)[Lower(p.code.value) := p.id]
      ensures votes == old(votes)
      ensures GetPoll(p.id) == Some(p)
      ensures forall text, parseUuid: UuidParser ::
                p.code.Some? && parseUuid(text).None? && EqualsIgnoreCase(text, p.code.value) ==>
                FindByIdOrCode(text, parseUuid) == Some(p)
    {
      polls := polls[p.id := p];
      if p.code.Some? {
        codeIndex := codeIndex[Lower(p.code.value) := p.id];
      }
    }

    /** `removePoll`: the poll, its ballots and every code leading to it
        go; all other polls, ballots and codes stay. */
    method RemovePoll(id: Uuid)
      requires Valid()
      modifies this
      ensures Valid()
      ensures polls == old(polls) - {id}
      ensures votes == old(votes) - {id}
      ensures codeIndex == map c | c in old(codeIndex) && old(codeIndex)[c] != id :: old(codeIndex)[c]
      ensures id !in codeIndex.Values
    {
      polls := polls - {id};
      votes := votes - {id};
      codeIndex := map c | c in codeIndex && codeIndex[c] != id :: codeIndex[c];
    }

    /** `saveVote`: the first ballot of a player on a poll wins; a later
        one is dropped. */
    method SaveVote(pollId: Uuid, player: Uuid, optionIndex: int)
      requires Valid()
      modifies this
      ensures Valid()
      ensures HasVoted(pollId, player)
      ensures old(HasVoted(pollId, player)) ==> BallotsOf(pollId) == old(BallotsOf(pollId))
      ensures !old(HasVoted(pollId, player)) ==>
                BallotsOf(pollId) == old(BallotsOf(pollId))[player := optionIndex]
      ensures forall q :: q != pollId ==> BallotsOf(q) == old(BallotsOf(q))
      ensures polls == old(polls) && codeIndex == old(codeIndex)
    {
      var inner := if pollId in votes then votes[pollId] else map[];
      if player !in inner {
        inner := inner[player := optionIndex];
      }
      votes := votes[pollId := inner];
    }

    /** `getVoteTally`: counts the ballots of a poll one by one. */
    method GetVoteTally(pollId: Uuid) returns (tally: map<int, nat>)
      ensures tally == Tally(BallotsOf(pollId))
      ensures pollId !in votes ==> tally == map[]
    {
      tally := map[];
      if pollId !in votes {
        assert Tally(BallotsOf(pollId)) == map[];
        return;
      }
      var b := votes[pollId];
      var todo := b.Keys;
      assert Restrict(b, b.Keys - todo) == map[];
      while todo != {}
        invariant todo <= b.Keys
        invariant tally == Tally(Restrict(b, b.Keys - todo))
        decreases |todo|
      {
        var p :| p in todo;
        TallyCountsOneMore(b, todo, p);
        tally := tally[b[p] := Count(tally, b[p]) + 1];
        todo := todo - {p};
      }
      assert Restrict(b, b.Keys - todo) == b;
    }

    /** `getAllPolls`: every stored poll exactly once, newest first. */
    method GetAllPolls() returns (list: seq<Poll>)
      requires Valid()
      ensures multiset(list) == multiset(polls.Values)
      ensures SortedNewestFirst(list)
    {
      list := [];
      var todo := polls.Keys;
      ghost var seen: set<Poll> := {};
      while todo != {}
        invariant todo <= polls.Keys
        invariant multiset(list) == multiset(seen)
        invariant SortedNewestFirst(list)
        invariant forall x :: x in seen ==> x.id in polls && polls[x.id] == x && x.id !in todo
        invariant forall k :: k in polls && k !in todo ==> polls[k] in seen
        decreases |todo|
      {
        var k :| k in todo;
        var p := polls[k];
        assert p !in seen;
        list := InsertByCreation(list, p);
        seen := seen + {p};
        todo := todo - {k};
      }
      assert seen == polls.Values by {
        forall v | v in polls.Values
          ensures v in seen
        {
          var k :| k in polls && polls[k] == v;
        }
      }
    }
  }
}
