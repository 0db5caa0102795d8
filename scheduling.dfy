/** The server scheduler as the plugin sees it: repeating timers known by
    integer handles, started and cancelled. A component keeps one timer per
    key (player or poll) in a map from keys to handles; these are the facts
    about such maps that every component needs. */
module Scheduling {
  import opened Common

  /** The timer handle filed under a key, as a set of at most one handle. */
  function TaskOf(tasks: map<Uuid, nat>, p: Uuid): set<nat> {
    if p in tasks then {tasks[p]} else {}
  }

  /** No two keys share a handle. */
  ghost predicate Injective(tasks: map<Uuid, nat>) {
    forall p, q :: p in tasks && q in tasks && p != q ==> tasks[p] != tasks[q]
  }

  /** Dropping a key from an injective task map drops exactly that
      key's handle from its values. */
  lemma ValuesRemove(tasks: map<Uuid, nat>, p: Uuid)
    requires Injective(tasks)
    ensures (tasks - {p}).Values == tasks.Values - TaskOf(tasks, p)
  {
    var rest := tasks - {p};
    forall h | h in tasks.Values - TaskOf(tasks, p)
      ensures h in rest.Values
    {
      var q :| q in tasks && tasks[q] == h;
      assert q != p;
      assert rest[q] == h;
    }
  }

  /** Filing a new handle under a key without one adds it to the
      values. */
  lemma ValuesAdd(tasks: map<Uuid, nat>, p: Uuid, h: nat)
    requires p !in tasks
    ensures tasks[p := h].Values == tasks.Values + {h}
  {
    var m := tasks[p := h];
    forall x | x in tasks.Values
      ensures x in m.Values
    {
      var q :| q in tasks && tasks[q] == x;
      assert m[q] == x;
    }
    assert m[p] == h;
  }

  /** Handles are issued from a counter: when every filed handle is below
      the counter, so is every handle among the values. */
  lemma ValuesBelow(tasks: map<Uuid, nat>, next: nat)
    requires forall k :: k in tasks ==> tasks[k] < next
    ensures forall h :: h in tasks.Values ==> h < next
  {
    forall h | h in tasks.Values
      ensures h < next
    {
      var k :| k in tasks && tasks[k] == h;
    }
  }

  /** Filing the counter's handle under a key, in place of the key's
      earlier handle if it has one, keeps the map injective and every
      handle below the advanced counter; the earlier handle leaves the
      values and the new one joins them. */
  lemma FileNext(tasks: map<Uuid, nat>, p: Uuid, next: nat, filed: map<Uuid, nat>)
    requires Injective(tasks)
    requires forall k :: k in tasks ==> tasks[k] < next
    requires filed == tasks[p := next]
    ensures Injective(filed)
    ensures forall k :: k in filed ==> filed[k] < next + 1
    ensures filed.Values == (tasks.Values - TaskOf(tasks, p)) + {next}
    ensures next !in tasks.Values
  {
    ValuesRemove(tasks, p);
    ValuesAdd(tasks - {p}, p, next);
    assert (tasks - {p})[p := next] == filed;
    ValuesBelow(tasks, next);
  }
}
