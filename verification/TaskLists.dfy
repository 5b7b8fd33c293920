/**
 The intrusive lists of include/hermit/tasks_types.h. Every task has one next/prev pair, whichever
 list it is on; a list is its first and last task. Tasks are named by their index in the task table.
 */
module TaskLists {
  import opened Distinct
  import opened Scheduler

  datatype Link = Link(next: int, prev: int)

  datatype TaskList = TaskList(first: int, last: int)

  const UNLINKED := Link(NONE, NONE)

  /** l is the doubly linked list of exactly ids, in this order. */
  ghost predicate Linked(links: seq<Link>, l: TaskList, ids: seq<nat>) {
    && NoDup(ids)
    && (forall i :: 0 <= i < |ids| ==> ids[i] < |links|)
    && l == TaskList(At(ids, 0), At(ids, |ids| - 1))
    && (forall i: nat :: i < |ids| ==> LinkOk(links, ids, i))
  }

  ghost predicate LinkOk(links: seq<Link>, ids: seq<nat>, i: nat)
    requires i < |ids| && ids[i] < |links|
  {
    links[ids[i]] == Link(At(ids, i + 1), At(ids, i - 1))
  }

  /** links' agrees with links outside the tasks of ids and t. */
  ghost predicate SameOutside(links: seq<Link>, links': seq<Link>, ids: seq<nat>, t: nat) {
    |links'| == |links| && forall u :: 0 <= u < |links| && u !in ids && u != t ==> links'[u] == links[u]
  }

  /** The task table's link fields, with the list operations as the kernel performs them on it. */
  class LinkTable {
    var links: seq<Link>

    constructor (n: nat)
      ensures |links| == n && forall i :: 0 <= i < n ==> links[i] == UNLINKED
    {
      links := seq(n, _ => UNLINKED);
    }

    method SetNext(t: int, next: int)
      requires 0 <= t < |links|
      modifies this
      ensures links == old(links)[t := old(links)[t].(next := next)]
    {
      links := links[t := links[t].(next := next)];
    }

    method SetPrev(t: int, prev: int)
      requires 0 <= t < |links|
      modifies this
      ensures links == old(links)[t := old(links)[t].(prev := prev)]
    {
      links := links[t := links[t].(prev := prev)];
    }

    /** task_list_push_back. */
    method PushBack(l: TaskList, t: nat, ghost ids: seq<nat>) returns (l': TaskList)
      requires Linked(links, l, ids) && t < |links| && t !in ids
      modifies this
      ensures Linked(links, l', ids + [t]) && SameOutside(old(links), links, ids, t)
    {
      if l.last != NONE {
        SetPrev(t, l.last);
        SetNext(t, NONE);
        SetNext(l.last, t);
        l' := l.(last := t);
      } else {
        l' := TaskList(t, t);
        links := links[t := UNLINKED];
      }
      Inserted(old(links), links, l, l', ids, |ids|, t);
      assert InsertAt(ids, |ids|, t) == ids + [t];
    }

    /** task_list_pop_front; the null-list and empty-list exits are unreachable here. */
    method PopFront(l: TaskList, ghost ids: seq<nat>) returns (l': TaskList, t: nat)
      requires Linked(links, l, ids) && ids != []
      modifies this
      ensures t == ids[0] && Linked(links, l', ids[1..]) && SameOutside(old(links), links, ids, t)
      ensures links[t] == UNLINKED
    {
      t := l.first;
      assert LinkOk(links, ids, 0);
      l' := l.(first := links[l.first].next);
      if l'.first != NONE {
        SetPrev(l'.first, NONE);
      } else {
        l' := l'.(last := NONE);
      }
      links := links[t := UNLINKED];
      ghost var ids' := ids[1..];
      forall i: nat | i < |ids'| ensures LinkOk(links, ids', i) {
        assert LinkOk(old(links), ids, i + 1);
      }
    }

    /** task_list_remove_task for the task at place k. */
    method Remove(l: TaskList, t: nat, ghost ids: seq<nat>, ghost k: nat) returns (l': TaskList)
      requires Linked(links, l, ids) && k < |ids| && ids[k] == t
      modifies this
      ensures Linked(links, l', RemoveAt(ids, k)) && SameOutside(old(links), links, ids, t)
    {
      assert LinkOk(links, ids, k);
      l' := RemoveAny(l, t);
      Removed(old(links), links, l, l', ids, k);
    }

    /** task_list_remove_task as written: it trusts the links of t, so an unlinked task changes nothing. */
    method RemoveAny(l: TaskList, t: nat) returns (l': TaskList)
      requires t < |links| && -1 <= links[t].next < |links| && -1 <= links[t].prev < |links|
      requires links[t].next != t && links[t].prev != t && (links[t].next != links[t].prev || links[t].next == NONE)
      modifies this
      ensures |links| == |old(links)| && links[t] == old(links)[t]
      ensures forall u :: 0 <= u < |links| ==>
        links[u] == Link(if u == old(links)[t].prev then old(links)[t].next else old(links)[u].next,
                         if u == old(links)[t].next then old(links)[t].prev else old(links)[u].prev)
      ensures l' == TaskList(if l.first == t then links[t].next else l.first,
                             if l.last == t then links[t].prev else l.last)
    {
      l' := l;
      if links[t].prev != NONE {
        SetNext(links[t].prev, links[t].next);
      }
      if links[t].next != NONE {
        SetPrev(links[t].next, links[t].prev);
      }
      if l'.last == t {
        l' := l'.(last := links[t].prev);
      }
      if l'.first == t {
        l' := l'.(first := links[t].next);
      }
    }

    /** The link updates of timer_queue_push: t goes before tmp, or to the back when tmp is null. */
    method InsertBefore(l: TaskList, t: nat, tmp: int, ghost ids: seq<nat>, ghost k: nat) returns (l': TaskList)
      requires Linked(links, l, ids) && t < |links| && t !in ids
      requires k <= |ids| && tmp == At(ids, k)
      modifies this
      ensures Linked(links, l', InsertAt(ids, k, t)) && SameOutside(old(links), links, ids, t)
    {
      if k < |ids| {
        assert LinkOk(links, ids, k);
      }
      if l.first == NONE {
        l' := TaskList(t, t);
        links := links[t := UNLINKED];
      } else if tmp == NONE {
        SetNext(t, NONE);
        SetPrev(t, l.last);
        SetNext(l.last, t);
        l' := l.(last := t);
      } else {
        SetNext(t, tmp);
        SetPrev(t, links[tmp].prev);
        SetPrev(tmp, t);
        if links[t].prev != NONE {
          SetNext(links[t].prev, t);
        }
        l' := if l.first == tmp then l.(first := t) else l;
      }
      Inserted(old(links), links, l, l', ids, k, t);
    }
  }

  /** The links around place k after its task was unhooked. */
  lemma Removed(links: seq<Link>, links': seq<Link>, l: TaskList, l': TaskList, ids: seq<nat>, k: nat)
    requires Linked(links, l, ids) && k < |ids| && |links'| == |links|
    requires forall u :: 0 <= u < |links| ==>
      links'[u] == Link(if u == links[ids[k]].prev then links[ids[k]].next else links[u].next,
                        if u == links[ids[k]].next then links[ids[k]].prev else links[u].prev)
    requires l' == TaskList(if l.first == ids[k] then links[ids[k]].next else l.first,
                            if l.last == ids[k] then links[ids[k]].prev else l.last)
    ensures Linked(links', l', RemoveAt(ids, k))
  {
    var ids' := RemoveAt(ids, k);
    RemoveDistinct(ids, k);
    assert LinkOk(links, ids, k);
    forall i: nat | i < |ids'| ensures LinkOk(links', ids', i) {
      assert LinkOk(links, ids, if i < k then i else i + 1);
    }
  }

  /** links' is links with t hooked in at place k of ids. */
  ghost predicate HookedIn(links: seq<Link>, links': seq<Link>, ids: seq<nat>, k: nat, t: nat) {
    && |links'| == |links| && t < |links|
    && links'[t] == Link(At(ids, k), At(ids, k - 1))
    && forall u :: 0 <= u < |links| && u != t ==>
         links'[u] == Link(if u == At(ids, k - 1) then t else links[u].next,
                           if u == At(ids, k) then t else links[u].prev)
  }

  lemma HookedAt(links: seq<Link>, links': seq<Link>, l: TaskList, ids: seq<nat>, k: nat, t: nat, i: nat)
    requires Linked(links, l, ids) && k <= |ids| && t !in ids && HookedIn(links, links', ids, k, t) && i <= |ids|
    ensures InsertAt(ids, k, t)[i] < |links'| && LinkOk(links', InsertAt(ids, k, t), i)
  {
    if i < k {
      assert LinkOk(links, ids, i);
      assert ids[i] == At(ids, k - 1) <==> i == k - 1;
    } else if i > k {
      assert LinkOk(links, ids, i - 1);
      assert ids[i - 1] == At(ids, k) <==> i - 1 == k;
    }
  }

  lemma Inserted(links: seq<Link>, links': seq<Link>, l: TaskList, l': TaskList, ids: seq<nat>, k: nat, t: nat)
    requires Linked(links, l, ids) && k <= |ids| && t !in ids && HookedIn(links, links', ids, k, t)
    requires l' == TaskList(if k == 0 then t else l.first, if k == |ids| then t else l.last)
    ensures Linked(links', l', InsertAt(ids, k, t))
  {
    var ids' := InsertAt(ids, k, t);
    InsertDistinct(ids, k, t);
    forall i | 0 <= i < |ids'| ensures ids'[i] < |links'| {
      HookedAt(links, links', l, ids, k, t, i);
    }
    forall i: nat | i < |ids'| ensures LinkOk(links', ids', i) {
      HookedAt(links, links', l, ids, k, t, i);
    }
  }

  lemma LinkedFrame(links: seq<Link>, links': seq<Link>, l: TaskList, ids: seq<nat>)
    requires Linked(links, l, ids) && |links'| == |links|
    requires forall i :: 0 <= i < |ids| ==> links'[ids[i]] == links[ids[i]]
    ensures Linked(links', l, ids)
  {
    forall i: nat | i < |ids| ensures LinkOk(links', ids, i) {
      assert LinkOk(links, ids, i);
    }
  }
}
