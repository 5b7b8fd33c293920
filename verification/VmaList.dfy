/** mm/vma.c on its doubly linked list. Nodes are named by their place in an arena; -1 stands for NULL. */
module VmaList {
  import opened Distinct
  import opened Options
  import opened Vma

  const NULL: int := -1

  datatype Node = Node(area: Area, next: int, prev: int)

  /** The chain of next links from head is ids, and the nodes hold the areas l. */
  ghost predicate Forward(arena: seq<Node>, head: int, ids: seq<nat>, l: seq<Area>) {
    && |ids| == |l| && NoDup(ids) && head == At(ids, 0)
    && (forall i :: 0 <= i < |ids| ==> ids[i] < |arena|)
    && (forall i: nat :: i < |ids| ==> NextOk(arena, ids, l, i))
  }

  ghost predicate NextOk(arena: seq<Node>, ids: seq<nat>, l: seq<Area>, i: nat)
    requires i < |ids| == |l| && ids[i] < |arena|
  {
    arena[ids[i]].area == l[i] && arena[ids[i]].next == At(ids, i + 1)
  }

  /** The prev links run back along the chain. */
  ghost predicate Back(arena: seq<Node>, ids: seq<nat>) {
    && (forall i :: 0 <= i < |ids| ==> ids[i] < |arena|)
    && (forall i: nat :: i < |ids| ==> PrevOk(arena, ids, i))
  }

  ghost predicate PrevOk(arena: seq<Node>, ids: seq<nat>, i: nat)
    requires i < |ids| && ids[i] < |arena|
  {
    arena[ids[i]].prev == At(ids, i - 1)
  }

  // ---------- list surgery ----------

  /** The links around a node inserted at place g; whether the successor's prev is set is left open. */
  lemma InsertForward(arena: seq<Node>, arena': seq<Node>, head: int, ids: seq<nat>, l: seq<Area>, g: nat, v: Area)
    requires Forward(arena, head, ids, l) && g <= |ids| && |arena'| == |arena| + 1
    requires arena'[|arena|].area == v && arena'[|arena|].next == At(ids, g)
    requires forall u :: 0 <= u < |arena| ==>
      arena'[u].area == arena[u].area
      && arena'[u].next == if g > 0 && u == ids[g - 1] then |arena| else arena[u].next
    ensures Forward(arena', if g > 0 then head else |arena|, InsertAt(ids, g, |arena|), Insert(l, g, v))
  {
    var ids', l' := InsertAt(ids, g, |arena|), Insert(l, g, v);
    forall i: nat | i < |ids'| ensures NextOk(arena', ids', l', i) {
      if i < g {
        assert NextOk(arena, ids, l, i);
      } else if i > g {
        assert NextOk(arena, ids, l, i - 1);
      }
    }
  }

  lemma InsertBack(arena: seq<Node>, arena': seq<Node>, ids: seq<nat>, g: nat)
    requires Back(arena, ids) && NoDup(ids) && g <= |ids| && |arena'| == |arena| + 1
    requires arena'[|arena|].prev == At(ids, g - 1)
    requires forall u :: 0 <= u < |arena| ==>
      arena'[u].prev == if g < |ids| && u == ids[g] then |arena| else arena[u].prev
    ensures Back(arena', InsertAt(ids, g, |arena|))
  {
    var ids' := InsertAt(ids, g, |arena|);
    forall i: nat | i < |ids'| ensures PrevOk(arena', ids', i) {
      if i < g {
        assert PrevOk(arena, ids, i);
      } else if i > g {
        assert PrevOk(arena, ids, i - 1);
      }
    }
  }

  /** The arena with a new node between pred and succ. */
  ghost function Hook(arena: seq<Node>, pred: int, succ: int, v: Area): seq<Node>
    requires NULL <= pred < |arena| && NULL <= succ < |arena|
  {
    var grown := arena + [Node(v, succ, pred)];
    var first := if succ != NULL then grown[succ := grown[succ].(prev := |arena|)] else grown;
    if pred != NULL then first[pred := first[pred].(next := |arena|)] else first
  }

  lemma HookLinks(arena: seq<Node>, head: int, ids: seq<nat>, l: seq<Area>, g: nat, v: Area)
    requires Forward(arena, head, ids, l) && Ranged(arena) && g <= |ids|
    ensures
      var arena', ids' := Hook(arena, At(ids, g - 1), At(ids, g), v), InsertAt(ids, g, |arena|);
      && Forward(arena', if g > 0 then head else |arena|, ids', Insert(l, g, v)) && Ranged(arena')
      && (Back(arena, ids) ==> Back(arena', ids'))
  {
    var arena' := Hook(arena, At(ids, g - 1), At(ids, g), v);
    InsertForward(arena, arena', head, ids, l, g, v);
    if Back(arena, ids) {
      InsertBack(arena, arena', ids, g);
    }
  }

  lemma RemoveLinks(arena: seq<Node>, arena': seq<Node>, head: int, ids: seq<nat>, l: seq<Area>, i: nat)
    requires Forward(arena, head, ids, l) && i < |ids| && |arena'| == |arena|
    requires forall u :: 0 <= u < |arena| && u in ids && u != ids[i] ==>
      && arena'[u].area == arena[u].area
      && arena'[u].next == (if i > 0 && u == ids[i - 1] then At(ids, i + 1) else arena[u].next)
    ensures Forward(arena', if i > 0 then head else At(ids, 1), RemoveAt(ids, i), l[..i] + l[i + 1..])
  {
    var ids', l' := RemoveAt(ids, i), l[..i] + l[i + 1..];
    forall k: nat | k < |ids'| ensures NextOk(arena', ids', l', k) {
      assert NextOk(arena, ids, l, if k < i then k else k + 1);
    }
  }

  lemma RemoveBack(arena: seq<Node>, arena': seq<Node>, ids: seq<nat>, i: nat)
    requires Back(arena, ids) && NoDup(ids) && i < |ids| && |arena'| == |arena|
    requires forall u :: 0 <= u < |arena| && u != ids[i] ==>
      arena'[u].prev == if i + 1 < |ids| && u == ids[i + 1] then At(ids, i - 1) else arena[u].prev
    ensures Back(arena', RemoveAt(ids, i))
  {
    var ids' := RemoveAt(ids, i);
    forall k: nat | k < |ids'| ensures PrevOk(arena', ids', k) {
      assert PrevOk(arena, ids, if k < i then k else k + 1);
    }
  }

  // ---------- stale prev links ----------

  /** Every prev link is NULL or names a node. */
  ghost predicate Ranged(arena: seq<Node>) {
    forall u :: 0 <= u < |arena| ==> NULL <= arena[u].prev < |arena|
  }

  /** The prev link of the node at place i is one with which vma_free can take it out of the chain. */
  ghost predicate Unlinks(arena: seq<Node>, ids: seq<nat>, i: nat)
    requires i < |ids| && ids[i] < |arena|
  {
    var p := arena[ids[i]].prev;
    if i == 0 then forall j :: 1 <= j < |ids| ==> ids[j] != p else p == ids[i - 1]
  }

  /** It skips the nodes behind place j. */
  ghost predicate Skipped(arena: seq<Node>, ids: seq<nat>, i: nat, j: nat) {
    j + 1 < i < |ids| && ids[i] < |arena| && arena[ids[i]].prev == ids[j]
  }

  /** The links after vma_free has taken out the node at place i, whatever its prev link is. */
  ghost predicate TakenOut(arena: seq<Node>, arena': seq<Node>, ids: seq<nat>, i: nat)
    requires i < |ids| && ids[i] < |arena|
  {
    var p, next := arena[ids[i]].prev, At(ids, i + 1);
    && |arena'| == |arena|
    && forall u :: 0 <= u < |arena| ==>
         && arena'[u].area == arena[u].area
         && arena'[u].next == (if u == p then next else arena[u].next)
         && arena'[u].prev == (if u == next then p else arena[u].prev)
  }

  /** The nodes of path follow each other by their next links. */
  ghost predicate Path(arena: seq<Node>, path: seq<nat>) {
    && (forall t :: 0 <= t < |path| ==> path[t] < |arena|)
    && forall t: nat :: t + 1 < |path| ==> StepOk(arena, path, t)
  }

  ghost predicate StepOk(arena: seq<Node>, path: seq<nat>, t: nat)
    requires t + 1 < |path| && path[t] < |arena|
  {
    arena[path[t]].next == path[t + 1]
  }

  /** A chain starts with every path from its head. */
  lemma {:induction false} Follow(arena: seq<Node>, head: int, ids: seq<nat>, l: seq<Area>, path: seq<nat>)
    requires Forward(arena, head, ids, l) && path != [] && path[0] == head && Path(arena, path)
    ensures |path| <= |ids| && forall t :: 0 <= t < |path| ==> ids[t] == path[t] && arena[path[t]].area == l[t]
    ensures arena[path[|path| - 1]].next == At(ids, |path|)
  {
    var n := |path| - 1;
    if n > 0 {
      var front := path[..n];
      forall t: nat | t + 1 < |front| ensures StepOk(arena, front, t) {
        assert StepOk(arena, path, t);
      }
      Follow(arena, head, ids, l, front);
      assert StepOk(arena, path, n - 1);
    }
    assert NextOk(arena, ids, l, n);
  }

  /** With another prev link the chain is not that of the remaining areas. */
  lemma NotRemoved(arena: seq<Node>, arena': seq<Node>, head: int, ids: seq<nat>, l: seq<Area>, i: nat, ids': seq<nat>)
    requires Forward(arena, head, ids, l) && Ordered(l) && i < |ids| && l[i].start < l[i].end
    requires TakenOut(arena, arena', ids, i) && !Unlinks(arena, ids, i)
    ensures !Forward(arena', if i > 0 then head else At(ids, 1), ids', l[..i] + l[i + 1..])
  {
    var l' := l[..i] + l[i + 1..];
    if Forward(arena', if i > 0 then head else At(ids, 1), ids', l') {
      if i == 0 {
        FirstRemoved(arena, arena', head, ids, l, ids', l');
      } else {
        LaterRemoved(arena, arena', head, ids, l, i, ids', l');
      }
    }
  }

  lemma FirstRemoved(arena: seq<Node>, arena': seq<Node>, head: int, ids: seq<nat>, l: seq<Area>,
                     ids': seq<nat>, l': seq<Area>)
    requires Forward(arena, head, ids, l) && ids != [] && TakenOut(arena, arena', ids, 0) && !Unlinks(arena, ids, 0)
    ensures !Forward(arena', At(ids, 1), ids', l')
  {
    var j :| 1 <= j < |ids| && ids[j] == arena[ids[0]].prev;
    var path := ids[1..j + 1];
    forall t: nat | t + 1 < |path| ensures StepOk(arena', path, t) {
      assert NextOk(arena, ids, l, t + 1);
    }
    assert path[0] == ids[1] && path[|path| - 1] == ids[j];
    if Forward(arena', At(ids, 1), ids', l') {
      Follow(arena', At(ids, 1), ids', l', path);
    }
  }

  lemma LaterRemoved(arena: seq<Node>, arena': seq<Node>, head: int, ids: seq<nat>, l: seq<Area>, i: nat,
                     ids': seq<nat>, l': seq<Area>)
    requires Forward(arena, head, ids, l) && Ordered(l) && 0 < i < |ids| && l[i].start < l[i].end
    requires TakenOut(arena, arena', ids, i) && !Unlinks(arena, ids, i) && l' == l[..i] + l[i + 1..]
    ensures !Forward(arena', head, ids', l')
  {
    if j: nat :| Skipped(arena, ids, i, j) {
      SkippedRemoved(arena, arena', head, ids, l, i, j, ids', l');
    } else {
      var path := ids[..i + 1];
      forall t: nat | t + 1 < |path| ensures StepOk(arena', path, t) {
        assert !Skipped(arena, ids, i, t) && NextOk(arena, ids, l, t);
      }
      assert Apart(l, i, i + 1) && path[i] == ids[i] && NextOk(arena, ids, l, i);
      if Forward(arena', head, ids', l') {
        Follow(arena', head, ids', l', path);
      }
    }
  }

  lemma SkippedRemoved(arena: seq<Node>, arena': seq<Node>, head: int, ids: seq<nat>, l: seq<Area>, i: nat, j: nat,
                       ids': seq<nat>, l': seq<Area>)
    requires Forward(arena, head, ids, l) && Ordered(l) && 0 < i < |ids| && l[i].start < l[i].end
    requires TakenOut(arena, arena', ids, i) && Skipped(arena, ids, i, j) && l' == l[..i] + l[i + 1..]
    ensures !Forward(arena', head, ids', l')
  {
    var path := ids[..j + 1] + if i + 1 < |ids| then [ids[i + 1]] else [];
    forall t: nat | t + 1 < |path| ensures StepOk(arena', path, t) {
      assert NextOk(arena, ids, l, t);
    }
    assert Apart(l, j + 1, i) && Apart(l, i, i + 1) && AreaOk(l, j + 1) && path[j] == ids[j];
    assert i + 1 < |ids| ==> path[j + 1] == ids[i + 1] && NextOk(arena, ids, l, i + 1);
    if Forward(arena', head, ids', l') {
      Follow(arena', head, ids', l', path);
    }
  }

  /** A prev link that skips nodes takes these out as well. */
  lemma DropLinks(arena: seq<Node>, arena': seq<Node>, head: int, ids: seq<nat>, l: seq<Area>, i: nat, j: nat)
    requires Forward(arena, head, ids, l) && Skipped(arena, ids, i, j) && TakenOut(arena, arena', ids, i)
    ensures Forward(arena', head, ids[..j + 1] + ids[i + 1..], l[..j + 1] + l[i + 1..])
  {
    var ids', l' := ids[..j + 1] + ids[i + 1..], l[..j + 1] + l[i + 1..];
    forall k: nat | k < |ids'| ensures NextOk(arena', ids', l', k) {
      assert NextOk(arena, ids, l, if k <= j then k else k + i - j);
    }
  }

  lemma ResizeLinks(arena: seq<Node>, head: int, ids: seq<nat>, l: seq<Area>, i: nat, v: Area)
    requires Forward(arena, head, ids, l) && i < |ids|
    ensures
      var arena' := arena[ids[i] := arena[ids[i]].(area := v)];
      Forward(arena', head, ids, l[i := v]) && (Back(arena, ids) ==> Back(arena', ids))
  {
    var arena', l' := arena[ids[i] := arena[ids[i]].(area := v)], l[i := v];
    assert NextOk(arena, ids, l, i);
    forall k: nat | k < |ids| ensures NextOk(arena', ids, l', k) {
      assert NextOk(arena, ids, l, k);
    }
    if Back(arena, ids) {
      forall k: nat | k < |ids| ensures PrevOk(arena', ids, k) {
        assert PrevOk(arena, ids, k);
      }
    }
  }

  /** The links from head make up no list of these areas. */
  ghost predicate NoChain(arena: seq<Node>, head: int, l: seq<Area>) {
    forall ids :: !Forward(arena, head, ids, l)
  }

  lemma HeadOf(arena: seq<Node>, head: int, ids: seq<nat>, l: seq<Area>, i: nat)
    requires Forward(arena, head, ids, l) && i < |ids|
    ensures arena[ids[i]].area == l[i] && arena[ids[i]].next == At(ids, i + 1)
  {
    assert NextOk(arena, ids, l, i);
  }

  class Space {
    var arena: seq<Node>
    var head: int
    ghost var ids: seq<nat>
    ghost var list: seq<Area>

    ghost predicate Linked()
      reads this
    {
      Forward(arena, head, ids, list) && Ranged(arena)
    }

    ghost predicate Valid()
      reads this
    {
      Linked() && Back(arena, ids) && Ordered(list)
    }

    /** vma_boot: one empty area at the lower bound. */
    constructor (flags: nat)
      ensures Valid() && list == [Area(VMA_MIN, VMA_MIN, flags)]
    {
      arena, head := [Node(Area(VMA_MIN, VMA_MIN, flags), NULL, NULL)], 0;
      ids, list := [0], [Area(VMA_MIN, VMA_MIN, flags)];
      new;
      assert NextOk(arena, ids, list, 0) && PrevOk(arena, ids, 0);
    }

    /** A new node between pred and succ. */
    method InsertNode(pred: int, succ: int, v: Area, ghost g: nat)
      requires Linked() && g <= |ids| && pred == At(ids, g - 1) && succ == At(ids, g)
      modifies this
      ensures Linked() && list == Insert(old(list), g, v) && (old(Back(arena, ids)) ==> Back(arena, ids))
    {
      var added := |arena|;
      ghost var was := arena;
      arena := arena + [Node(v, succ, pred)];
      if succ != NULL {
        arena := arena[succ := arena[succ].(prev := added)];
      }
      if pred != NULL {
        arena := arena[pred := arena[pred].(next := added)];
      } else {
        head := added;
      }
      assert arena == Hook(was, pred, succ, v);
      HookLinks(was, old(head), ids, list, g, v);
      ids, list := InsertAt(ids, g, added), Insert(list, g, v);
    }

    method Resize(u: int, v: Area, ghost i: nat)
      requires Linked() && i < |ids| && u == ids[i]
      modifies this`arena, this`list
      ensures Linked() && list == old(list)[i := v] && (old(Back(arena, ids)) ==> Back(arena, ids))
      ensures |arena| == |old(arena)|
    {
      ResizeLinks(arena, head, ids, list, i, v);
      arena := arena[u := arena[u].(area := v)];
      list := list[i := v];
    }

    /** vma_alloc; node says whether kmalloc would give a node. */
    method AllocRange(request: nat, flags: nat, node: bool) returns (start: nat)
      requires Linked()
      modifies this
      ensures Linked() && (list, start) == Alloc(old(list), request, flags, node)
      ensures old(Back(arena, ids)) ==> Back(arena, ids)
    {
      var size := PageCeil(request);
      var pred, succ, gap, found := FindGap(size);
      ghost var g := FirstGap(list, 0, size);
      if !found {
        return 0;
      }
      start := gap;
      if g > 0 {
        HeadOf(arena, head, ids, list, g - 1);
      }
      if pred != NULL && arena[pred].area.flags == flags {
        Resize(pred, arena[pred].area.(end := Sum(start, size)), g - 1);
      } else if node {
        InsertNode(pred, succ, Area(start, Sum(start, size), flags), g);
      } else {
        start := 0;
      }
    }

    /** The search loop of vma_alloc. */
    method FindGap(size: nat) returns (pred: int, succ: int, start: nat, found: bool)
      requires Linked()
      ensures found == (FirstGap(list, 0, size) <= |list|)
      ensures found ==>
        var g := FirstGap(list, 0, size);
        pred == At(ids, g - 1) && succ == At(ids, g) && start == GapStart(list, g)
    {
      pred, succ, start, found := NULL, head, 0, false;
      ghost var g := 0;
      while true
        invariant 0 <= g <= |list| && pred == At(ids, g - 1) && succ == At(ids, g)
        invariant FirstGap(list, 0, size) == FirstGap(list, g, size)
        decreases |list| - g
      {
        if g > 0 {
          HeadOf(arena, head, ids, list, g - 1);
        }
        if g < |list| {
          HeadOf(arena, head, ids, list, g);
        }
        start := if pred != NULL then arena[pred].area.end else VMA_MIN;
        var end := if succ != NULL then arena[succ].area.start else VMA_MAX;
        if Sum(start, size) < end && start >= VMA_MIN && Sum(start, size) < VMA_MAX {
          found := true;
          return;
        }
        pred := succ;
        succ := if pred != NULL then arena[pred].next else NULL;
        if pred == NULL && succ == NULL {
          return;
        }
        g := g + 1;
      }
    }

    /** vma_add. */
    method AddRange(v: Area, node: bool) returns (e: Option<Error>)
      requires Linked()
      modifies this
      ensures Linked() && (list, e) == Add(old(list), v, node)
      ensures old(Back(arena, ids)) ==> Back(arena, ids)
    {
      if v.start >= v.end {
        return Some(EINVAL);
      }
      var pred, succ := FindRoom(v.start, v.end);
      ghost var g := FirstRoom(list, 0, v.start, v.end);
      if head != NULL && pred == NULL && succ == NULL {
        return Some(EINVAL);
      }
      if g > 0 {
        HeadOf(arena, head, ids, list, g - 1);
      }
      if pred != NULL && arena[pred].area.end == v.start && arena[pred].area.flags == v.flags {
        Resize(pred, arena[pred].area.(end := v.end), g - 1);
      } else if node {
        InsertNode(pred, succ, v, g);
      } else {
        return Some(ENOMEM);
      }
      e := None;
    }

    /** The search loop of vma_add; both results are NULL when the loop runs off the list. */
    method FindRoom(start: nat, end: nat) returns (pred: int, succ: int)
      requires Linked()
      ensures
        var g := FirstRoom(list, 0, start, end);
        pred == At(ids, g - 1) && succ == At(ids, g)
      ensures FirstRoom(list, 0, start, end) <= |list| <==> head == NULL || pred != NULL || succ != NULL
    {
      pred, succ := NULL, head;
      ghost var g := 0;
      while pred != NULL || succ != NULL
        invariant 0 <= g <= |list| + 1 && pred == At(ids, g - 1) && succ == At(ids, g)
        invariant FirstRoom(list, 0, start, end) == FirstRoom(list, g, start, end)
        invariant g == |list| + 1 ==> list != []
        decreases |list| + 1 - g
      {
        if g > 0 {
          HeadOf(arena, head, ids, list, g - 1);
        }
        if g < |list| {
          HeadOf(arena, head, ids, list, g);
        }
        if (pred == NULL || arena[pred].area.end <= start) && (succ == NULL || arena[succ].area.start >= end) {
          return;
        }
        pred := succ;
        succ := if succ != NULL then arena[succ].next else NULL;
        g := g + 1;
      }
    }

    /**
     vma_free. It does what it should exactly when it takes out no area or one whose prev link serves;
     a prev link that skips areas takes these out as well. The prev links are consistent afterwards
     unless an area was split that was not the last one.
     */
    method FreeRange(start: nat, end: nat, node: bool) returns (e: Option<Error>)
      requires Linked()
      modifies this
      ensures e == Free(old(list), start, end, node).1
      ensures old(Serves(start, end)) ==> Linked() && list == Free(old(list), start, end, node).0
      ensures Ordered(old(list)) && !old(Serves(start, end)) ==>
        NoChain(arena, head, Free(old(list), start, end, node).0)
      ensures forall j: nat ::
        old(Whole(start, end)) && Skipped(old(arena), old(ids), FirstContaining(old(list), 0, start, end), j) ==>
        Linked() && list == old(list)[..j + 1] + old(list)[FirstContaining(old(list), 0, start, end) + 1..]
      ensures old(Back(arena, ids)) ==>
        old(Serves(start, end)) && (Back(arena, ids) <==> !SplitsInside(old(list), start, end, node))
      ensures
        var i := FirstContaining(old(list), 0, start, end);
        old(Back(arena, ids)) && SplitsInside(old(list), start, end, node) ==> Skipped(arena, ids, i + 2, i)
    {
      if start >= end {
        return Some(EINVAL);
      }
      var vma := FindArea(start, end);
      if vma == NULL {
        return Some(EINVAL);
      }
      ghost var i := FirstContaining(list, 0, start, end);
      HeadOf(arena, head, ids, list, i);
      var v := arena[vma].area;
      if start == v.start && end == v.end {
        Unlink(vma, i);
      } else if start == v.start {
        Resize(vma, v.(start := end), i);
      } else if end == v.end {
        Resize(vma, v.(end := start), i);
      } else {
        if !node {
          return Some(ENOMEM);
        }
        SplitNode(vma, start, end, i);
      }
      e := None;
    }

    method FindArea(start: nat, end: nat) returns (vma: int)
      requires Linked()
      ensures vma == At(ids, FirstContaining(list, 0, start, end))
    {
      vma := head;
      ghost var i := 0;
      while vma != NULL
        invariant 0 <= i <= |list| && vma == At(ids, i)
        invariant FirstContaining(list, 0, start, end) == FirstContaining(list, i, start, end)
        decreases |list| - i
      {
        HeadOf(arena, head, ids, list, i);
        if start >= arena[vma].area.start && end <= arena[vma].area.end {
          break;
        }
        vma, i := arena[vma].next, i + 1;
      }
    }

    /** The branch that takes out a whole area. */
    method Unlink(vma: int, ghost i: nat)
      requires Linked() && i < |ids| && vma == ids[i] && list[i].start < list[i].end
      modifies this
      ensures old(Unlinks(arena, ids, i)) ==> Linked() && list == old(list)[..i] + old(list)[i + 1..]
      ensures Ordered(old(list)) && !old(Unlinks(arena, ids, i)) ==>
        NoChain(arena, head, old(list)[..i] + old(list)[i + 1..])
      ensures forall j: nat :: Skipped(old(arena), old(ids), i, j) ==>
        Linked() && list == old(list)[..j + 1] + old(list)[i + 1..]
      ensures old(Back(arena, ids)) ==> old(Unlinks(arena, ids, i)) && Back(arena, ids)
    {
      HeadOf(arena, head, ids, list, i);
      ghost var was, first := arena, head;
      var next, prev := arena[vma].next, arena[vma].prev;
      if vma == head {
        head := next;
      }
      if prev != NULL {
        arena := arena[prev := arena[prev].(next := next)];
      }
      if next != NULL {
        arena := arena[next := arena[next].(prev := prev)];
      }
      Relink(was, first, i);
    }

    /** The chain found after a whole area was taken out. */
    ghost method Relink(was: seq<Node>, first: int, i: nat)
      requires Forward(was, first, ids, list) && Ranged(arena) && i < |ids| && list[i].start < list[i].end
      requires TakenOut(was, arena, ids, i) && head == if i > 0 then first else At(ids, 1)
      modifies this`ids, this`list
      ensures Unlinks(was, old(ids), i) ==> Linked() && list == old(list)[..i] + old(list)[i + 1..]
      ensures Ordered(old(list)) && !Unlinks(was, old(ids), i) ==>
        NoChain(arena, head, old(list)[..i] + old(list)[i + 1..])
      ensures forall j: nat :: Skipped(was, old(ids), i, j) ==>
        Linked() && list == old(list)[..j + 1] + old(list)[i + 1..]
      ensures Back(was, old(ids)) ==> Unlinks(was, old(ids), i) && Back(arena, ids)
    {
      if Back(was, ids) {
        assert PrevOk(was, ids, i);
        RemoveBack(was, arena, ids, i);
      }
      if Unlinks(was, ids, i) {
        RemoveLinks(was, arena, first, ids, list, i);
        ids, list := RemoveAt(ids, i), list[..i] + list[i + 1..];
      } else {
        if Ordered(list) {
          ghost var left := list[..i] + list[i + 1..];
          forall chain: seq<nat> ensures !Forward(arena, head, chain, left) {
            NotRemoved(was, arena, first, ids, list, i, chain);
          }
        }
        if j: nat :| Skipped(was, ids, i, j) {
          DropLinks(was, arena, first, ids, list, i, j);
          ids, list := ids[..j + 1] + ids[i + 1..], list[..j + 1] + list[i + 1..];
        }
      }
    }

    /** vma_free will take out a whole area. */
    ghost predicate Whole(start: nat, end: nat)
      reads this
    {
      var i := FirstContaining(list, 0, start, end);
      start < end && i < |list| && start == list[i].start && end == list[i].end
    }

    /** If it does, the prev link of the area serves. */
    ghost predicate Serves(start: nat, end: nat)
      requires Linked()
      reads this
    {
      Whole(start, end) ==> Unlinks(arena, ids, FirstContaining(list, 0, start, end))
    }

    /** The branch that splits an area: the successor's prev link is not touched. */
    method SplitNode(vma: int, start: nat, end: nat, ghost i: nat)
      requires Linked() && i < |ids| && vma == ids[i]
      modifies this
      ensures
        var v := old(list)[i];
        list == Insert(old(list)[i := v.(end := start)], i + 1, v.(start := end))
      ensures Linked() && (old(Back(arena, ids)) ==> (Back(arena, ids) <==> i == |old(ids)| - 1))
      ensures old(Back(arena, ids)) && i < |old(ids)| - 1 ==> Skipped(arena, ids, i + 2, i)
    {
      HeadOf(arena, head, ids, list, i);
      var v, added := arena[vma].area, |arena|;
      Resize(vma, v.(end := start), i);
      HeadOf(arena, head, ids, list, i);
      ghost var was := arena;
      arena := arena + [Node(v.(start := end), arena[vma].next, vma)];
      arena := arena[vma := arena[vma].(next := added)];
      InsertForward(was, arena, head, ids, list, i + 1, v.(start := end));
      if Back(was, ids) {
        SplitBack(was, arena, ids, i);
      }
      ids, list := InsertAt(ids, i + 1, added), Insert(list, i + 1, v.(start := end));
    }
  }

  lemma SplitBack(arena: seq<Node>, arena': seq<Node>, ids: seq<nat>, i: nat)
    requires Back(arena, ids) && NoDup(ids) && i < |ids| && |arena'| == |arena| + 1
    requires arena'[|arena|].prev == ids[i]
    requires forall u :: 0 <= u < |arena| ==> arena'[u].prev == arena[u].prev
    ensures Back(arena', InsertAt(ids, i + 1, |arena|)) <==> i == |ids| - 1
    ensures i < |ids| - 1 ==> Skipped(arena', InsertAt(ids, i + 1, |arena|), i + 2, i)
  {
    var ids' := InsertAt(ids, i + 1, |arena|);
    if i == |ids| - 1 {
      InsertBack(arena, arena', ids, i + 1);
    } else {
      assert PrevOk(arena, ids, i + 1) && ids'[i + 2] == ids[i + 1];
      assert !PrevOk(arena', ids', i + 2);
    }
  }

  function Boot(): seq<Area> {
    [Area(VMA_MIN, VMA_MIN, 0)]
  }

  function Two(): seq<Area> {
    Boot() + [Area(0x100000, 0x200000, 1), Area(0x300000, 0x400000, 2)]
  }

  function Halved(): seq<Area> {
    Boot() + [Area(0x100000, 0x140000, 1), Area(0x180000, 0x200000, 1), Area(0x300000, 0x400000, 2)]
  }

  lemma TwoAdded()
    ensures
      var (l, e) := Add(Boot(), Area(0x100000, 0x200000, 1), true);
      Ordered(Two()) && e == None && Add(l, Area(0x300000, 0x400000, 2), true) == (Two(), None)
  {
    var l := Boot() + [Area(0x100000, 0x200000, 1)];
    assert !AddTest(Boot(), 0, 0x100000, 0x200000) && AddTest(Boot(), 1, 0x100000, 0x200000);
    assert Add(Boot(), Area(0x100000, 0x200000, 1), true).0 == l;
    assert !AddTest(l, 0, 0x300000, 0x400000) && !AddTest(l, 1, 0x300000, 0x400000);
    assert AddTest(l, 2, 0x300000, 0x400000);
    assert FirstRoom(l, 0, 0x300000, 0x400000) == FirstRoom(l, 1, 0x300000, 0x400000);
    assert Add(l, Area(0x300000, 0x400000, 2), true).0 == Two();
  }

  lemma TwoHalved()
    ensures SplitsInside(Two(), 0x140000, 0x180000, true) && FirstContaining(Two(), 0, 0x140000, 0x180000) == 1
    ensures Free(Two(), 0x140000, 0x180000, true) == (Halved(), None) && Ordered(Halved())
  {
    assert !Contains(Two()[0], 0x140000, 0x180000) && Contains(Two()[1], 0x140000, 0x180000);
    assert Free(Two(), 0x140000, 0x180000, true).0 == Halved();
  }

  lemma LastContaining()
    ensures FirstContaining(Halved(), 0, 0x300000, 0x400000) == 3
    ensures Free(Halved(), 0x300000, 0x400000, true) == (Halved()[..3], None)
  {
    var l := Halved();
    assert !Contains(l[0], 0x300000, 0x400000) && !Contains(l[1], 0x300000, 0x400000);
    assert !Contains(l[2], 0x300000, 0x400000) && Contains(l[3], 0x300000, 0x400000);
    assert FirstContaining(l, 0, 0x300000, 0x400000) == FirstContaining(l, 2, 0x300000, 0x400000) == 3;
    assert l[..3] + l[4..] == l[..3];
  }

  /** A split leaves the prev link of the next area stale. */
  method SplitLeavesStale() returns (s: Space)
    ensures fresh(s) && s.Linked() && s.list == Halved() && !Back(s.arena, s.ids) && Skipped(s.arena, s.ids, 3, 1)
  {
    TwoAdded();
    TwoHalved();
    s := new Space(0);
    var e1 := s.AddRange(Area(0x100000, 0x200000, 1), true);
    var e2 := s.AddRange(Area(0x300000, 0x400000, 2), true);
    var e3 := s.FreeRange(0x140000, 0x180000, true);
  }

  /** Freeing the next area then also drops the second half of the split one, which nobody freed. */
  method FreeDropsHalf() returns (s: Space)
    ensures fresh(s) && s.Linked() && s.list == Halved()[..2]
    ensures Free(Halved(), 0x300000, 0x400000, true).0 == Halved()[..3]
  {
    LastContaining();
    TwoHalved();
    s := SplitLeavesStale();
    var e := s.FreeRange(0x300000, 0x400000, true);
    assert Halved()[..2] + Halved()[4..] == Halved()[..2];
  }
}
