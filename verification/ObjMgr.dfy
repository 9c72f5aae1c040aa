/** obj_mgr.h: a pool of intrusive nodes on two rings, live and free. */
module ObjMgr {
  import opened KernelList

  const LIST_PRE_ALLOC_SIZE: nat := 15

  // ---------- the growth policy, on counters alone ----------

  /** `size_`, `size_free_` and the number of nodes ever allocated. */
  datatype Pool = Pool(size: nat, free: nat, made: nat)

  function Resized(p: Pool, n: nat): Pool {
    if n > p.size + p.free then
      var num := n - (p.size + p.free);
      p.(free := p.free + num, made := p.made + num)
    else if n < p.size || n == p.size + p.free then
      p
    else
      p.(free := n - p.size)
  }

  function AutoFixed(p: Pool): Pool {
    if p.free == 0 then
      Resized(p, (p.size + p.free) * 2)
    else if p.free > p.size * 2 && p.free > LIST_PRE_ALLOC_SIZE then
      Resized(p, p.size + p.free - (p.free - LIST_PRE_ALLOC_SIZE))
    else
      p
  }

  function AfterInsert(p: Pool): Pool {
    if p.free > 0 then
      p.(size := p.size + 1, free := p.free - 1)
    else
      var q := AutoFixed(p);
      q.(size := q.size + 1, made := q.made + 1)
  }

  function AfterRemove(p: Pool): Pool
    requires p.size > 0
  {
    AutoFixed(p.(size := p.size - 1, free := p.free + 1))
  }

  /** Each operation may take two nodes from the allocator, on average: what it
      takes beyond that was saved up as imbalance between the two rings. */
  function Potential(p: Pool): nat {
    if p.size < p.free then p.free - p.size else p.size - p.free
  }

  function Spent(p: Pool): nat {
    p.made + Potential(p)
  }

  lemma OperationCost(p: Pool)
    ensures Spent(AfterInsert(p)) <= Spent(p) + 2
    ensures p.size > 0 ==> Spent(AfterRemove(p)) <= Spent(p) + 2
  {
  }

  /** A run of inserts (true) and removes (false). */
  ghost predicate Playable(size: nat, run: seq<bool>)
    decreases |run|
  {
    run == [] ||
    if run[0] then Playable(size + 1, run[1..]) else size > 0 && Playable(size - 1, run[1..])
  }

  function Played(p: Pool, run: seq<bool>): Pool
    requires Playable(p.size, run)
    decreases |run|
  {
    if run == [] then p
    else if run[0] then Played(AfterInsert(p), run[1..])
    else Played(AfterRemove(p), run[1..])
  }

  lemma {:induction false} RunCost(p: Pool, run: seq<bool>)
    requires Playable(p.size, run)
    ensures Spent(Played(p, run)) <= Spent(p) + 2 * |run|
    decreases |run|
  {
    if run != [] {
      OperationCost(p);
      RunCost(if run[0] then AfterInsert(p) else AfterRemove(p), run[1..]);
    }
  }

  /** However inserts and removes are mixed on a pool built with `n` nodes, no
      more than `2 * (n + operations)` nodes are ever allocated. */
  lemma AllocationBound(n: nat, run: seq<bool>)
    requires Playable(0, run)
    ensures Played(Pool(0, n, n), run).made <= 2 * (n + |run|)
  {
    RunCost(Pool(0, n, n), run);
  }

  // ---------- what whole runs do to the objects ----------

  datatype Op = Insert(e: ObjEntry) | Remove(e: ObjEntry) | Clear | Resize(n: nat) | Shrink

  /** The objects of `s` that are not dropped, in order. */
  ghost function Kept(s: seq<ObjEntry>, drop: ObjEntry -> bool): seq<ObjEntry> {
    if s == [] then []
    else
      var last := s[|s| - 1];
      Kept(s[..|s| - 1], drop) + if drop(last) then [] else [last]
  }

  ghost predicate Legal(s: seq<ObjEntry>, op: Op) {
    match op
    case Insert(e) => e !in s
    case Remove(e) => e in s
    case _ => true
  }

  ghost function Outcome(s: seq<ObjEntry>, op: Op): seq<ObjEntry> {
    match op
    case Insert(e) => s + [e]
    case Remove(e) => Kept(s, x => x == e)
    case Clear => []
    case _ => s
  }

  ghost predicate LegalRun(s: seq<ObjEntry>, script: seq<Op>)
    decreases |script|
  {
    script == [] || (Legal(s, script[0]) && LegalRun(Outcome(s, script[0]), script[1..]))
  }

  ghost function RunOutcome(s: seq<ObjEntry>, script: seq<Op>): seq<ObjEntry>
    decreases |script|
  {
    if script == [] then s else RunOutcome(Outcome(s, script[0]), script[1..])
  }

  /** Dropping one object of a list without repeats deletes its position. */
  lemma {:induction false} KeptAllButOne(s: seq<ObjEntry>, k: nat)
    requires k < |s| && forall i, j :: 0 <= i < j < |s| ==> s[i] != s[j]
    ensures Kept(s, x => x == s[k]) == Without(s, k)
  {
    var e := s[k];
    var rest := s[..|s| - 1];
    if k == |s| - 1 {
      KeptAll(rest, x => x == e);
      assert Without(s, k) == rest;
    } else {
      KeptAllButOne(rest, k);
      assert Without(s, k) == Without(rest, k) + [s[|s| - 1]];
    }
  }

  lemma KeptStep(visited: seq<ObjEntry>, kept: seq<ObjEntry>, rest: seq<ObjEntry>, drop: ObjEntry -> bool)
    requires rest != [] && kept == Kept(visited, drop)
    ensures var e := rest[0];
            var kept' := if drop(e) then kept else kept + [e];
            && visited + rest == visited + [e] + rest[1..]
            && kept' == Kept(visited + [e], drop)
            && kept' + rest[1..] == if drop(e) then Without(kept + rest, |kept|) else kept + rest
  {
    var e := rest[0];
    assert rest == [e] + rest[1..];
    assert visited + ([e] + rest[1..]) == visited + [e] + rest[1..];
    assert (visited + [e])[..|visited|] == visited;
    assert Without(kept + rest, |kept|) == kept + rest[1..];
    assert kept + [e] + rest[1..] == kept + ([e] + rest[1..]);
  }

  lemma {:induction false} KeptAll(s: seq<ObjEntry>, drop: ObjEntry -> bool)
    requires forall x :: x in s ==> !drop(x)
    ensures Kept(s, drop) == s
  {
    if s != [] {
      var front, last := s[..|s| - 1], s[|s| - 1];
      KeptAll(front, drop);
      assert last in s;
      assert Kept(s, drop) == front + [last] == s;
    }
  }

  lemma {:induction false} KeptNone(s: seq<ObjEntry>, drop: ObjEntry -> bool)
    requires forall x :: x in s ==> drop(x)
    ensures Kept(s, drop) == []
  {
    if s != [] {
      KeptNone(s[..|s| - 1], drop);
    }
  }

  // ---------- a pass whose callbacks insert ----------

  /** What one callback of `for_each` does: it may remove the object it was given, and
      inserts others. */
  datatype Act = Act(drop: bool, adds: seq<ObjEntry>)

  function ActOf(acts: seq<Act>): Act {
    if acts == [] then Act(false, []) else acts[0]
  }

  function Later(acts: seq<Act>): seq<Act> {
    if acts == [] then [] else acts[1..]
  }

  ghost function Dropped(s: seq<ObjEntry>, k: nat, drop: bool): seq<ObjEntry>
    requires k < |s|
  {
    if drop then Without(s, k) else s
  }

  /** The list after a callback on object `k`. */
  ghost function AfterAct(s: seq<ObjEntry>, k: nat, act: Act): seq<ObjEntry>
    requires k < |s|
  {
    Dropped(s, k, act.drop) + act.adds
  }

  /** Nothing is inserted that is in the list already; from the end of `acts` on,
      callbacks do nothing.  The cursor was saved before the callback, so the pass ends
      with the object that is last when it is visited. */
  ghost predicate LegalPass(s: seq<ObjEntry>, k: nat, acts: seq<Act>)
    requires k < |s|
    decreases |acts|, |s| - k
  {
    var act := ActOf(acts);
    && (forall x :: x in act.adds ==> x !in Dropped(s, k, act.drop))
    && (forall i, j :: 0 <= i < j < |act.adds| ==> act.adds[i] != act.adds[j])
    && (k + 1 < |s| ==> LegalPass(AfterAct(s, k, act), NextAt(k, act), Later(acts)))
  }

  /** Where the pass goes on after a callback on object `k`. */
  function NextAt(k: nat, act: Act): nat {
    if act.drop then k else k + 1
  }

  /** The objects visited from position `k` on. */
  ghost function Visits(s: seq<ObjEntry>, k: nat, acts: seq<Act>): (v: seq<ObjEntry>)
    requires k < |s|
    ensures v != []
    decreases |acts|, |s| - k
  {
    [s[k]] +
    if k + 1 < |s| then Visits(AfterAct(s, k, ActOf(acts)), NextAt(k, ActOf(acts)), Later(acts)) else []
  }

  /** How many they are. */
  ghost function VisitCount(s: seq<ObjEntry>, k: nat, acts: seq<Act>): (n: nat)
    requires k < |s|
    ensures n > 0
    decreases |acts|, |s| - k
  {
    1 + if k + 1 < |s| then VisitCount(AfterAct(s, k, ActOf(acts)), NextAt(k, ActOf(acts)), Later(acts)) else 0
  }

  /** The list at the end. */
  ghost function Outlived(s: seq<ObjEntry>, k: nat, acts: seq<Act>): seq<ObjEntry>
    requires k < |s|
    decreases |acts|, |s| - k
  {
    var t := AfterAct(s, k, ActOf(acts));
    if k + 1 < |s| then Outlived(t, NextAt(k, ActOf(acts)), Later(acts)) else t
  }

  /** What the first `n` callbacks insert. */
  ghost function Added(acts: seq<Act>, n: nat): seq<ObjEntry>
    decreases n
  {
    if n == 0 then [] else ActOf(acts).adds + Added(Later(acts), n - 1)
  }

  lemma RestAfterAct(s: seq<ObjEntry>, k: nat, act: Act, more: seq<ObjEntry>)
    requires k + 1 < |s|
    ensures NextAt(k, act) < |AfterAct(s, k, act)|
    ensures [s[k]] + (AfterAct(s, k, act)[NextAt(k, act)..] + more) == s[k..] + (act.adds + more)
  {
    assert AfterAct(s, k, act)[NextAt(k, act)..] == s[k + 1..] + act.adds;
    Regroup([s[k]], s[k + 1..], act.adds, more);
    assert [s[k]] + s[k + 1..] == s[k..];
  }

  lemma Regroup(a: seq<ObjEntry>, b: seq<ObjEntry>, c: seq<ObjEntry>, d: seq<ObjEntry>)
    ensures a + (b + c + d) == a + b + (c + d)
  {
  }

  /** A pass visits the objects it starts with, in order, and then what was inserted on
      the way, in order, except for what the callback of the last one visited inserts. */
  lemma {:induction false} PassVisits(s: seq<ObjEntry>, k: nat, acts: seq<Act>)
    requires k < |s|
    ensures Visits(s, k, acts) == s[k..] + Added(acts, VisitCount(s, k, acts) - 1)
    decreases |acts|, |s| - k
  {
    if k + 1 < |s| {
      var act := ActOf(acts);
      var t, j := AfterAct(s, k, act), NextAt(k, act);
      PassVisits(t, j, Later(acts));
      RestAfterAct(s, k, act, Added(Later(acts), VisitCount(t, j, Later(acts)) - 1));
    } else {
      assert s[k..] == [s[k]] && [s[k]] + [] == [s[k]];
    }
  }

  /** The visited objects whose callbacks did not remove them, in order. */
  ghost function Survivors(visited: seq<ObjEntry>, acts: seq<Act>): seq<ObjEntry>
    decreases |visited|
  {
    if visited == [] then []
    else Spared(visited[0], ActOf(acts)) + Survivors(visited[1..], Later(acts))
  }

  /** What the callback of visit `n` inserts. */
  function AddsAt(acts: seq<Act>, n: nat): seq<ObjEntry> {
    if n < |acts| then acts[n].adds else []
  }

  /** What is left of the object visited. */
  function Spared(e: ObjEntry, act: Act): seq<ObjEntry> {
    if act.drop then [] else [e]
  }

  lemma StepLeaves(s: seq<ObjEntry>, k: nat, act: Act, left: seq<ObjEntry>, more: seq<ObjEntry>)
    requires k + 1 < |s|
    ensures NextAt(k, act) < |AfterAct(s, k, act)|
    ensures AfterAct(s, k, act)[..NextAt(k, act)] + (left + more) == s[..k] + (Spared(s[k], act) + left + more)
  {
    var one := Spared(s[k], act);
    assert AfterAct(s, k, act)[..NextAt(k, act)] == s[..k] + one;
    Regroup(s[..k], one, left, more);
  }

  lemma LastLeaves(s: seq<ObjEntry>, k: nat, act: Act)
    requires k + 1 == |s|
    ensures AfterAct(s, k, act) == s[..k] + (Spared(s[k], act) + [] + act.adds)
  {
    assert Dropped(s, k, act.drop) == s[..k] + Spared(s[k], act);
    Regroup(s[..k], Spared(s[k], act), [], act.adds);
    assert [] + act.adds == act.adds;
  }

  lemma VisitsStep(s: seq<ObjEntry>, k: nat, acts: seq<Act>)
    requires k < |s|
    ensures Visits(s, k, acts)[0] == s[k]
    ensures k + 1 < |s| ==>
              Visits(s, k, acts)[1..] == Visits(AfterAct(s, k, ActOf(acts)), NextAt(k, ActOf(acts)), Later(acts))
    ensures k + 1 == |s| ==> Visits(s, k, acts)[1..] == []
  {
  }

  /** The objects before position `k`, then the survivors among the visited, then what
      the last of them inserted. */
  ghost function LeftBehind(s: seq<ObjEntry>, k: nat, acts: seq<Act>): seq<ObjEntry>
    requires k < |s|
  {
    s[..k] + (Survivors(Visits(s, k, acts), acts) + AddsAt(acts, VisitCount(s, k, acts) - 1))
  }

  lemma LeftBehindStep(s: seq<ObjEntry>, k: nat, acts: seq<Act>)
    requires k + 1 < |s|
    ensures LeftBehind(s, k, acts) == LeftBehind(AfterAct(s, k, ActOf(acts)), NextAt(k, ActOf(acts)), Later(acts))
  {
    var act, rest := ActOf(acts), Later(acts);
    var t, j := AfterAct(s, k, act), NextAt(k, act);
    var left, n := Survivors(Visits(t, j, rest), rest), VisitCount(t, j, rest);
    VisitsStep(s, k, acts);
    assert AddsAt(acts, n) == AddsAt(rest, n - 1);
    StepLeaves(s, k, act, left, AddsAt(acts, n));
  }

  lemma LeftBehindLast(s: seq<ObjEntry>, k: nat, acts: seq<Act>)
    requires k + 1 == |s|
    ensures LeftBehind(s, k, acts) == AfterAct(s, k, ActOf(acts))
  {
    VisitsStep(s, k, acts);
    assert Survivors(Visits(s, k, acts)[1..], Later(acts)) == [];
    assert Survivors(Visits(s, k, acts), acts) == Spared(s[k], ActOf(acts)) + [];
    assert AddsAt(acts, 0) == ActOf(acts).adds;
    LastLeaves(s, k, ActOf(acts));
  }

  /** That is the list at the end of a pass. */
  lemma {:induction false} PassLeaves(s: seq<ObjEntry>, k: nat, acts: seq<Act>)
    requires k < |s|
    ensures Outlived(s, k, acts) == LeftBehind(s, k, acts)
    decreases |acts|, |s| - k
  {
    if k + 1 < |s| {
      PassLeaves(AfterAct(s, k, ActOf(acts)), NextAt(k, ActOf(acts)), Later(acts));
      LeftBehindStep(s, k, acts);
    } else {
      LeftBehindLast(s, k, acts);
    }
  }

  lemma {:induction false} CountsVisits(s: seq<ObjEntry>, k: nat, acts: seq<Act>)
    requires k < |s|
    ensures |Visits(s, k, acts)| == VisitCount(s, k, acts)
    decreases |acts|, |s| - k
  {
    if k + 1 < |s| {
      CountsVisits(AfterAct(s, k, ActOf(acts)), NextAt(k, ActOf(acts)), Later(acts));
    }
  }

  /** What a pass over the whole list `s` visits and leaves. */
  ghost predicate IsPass(s: seq<ObjEntry>, acts: seq<Act>, visited: seq<ObjEntry>, left: seq<ObjEntry>) {
    if s == [] then visited == [] && left == []
    else
      && visited != []
      && visited == s + Added(acts, |visited| - 1)
      && left == Survivors(visited, acts) + AddsAt(acts, |visited| - 1)
  }

  lemma WholePass(s: seq<ObjEntry>, acts: seq<Act>)
    requires s != []
    ensures IsPass(s, acts, Visits(s, 0, acts), Outlived(s, 0, acts))
  {
    var v := Visits(s, 0, acts);
    PassVisits(s, 0, acts);
    PassLeaves(s, 0, acts);
    CountsVisits(s, 0, acts);
    assert s[0..] == s;
    FromStart(s, Survivors(v, acts) + AddsAt(acts, |v| - 1));
  }

  lemma FromStart(s: seq<ObjEntry>, rest: seq<ObjEntry>)
    ensures s[..0] + rest == rest
  {
  }

  /** Everything the callbacks insert is known. */
  ghost predicate Supplied(acts: seq<Act>, users: set<ObjEntry>)
    decreases |acts|
  {
    acts == [] || ((forall x :: x in acts[0].adds ==> x in users) && Supplied(acts[1..], users))
  }

  // ---------- the manager ----------

  class Manager {
    const list: ListHead
    const free: ListHead
    var size: nat
    var sizeFree: nat
    ghost var live: seq<ListHead>   // the nodes of `list`
    ghost var spare: seq<ListHead>  // the nodes of `free`
    ghost var objs: seq<ObjEntry>   // the objects of the live nodes
    ghost var nodes: set<ListHead>  // every node made so far, released ones too
    ghost var made: nat             // how many nodes were made

    ghost predicate Shape()
      reads this, list, free, nodes
    {
      && list !in nodes && free !in nodes
      && (forall j :: 0 <= j < |live| ==> live[j] in nodes)
      && (forall j :: 0 <= j < |spare| ==> spare[j] in nodes)
      && Ring(list, live)
      && Ring(free, spare)
      && Apart(list, live, free, spare)
    }

    ghost predicate Rings()
      reads this, list, free, nodes
    {
      && Shape()
      && size == |live|
      && sizeFree == |spare|
    }

    ghost predicate Links()
      reads this, live, spare, objs
    {
      && |objs| == |live|
      && (forall i :: 0 <= i < |live| ==> live[i].ptr == objs[i] && objs[i].node == live[i])
      && (forall i :: 0 <= i < |spare| ==> spare[i].ptr == null)
    }

    ghost predicate Valid()
      reads this, list, free, nodes, live, spare, objs
    {
      Rings() && Links()
    }

    /** Nodes are only ever added to the manager when they are made. */
    twostate predicate OnlyFreshNodes()
      reads this
    {
      old(nodes) <= nodes && forall x :: x in nodes && x !in old(nodes) ==> fresh(x)
    }

    ghost function Counters(): Pool
      reads this
    {
      Pool(size, sizeFree, made)
    }

    constructor (n: nat := 15)
      ensures Valid() && objs == [] && Counters() == Pool(0, n, n)
      ensures fresh(list) && fresh(free) && fresh(nodes)
    {
      list := new ListHead(null);
      free := new ListHead(null);
      size, sizeFree := 0, 0;
      live, spare, objs, nodes, made := [], [], [], {}, 0;
      new;
      Resize(n);
    }

    function MaxSize(): nat
      reads this
    {
      size + sizeFree
    }

    method MakeNode(ptr: ObjEntry?) returns (n: ListHead)
      modifies this`made, this`nodes
      ensures fresh(n) && n.ptr == ptr && made == old(made) + 1 && nodes == old(nodes) + {n}
    {
      n := new ListHead(ptr);
      made := made + 1;
      nodes := nodes + {n};
    }

    /** Moves a live node to the end of the free ring; its object is untouched. */
    method MoveToFree(node: ListHead, ghost k: nat)
      requires Rings() && k < |live| && node == live[k]
      modifies this`size, this`sizeFree, this`live, this`spare
      modifies list`next, list`prev, free`next, free`prev, nodes`next, nodes`prev
      ensures Rings()
      ensures live == Without(old(live), k) && spare == old(spare) + [node]
    {
      ghost var was, wasFree := live, spare;
      size := size - 1;
      sizeFree := sizeFree + 1;
      live := Without(live, k);
      spare := spare + [node];
      ListMoveTail(node, free, list, was, k, wasFree);
    }

    /** Moves the first free node to the end of the live ring. */
    method FrontToList() returns (n: ListHead)
      requires Rings() && spare != []
      modifies this`size, this`sizeFree, this`live, this`spare
      modifies list`next, list`prev, free`next, free`prev, nodes`next, nodes`prev
      ensures Rings()
      ensures n == old(spare)[0] && live == old(live) + [n] && spare == old(spare)[1..]
    {
      n := free.next;
      assert n.prev == free && (n.next == free || n.next in spare) && (list.prev == list || list.prev in live);
      ghost var was, wasLive := spare, live;
      size := size + 1;
      sizeFree := sizeFree - 1;
      live := live + [n];
      spare := spare[1..];
      ListMoveTail(n, list, free, was, 0, wasLive);
      assert Without(was, 0) == spare;
    }

    /** Takes the first free node, if there is one, for `ptr`. */
    method FreeToList(ptr: ObjEntry) returns (n: ListHead?)
      requires Rings()
      modifies this`size, this`sizeFree, this`live, this`spare
      modifies list`next, list`prev, free`next, free`prev, nodes`next, nodes`prev
      modifies spare[..if spare == [] then 0 else 1]`ptr
      ensures Rings()
      ensures old(spare) == [] ==> n == null && live == old(live) && spare == old(spare)
      ensures old(spare) != [] ==>
                && n == old(spare)[0] && n.ptr == ptr
                && live == old(live) + [n] && spare == old(spare)[1..]
    {
      if sizeFree == 0 {
        return null;
      }
      n := FrontToList();
      n.ptr := ptr;
    }

    // ---------- resizing ----------

    /** One round of the growing loop of `resize`. */
    method AddFree()
      requires Valid()
      modifies this`sizeFree, this`spare, this`made, this`nodes, free`next, free`prev, nodes`next, nodes`prev
      ensures Valid() && made == old(made) + 1
      ensures OnlyFreshNodes() && sizeFree == old(sizeFree) + 1
    {
      var n := MakeNode(null);
      ghost var was := spare;
      sizeFree := sizeFree + 1;
      spare := spare + [n];
      ListAddTail(n, free, was);
    }

    /** Deletes the first free node for good; the counter is left to the caller. */
    method ReleaseFirst(first: ListHead)
      requires Shape() && Links() && spare != [] && first == spare[0]
      modifies this`spare, free`next, free`prev, nodes`next, nodes`prev
      ensures Shape() && Links() && spare == old(spare)[1..]
    {
      assert first in spare && (first.next == free || first.next in spare);
      ghost var was := spare;
      spare := spare[1..];
      ListDel(first, free, was, 0);
      assert Without(was, 0) == spare;
    }

    /** Grows the free ring at its end or shrinks it from its front; the live
        objects stay. */
    method Resize(n: nat)
      requires Valid()
      modifies this`sizeFree, this`spare, this`made, this`nodes, free`next, free`prev, nodes`next, nodes`prev
      ensures Valid() && Counters() == Resized(old(Counters()), n)
      ensures size == old(size) && MaxSize() == if n < old(size) then old(MaxSize()) else n
      ensures made - old(made) == if n > old(MaxSize()) then n - old(MaxSize()) else 0
      ensures OnlyFreshNodes()
    {
      if n > MaxSize() {
        var num := n - MaxSize();
        for i := 0 to num
          invariant Valid()
          invariant sizeFree == old(sizeFree) + i && made == old(made) + i
          invariant OnlyFreshNodes()
        {
          AddFree();
        }
      } else if n < size || n == MaxSize() {
        return;
      } else {
        var num := sizeFree - (n - size);
        for i := 0 to num
          invariant Valid()
          invariant sizeFree == old(sizeFree) - i && made == old(made) && nodes == old(nodes)
        {
          var first: ListHead := free.next;
          ReleaseFirst(first);
          sizeFree := sizeFree - 1;
        }
      }
    }

    method AutoFix()
      requires Valid()
      modifies this`sizeFree, this`spare, this`made, this`nodes, free`next, free`prev, nodes`next, nodes`prev
      ensures Valid() && Counters() == AutoFixed(old(Counters())) && size == old(size)
      ensures if old(sizeFree) == 0 then sizeFree == size && made == old(made) + size
              else if old(sizeFree) > 2 * size && old(sizeFree) > 15 then sizeFree == 15 && made == old(made)
              else sizeFree == old(sizeFree) && made == old(made)
      ensures OnlyFreshNodes()
    {
      if sizeFree == 0 {
        Resize(MaxSize() * 2);
      } else if sizeFree > size * 2 && sizeFree > LIST_PRE_ALLOC_SIZE {
        Resize(MaxSize() - (sizeFree - LIST_PRE_ALLOC_SIZE));
      }
    }

    /** Releases every free node; the counter is reset only at the end. */
    method ShrinkToFix()
      requires Valid()
      modifies this`sizeFree, this`spare, free`next, free`prev, nodes`next, nodes`prev
      ensures Valid() && spare == []
    {
      var pos: ListHead := free.next;
      var n: ListHead := pos.next;
      while pos != free
        invariant Shape() && Links()
        invariant pos == First(free, spare) && n == pos.next
        decreases |spare|
      {
        ReleaseFirst(pos);
        pos := n;
        n := n.next;
      }
      sizeFree := 0;
    }

    // ---------- inserting, removing, searching ----------

    /** `exist`'s search finds a node exactly when the object's link is a live
        node; for an object whose link is null or genuine that is membership. */
    method Exist(e: ObjEntry) returns (found: bool)
      requires Valid()
      ensures found <==> e.node != null && e.node in live
      ensures e.node == null || e.node.ptr == e ==> (found <==> e in objs)
    {
      found := false;
      if e.node != null {
        var pos: ListHead := list.next;
        ghost var i := 0;
        while pos != list
          invariant i <= |live| && pos == First(list, live[i..])
          invariant e.node !in live[..i]
          decreases |live| - i
        {
          if pos == e.node {
            return true;
          }
          pos := pos.next;
          i := i + 1;
        }
      }
    }

    /** The reuse branch of `insert`. */
    method InsertReusing(e: ObjEntry)
      requires Valid() && spare != []
      requires e.node == null || e.node !in live
      modifies this`size, this`sizeFree, this`live, this`spare, this`objs
      modifies list`next, list`prev, free`next, free`prev, nodes, e`node
      ensures Valid() && objs == old(objs) + [e]
      ensures live == old(live) + [old(spare)[0]] && spare == old(spare)[1..]
    {
      var n := FreeToList(e);
      e.node := n;
      objs := objs + [e];
    }

    /** A new node at the end of the live ring, not yet linked from its object. */
    method MakeLast(e: ObjEntry) returns (n: ListHead)
      requires Rings()
      modifies this`size, this`live, this`made, this`nodes, list`next, list`prev, nodes`next, nodes`prev
      ensures Rings() && live == old(live) + [n]
      ensures fresh(n) && n.ptr == e && made == old(made) + 1 && nodes == old(nodes) + {n}
    {
      ghost var was := live;
      assert list.prev == list || list.prev in live;
      n := MakeNode(e);
      size := size + 1;
      live := live + [n];
      ListAddTail(n, list, was);
    }

    /** The allocating branch of `insert`. */
    method InsertMaking(e: ObjEntry)
      requires Valid()
      requires e.node == null || e.node !in live
      modifies this`size, this`live, this`made, this`nodes, this`objs
      modifies list`next, list`prev, nodes`next, nodes`prev, e`node
      ensures Valid() && objs == old(objs) + [e] && live == old(live) + [e.node]
      ensures made == old(made) + 1
      ensures OnlyFreshNodes()
    {
      var n := MakeLast(e);
      e.node := n;
      objs := objs + [e];
    }

    /** Appends `e`; the node comes from the free ring, or is made after the pool
        has been doubled. */
    method Insert(e: ObjEntry)
      requires Valid()
      requires e.node == null || e.node !in live
      modifies this`size, this`sizeFree, this`live, this`spare, this`objs, this`made, this`nodes
      modifies list`next, list`prev, free`next, free`prev, nodes, e`node
      ensures Valid() && objs == old(objs) + [e] && live == old(live) + [e.node]
      ensures Counters() == AfterInsert(old(Counters())) && size == old(size) + 1
      ensures if old(sizeFree) > 0 then sizeFree == old(sizeFree) - 1 && made == old(made)
              else sizeFree == old(size) && made == old(made) + old(size) + 1
      ensures OnlyFreshNodes()
    {
      if sizeFree > 0 {
        InsertReusing(e);
      } else {
        AutoFix();
        InsertMaking(e);
      }
    }

    /** `remove` up to its `auto_fix`: the node of `e` becomes the last free one. */
    method Detach(e: ObjEntry, ghost k: nat)
      requires Valid() && k < |objs| && objs[k] == e
      modifies this`size, this`sizeFree, this`live, this`spare, this`objs
      modifies list`next, list`prev, free`next, free`prev, nodes, e`node
      ensures Valid() && e.node == null
      ensures objs == Without(old(objs), k) && live == Without(old(live), k)
      ensures spare == old(spare) + [old(live)[k]]
    {
      var node: ListHead := e.node;
      assert node in live && node !in spare;
      MoveToFree(node, k);
      node.ptr := null;
      e.node := null;
      objs := Without(objs, k);
    }

    /** Deletes `e` wherever it is; its node goes to the end of the free ring,
        and the free ring may then be shrunk. */
    method Remove(e: ObjEntry) returns (ghost k: nat)
      requires Valid() && e in objs
      modifies this`size, this`sizeFree, this`live, this`spare, this`objs, this`made, this`nodes
      modifies list`next, list`prev, free`next, free`prev, nodes, e`node
      ensures Valid() && e.node == null
      ensures k < |old(objs)| && old(objs)[k] == e
      ensures objs == Without(old(objs), k) && live == Without(old(live), k)
      ensures Counters() == AfterRemove(old(Counters())) && size == old(size) - 1 && made == old(made)
      ensures sizeFree == if old(sizeFree) + 1 > 2 * size && old(sizeFree) + 1 > 15 then 15 else old(sizeFree) + 1
      ensures OnlyFreshNodes()
    {
      k :| 0 <= k < |objs| && objs[k] == e;
      Detach(e, k);
      AutoFix();
    }

    /** The objects of a valid manager are distinct. */
    lemma OnePlace(i: nat, j: nat)
      requires Valid() && i < |objs| && j < |objs| && objs[i] == objs[j]
      ensures i == j
    {
      assert live[i] == live[j];
    }

    /** The body of the loop of `clear`: `e` is the object of the first live node. */
    method DetachFirst(pos: ListHead, e: ObjEntry)
      requires Valid() && live != [] && pos == live[0] && e == objs[0]
      modifies this`size, this`sizeFree, this`live, this`spare, this`objs
      modifies list`next, list`prev, free`next, free`prev, nodes, e`node
      ensures Valid() && e.node == null
      ensures objs == old(objs)[1..] && sizeFree == old(sizeFree) + 1
      ensures First(list, live) == old(pos.next) && old(pos.next).next != null
    {
      Detach(e, 0);
    }

    ghost predicate Unlinked(es: seq<ObjEntry>)
      reads es
    {
      forall e :: e in es ==> e.node == null
    }

    /** Where `clear` is: of the objects `all` it has unlinked the first, `done`. */
    ghost predicate Clearing(all: seq<ObjEntry>, done: seq<ObjEntry>)
      reads this, done
    {
      done + objs == all && Unlinked(done)
    }

    /** One round of the loop of `clear`. */
    method ClearNext(pos: ListHead, e: ObjEntry, ghost all: seq<ObjEntry>, ghost done: seq<ObjEntry>)
      requires Valid() && live != [] && pos == live[0] && e == objs[0] && Clearing(all, done)
      modifies this`size, this`sizeFree, this`live, this`spare, this`objs
      modifies list`next, list`prev, free`next, free`prev, nodes, e`node
      ensures Valid() && Clearing(all, done + [e])
      ensures |objs| == |old(objs)| - 1 && sizeFree == old(sizeFree) + 1
      ensures First(list, live) == old(pos.next) && old(pos.next).next != null
    {
      ShiftOne(done, objs);
      DetachFirst(pos, e);
    }

    /** Empties the live ring from its front; every object is unlinked. */
    method Clear()
      requires Valid()
      modifies this`size, this`sizeFree, this`live, this`spare, this`objs
      modifies list`next, list`prev, free`next, free`prev, nodes, objs`node
      ensures Valid() && objs == [] && sizeFree == old(sizeFree) + old(size)
      ensures Unlinked(old(objs))
    {
      var pos: ListHead := list.next;
      var n: ListHead := pos.next;
      ghost var done := [];
      while pos != list
        invariant Valid() && Clearing(old(objs), done)
        invariant sizeFree == old(sizeFree) + old(size) - |objs|
        invariant pos == First(list, live) && n == pos.next
        decreases |objs|
      {
        var e: ObjEntry := pos.ptr;
        InRest(done, objs);
        ClearNext(pos, e, old(objs), done);
        done := done + [e];
        pos := n;
        n := n.next;
      }
      assert done + [] == done;
    }

    static lemma ShiftOne(done: seq<ObjEntry>, rest: seq<ObjEntry>)
      requires rest != []
      ensures done + [rest[0]] + rest[1..] == done + rest
    {
    }

    static lemma InRest(done: seq<ObjEntry>, rest: seq<ObjEntry>)
      requires rest != []
      ensures rest[0] in done + rest
    {
      assert (done + rest)[|done|] == rest[0];
    }

    /** The node at position `k` of the live ring, or the anchor at its end. */
    ghost function At(k: nat): ListHead
      reads this
    {
      if k < |live| then live[k] else list
    }

    /** One callback of `ForEach`, on object `k`: the cursor `n` saved before it
        is still the next node to visit. */
    method Visit(e: ObjEntry, drop: bool, n: ListHead, ghost k: nat)
      requires Valid() && k < |objs| && objs[k] == e && n == At(k + 1)
      modifies this`size, this`sizeFree, this`live, this`spare, this`objs, this`made, this`nodes
      modifies list`next, list`prev, free`next, free`prev, nodes, e`node
      ensures Valid() && OnlyFreshNodes()
      ensures objs == if drop then Without(old(objs), k) else old(objs)
      ensures n == At(if drop then k else k + 1) && n.next != null
    {
      if drop {
        forall j | 0 <= j < |objs| && objs[j] == e
          ensures j == k
        {
          OnePlace(j, k);
        }
        ghost var j := Remove(e);
      }
    }

    /** Where `for_each` is: it has visited `visited`, of which `kept` were not dropped,
        and `rest` is to come. */
    ghost predicate Visiting(all: seq<ObjEntry>, visited: seq<ObjEntry>, kept: seq<ObjEntry>, rest: seq<ObjEntry>,
                             drop: ObjEntry -> bool)
      reads this
    {
      visited + rest == all && objs == kept + rest && kept == Kept(visited, drop)
    }

    /** One round of the loop of `for_each`. */
    method VisitNext(e: ObjEntry, n: ListHead, drop: ObjEntry -> bool, ghost all: seq<ObjEntry>,
                     visited: seq<ObjEntry>, ghost kept: seq<ObjEntry>, ghost rest: seq<ObjEntry>)
      returns (visited': seq<ObjEntry>, ghost kept': seq<ObjEntry>)
      requires Valid() && rest != [] && Visiting(all, visited, kept, rest, drop)
      requires e == rest[0] && n == At(|kept| + 1)
      modifies this`size, this`sizeFree, this`live, this`spare, this`objs, this`made, this`nodes
      modifies list`next, list`prev, free`next, free`prev, nodes, e`node
      ensures Valid() && OnlyFreshNodes()
      ensures Visiting(all, visited', kept', rest[1..], drop)
      ensures n == At(|kept'|) && n.next != null
    {
      assert e == objs[|kept|];
      Visit(e, drop(e), n, |kept|);
      KeptStep(visited, kept, rest, drop);
      visited' := visited + [e];
      kept' := if drop(e) then kept else kept + [e];
    }

    /** `for_each` with a callback that removes the objects it chooses to: every
        object is visited once, in order, although `Remove` moves the node under
        the cursor to the free ring and may release it. */
    method ForEach(drop: ObjEntry -> bool) returns (visited: seq<ObjEntry>)
      requires Valid()
      modifies this`size, this`sizeFree, this`live, this`spare, this`objs, this`made, this`nodes
      modifies list`next, list`prev, free`next, free`prev, nodes, objs`node
      ensures Valid() && visited == old(objs)
      ensures objs == Kept(old(objs), drop)
      ensures (forall e :: e in old(objs) ==> drop(e)) ==> objs == [] && size == 0
      ensures OnlyFreshNodes()
    {
      visited := [];
      var pos: ListHead := list.next;
      var n: ListHead := pos.next;
      ghost var kept, rest := [], objs;
      while pos != list
        invariant Valid() && OnlyFreshNodes() && Visiting(old(objs), visited, kept, rest, drop)
        invariant pos == At(|kept|) && n == pos.next
        decreases |rest|
      {
        var e: ObjEntry := pos.ptr;
        assert e == objs[|kept|] == rest[0];
        InRest(visited, rest);
        visited, kept := VisitNext(e, n, drop, old(objs), visited, kept, rest);
        rest := rest[1..];
        pos := n;
        n := n.next;
      }
      assert rest == [] && visited == old(objs);
      if forall e :: e in visited ==> drop(e) {
        KeptNone(visited, drop);
      }
    }

    // ---------- whole runs ----------

    /** Every object that may be handed to this manager has a node exactly while
        the manager holds it. */
    ghost predicate Linked(users: set<ObjEntry>)
      reads this, users
    {
      && (forall e :: e in objs ==> e in users)
      && (forall e :: e in users ==> (e.node != null <==> e in objs))
    }

    /** The objects are distinct, so dropping one leaves exactly the others. */
    lemma OthersStay(k: nat)
      requires Valid() && k < |objs|
      ensures forall i, j :: 0 <= i < j < |objs| ==> objs[i] != objs[j]
      ensures forall x :: x in Without(objs, k) <==> x in objs && x != objs[k]
    {
      forall i, j | 0 <= i < j < |objs|
        ensures objs[i] != objs[j]
      {
        assert live[i] != live[j];
      }
      var rest := Without(objs, k);
      forall x | x in objs && x != objs[k]
        ensures x in rest
      {
        var i :| 0 <= i < |objs| && objs[i] == x;
        assert rest[if i < k then i else i - 1] == x;
      }
    }

    /** `Remove` of object `k`, which leaves all others linked. */
    method DropUser(e: ObjEntry, ghost k: nat, ghost users: set<ObjEntry>)
      requires Valid() && Linked(users) && k < |objs| && objs[k] == e
      modifies this`size, this`sizeFree, this`live, this`spare, this`objs, this`made, this`nodes
      modifies list`next, list`prev, free`next, free`prev, nodes, users`node
      ensures Valid() && Linked(users) && OnlyFreshNodes()
      ensures objs == Without(old(objs), k) && live == Without(old(live), k)
      ensures Counters() == AfterRemove(old(Counters()))
    {
      OthersStay(k);
      ghost var j := Remove(e);
      assert j == k;
    }

    /** `Remove` seen from outside: the object is dropped from the sequence. */
    method RemoveUser(e: ObjEntry, ghost users: set<ObjEntry>)
      requires Valid() && Linked(users) && e in objs
      modifies this`size, this`sizeFree, this`live, this`spare, this`objs, this`made, this`nodes
      modifies list`next, list`prev, free`next, free`prev, nodes, users`node
      ensures Valid() && Linked(users) && objs == Kept(old(objs), x => x == e)
      ensures Counters() == AfterRemove(old(Counters()))
      ensures OnlyFreshNodes()
    {
      ghost var k :| 0 <= k < |objs| && objs[k] == e;
      OthersStay(k);
      KeptAllButOne(objs, k);
      DropUser(e, k, users);
    }

    twostate predicate LiveStays()
      reads this`live
    {
      |old(live)| <= |live| && forall i :: 0 <= i < |old(live)| ==> live[i] == old(live)[i]
    }

    method InsertUser(e: ObjEntry, ghost users: set<ObjEntry>)
      requires Valid() && Linked(users) && e in users && e !in objs
      modifies this`size, this`sizeFree, this`live, this`spare, this`objs, this`made, this`nodes
      modifies list`next, list`prev, free`next, free`prev, nodes, users`node
      ensures Valid() && Linked(users) && OnlyFreshNodes()
      ensures objs == old(objs) + [e] && LiveStays()
    {
      Insert(e);
    }

    /** The insertions of one callback. */
    method InsertAll(xs: seq<ObjEntry>, ghost users: set<ObjEntry>)
      requires Valid() && Linked(users)
      requires forall x :: x in xs ==> x in users && x !in objs
      requires forall i, j :: 0 <= i < j < |xs| ==> xs[i] != xs[j]
      modifies this`size, this`sizeFree, this`live, this`spare, this`objs, this`made, this`nodes
      modifies list`next, list`prev, free`next, free`prev, nodes, users`node
      ensures Valid() && Linked(users) && OnlyFreshNodes()
      ensures objs == old(objs) + xs && LiveStays()
      decreases |xs|
    {
      if |xs| > 0 {
        InsertUser(xs[0], users);
        assert forall x :: x in xs[1..] ==> x in xs && x != xs[0];
        FirstOf(old(objs), xs);
        InsertAll(xs[1..], users);
      } else {
        assert objs + xs == objs;
      }
    }

    static lemma FirstOf(a: seq<ObjEntry>, xs: seq<ObjEntry>)
      requires xs != []
      ensures a + [xs[0]] + xs[1..] == a + xs
    {
    }

    /** One callback of a pass, on object `k`: the cursor `n` saved before it is the next
        node to visit, or still the anchor. */
    method VisitActing(e: ObjEntry, act: Act, n: ListHead, ghost k: nat, ghost users: set<ObjEntry>)
      requires Valid() && Linked(users) && k < |objs| && objs[k] == e && n == At(k + 1)
      requires forall x :: x in act.adds ==> x in users && x !in Dropped(objs, k, act.drop)
      requires forall i, j :: 0 <= i < j < |act.adds| ==> act.adds[i] != act.adds[j]
      modifies this`size, this`sizeFree, this`live, this`spare, this`objs, this`made, this`nodes
      modifies list`next, list`prev, free`next, free`prev, nodes, users`node
      ensures Valid() && Linked(users) && OnlyFreshNodes()
      ensures objs == AfterAct(old(objs), k, act)
      ensures n == if k + 1 < |old(objs)| then At(NextAt(k, act)) else list
      ensures n.next != null
    {
      if act.drop {
        DropUser(e, k, users);
      }
      InsertAll(act.adds, users);
    }

    /** Where a pass is: at the node of object `k`, or at the anchor again; `v` and `f`
        are what it will have visited and what it will leave. */
    ghost predicate OnTheWay(v: seq<ObjEntry>, f: seq<ObjEntry>, visited: seq<ObjEntry>, pos: ListHead, k: nat,
                             left: seq<Act>)
      reads this
    {
      if pos == list then v == visited && f == objs
      else
        && k < |objs| == |live| && pos == live[k] && LegalPass(objs, k, left)
        && v == visited + Visits(objs, k, left) && f == Outlived(objs, k, left)
    }

    lemma OneVisit(s: seq<ObjEntry>, visited: seq<ObjEntry>, k: nat, left: seq<Act>)
      requires k < |s|
      ensures visited + Visits(s, k, left) ==
              visited + [s[k]] +
              if k + 1 < |s| then Visits(AfterAct(s, k, ActOf(left)), NextAt(k, ActOf(left)), Later(left)) else []
    {
    }

    /** One round of the pass. */
    method VisitNextActing(e: ObjEntry, pos: ListHead, n: ListHead, act: Act, ghost users: set<ObjEntry>,
                           ghost v: seq<ObjEntry>, ghost f: seq<ObjEntry>, ghost visited: seq<ObjEntry>,
                           ghost k: nat, ghost left: seq<Act>)
      requires Valid() && Linked(users) && pos != list && OnTheWay(v, f, visited, pos, k, left)
      requires e == objs[k] && n == At(k + 1) && act == ActOf(left) && forall x :: x in act.adds ==> x in users
      modifies this`size, this`sizeFree, this`live, this`spare, this`objs, this`made, this`nodes
      modifies list`next, list`prev, free`next, free`prev, nodes, users`node
      ensures Valid() && Linked(users) && OnlyFreshNodes()
      ensures n.next != null && OnTheWay(v, f, visited + [e], n, NextAt(k, act), Later(left))
      ensures n != list ==> NextAt(k, act) < |objs| && |objs| - NextAt(k, act) == |old(objs)| - k - 1 + |act.adds|
    {
      OneVisit(objs, visited, k, left);
      VisitActing(e, act, n, k, users);
    }

    /** The loop of a pass over a list that is not empty. */
    method PassActing(acts: seq<Act>, ghost users: set<ObjEntry>) returns (visited: seq<ObjEntry>)
      requires Valid() && Linked(users) && objs != [] && LegalPass(objs, 0, acts) && Supplied(acts, users)
      modifies this`size, this`sizeFree, this`live, this`spare, this`objs, this`made, this`nodes
      modifies list`next, list`prev, free`next, free`prev, nodes, users`node
      ensures Valid() && Linked(users) && OnlyFreshNodes()
      ensures visited == Visits(old(objs), 0, acts) && objs == Outlived(old(objs), 0, acts)
    {
      visited := [];
      var pos: ListHead := list.next;
      var n: ListHead := pos.next;
      var left := acts;
      ghost var k := 0;
      ghost var v, f := Visits(objs, 0, acts), Outlived(objs, 0, acts);
      assert [] + v == v;
      while pos != list
        invariant Valid() && Linked(users) && OnlyFreshNodes() && Supplied(left, users)
        invariant n == pos.next && OnTheWay(v, f, visited, pos, k, left)
        decreases |left|, if pos == list then 0 else |objs| - k
      {
        var act := ActOf(left);
        var e: ObjEntry := pos.ptr;
        VisitNextActing(e, pos, n, act, users, v, f, visited, k, left);
        visited := visited + [e];
        left := Later(left);
        k := NextAt(k, act);
        pos := n;
        n := n.next;
      }
    }

    /** `for_each` with callbacks that remove the object they are given or not, and then
        insert others: the pass visits the objects it starts with and then all that was
        inserted on the way, but for what the callback of the last one visited inserts. */
    method ForEachActing(acts: seq<Act>, ghost users: set<ObjEntry>) returns (visited: seq<ObjEntry>)
      requires Valid() && Linked(users) && (objs != [] ==> LegalPass(objs, 0, acts)) && Supplied(acts, users)
      modifies this`size, this`sizeFree, this`live, this`spare, this`objs, this`made, this`nodes
      modifies list`next, list`prev, free`next, free`prev, nodes, users`node
      ensures Valid() && Linked(users) && OnlyFreshNodes()
      ensures IsPass(old(objs), acts, visited, objs)
      ensures old(objs) != [] ==> visited == Visits(old(objs), 0, acts) && objs == Outlived(old(objs), 0, acts)
    {
      visited := [];
      if list.next != list {
        WholePass(objs, acts);
        visited := PassActing(acts, users);
      }
    }

    method Apply(op: Op, ghost users: set<ObjEntry>)
      requires Valid() && Linked(users) && Legal(objs, op)
      requires op.Insert? || op.Remove? ==> op.e in users
      modifies this`size, this`sizeFree, this`live, this`spare, this`objs, this`made, this`nodes
      modifies list`next, list`prev, free`next, free`prev, nodes, users`node
      ensures Valid() && Linked(users) && objs == Outcome(old(objs), op)
      ensures op.Insert? || op.Remove? ==> Spent(Counters()) <= Spent(old(Counters())) + 2
      ensures OnlyFreshNodes()
    {
      OperationCost(Counters());
      match op
      case Insert(e) =>
        Insert(e);
      case Remove(e) =>
        RemoveUser(e, users);
      case Clear =>
        Clear();
      case Resize(n) =>
        Resize(n);
      case Shrink =>
        ShrinkToFix();
    }

    /** Any legal run of operations does to the two rings what it does to a plain
        sequence of objects, and a run of inserts and removes allocates no more than
        two nodes an operation beyond the imbalance it started with. */
    method Run(script: seq<Op>, ghost users: set<ObjEntry>)
      requires Valid() && Linked(users) && LegalRun(objs, script)
      requires forall i :: 0 <= i < |script| && (script[i].Insert? || script[i].Remove?) ==> script[i].e in users
      modifies this`size, this`sizeFree, this`live, this`spare, this`objs, this`made, this`nodes
      modifies list`next, list`prev, free`next, free`prev, nodes, users`node
      ensures Valid() && Linked(users) && objs == RunOutcome(old(objs), script)
      ensures (forall i :: 0 <= i < |script| ==> script[i].Insert? || script[i].Remove?) ==>
                made <= Spent(old(Counters())) + 2 * |script|
    {
      ghost var moves := forall i :: 0 <= i < |script| ==> script[i].Insert? || script[i].Remove?;
      for i := 0 to |script|
        invariant Valid() && Linked(users) && OnlyFreshNodes()
        invariant LegalRun(objs, script[i..])
        invariant RunOutcome(objs, script[i..]) == RunOutcome(old(objs), script)
        invariant moves ==> Spent(Counters()) <= Spent(old(Counters())) + 2 * i
      {
        assert script[i..][1..] == script[i + 1..];
        Apply(script[i], users);
      }
    }
  }
}
