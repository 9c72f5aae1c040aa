/** The intrusive circular list of kernel_list.h.

    A `list_head` is only ever used inside an `obj_node`, next to the node's
    `ptr_`, so `ListHead` holds both: `container_of` is then the identity.  An
    anchor (the head of a list) is a `ListHead` whose `ptr` is never used.  The
    poison values that `list_del` stores are modelled by null, so a step that
    dereferences a deleted node does not verify. */
module KernelList {

  /** The part of a user object that `obj_mgr` needs: its link to its node. */
  class ObjEntry {
    var node: ListHead?

    constructor ()
      ensures node == null
    {
      node := null;
    }
  }

  class ListHead {
    var next: ListHead?
    var prev: ListHead?
    var ptr: ObjEntry?

    constructor (ptr: ObjEntry?)
      ensures next == this && prev == this && this.ptr == ptr
    {
      next, prev, this.ptr := this, this, ptr;
    }
  }

  // ---------- what a well-formed list is ----------

  ghost predicate Distinct(s: seq<ListHead>) {
    forall i, j :: 0 <= i < j < |s| ==> s[i] != s[j]
  }

  /** Following `next` from `h` passes the nodes of `s` in order and returns to
      `h`; following `prev` passes them backwards. */
  ghost predicate Ring(h: ListHead, s: seq<ListHead>)
    reads h, s
  {
    && h !in s
    && Distinct(s)
    && h.next == First(h, s)
    && h.prev == Last(h, s)
    && (forall i {:trigger s[i].next} :: 0 <= i < |s| ==> s[i].next == if i + 1 < |s| then s[i + 1] else h)
    && (forall i {:trigger s[i].prev} :: 0 <= i < |s| ==> s[i].prev == if 0 < i then s[i - 1] else h)
  }

  ghost function First(h: ListHead, s: seq<ListHead>): ListHead {
    if s == [] then h else s[0]
  }

  ghost function Last(h: ListHead, s: seq<ListHead>): ListHead {
    if s == [] then h else s[|s| - 1]
  }

  /** The two rings have no node in common. */
  ghost predicate Apart(h: ListHead, s: seq<ListHead>, h': ListHead, s': seq<ListHead>) {
    && h != h' && h !in s' && h' !in s
    && (forall x :: x in s ==> x !in s')
  }

  ghost function Without<T>(s: seq<T>, k: nat): seq<T>
    requires k < |s|
  {
    s[..k] + s[k + 1..]
  }

  ghost function Inserted(s: seq<ListHead>, k: nat, a: seq<ListHead>): seq<ListHead>
    requires k <= |s|
  {
    s[..k] + a + s[k..]
  }

  lemma WithoutAt<T>(s: seq<T>, k: nat, i: nat)
    requires k < |s| && i < |s| - 1
    ensures |Without(s, k)| == |s| - 1 && Without(s, k)[i] == if i < k then s[i] else s[i + 1]
  {
  }

  lemma InsertedAt(s: seq<ListHead>, k: nat, a: seq<ListHead>, i: nat)
    requires k <= |s| && i < |s| + |a|
    ensures |Inserted(s, k, a)| == |s| + |a|
    ensures Inserted(s, k, a)[i] == if i < k then s[i] else if i < k + |a| then a[i - k] else s[i - |a|]
  {
  }

  lemma InsertedIsDistinct(s: seq<ListHead>, k: nat, a: seq<ListHead>)
    requires k <= |s| && Distinct(s) && Distinct(a) && forall x :: x in a ==> x !in s
    ensures Distinct(Inserted(s, k, a))
    ensures forall i, j :: 0 <= i < |a| && 0 <= j < |s| ==> a[i] != s[j]
  {
    var r := Inserted(s, k, a);
    forall i, j | 0 <= i < j < |r|
      ensures r[i] != r[j]
    {
      assert k <= i < k + |a| ==> r[i] in a;
      assert k <= j < k + |a| ==> r[j] in a;
      assert i < k ==> r[i] in s;
      assert j >= k + |a| ==> r[j] in s;
    }
    forall i, j | 0 <= i < |a| && 0 <= j < |s|
      ensures a[i] != s[j]
    {
      assert a[i] in a && s[j] in s;
    }
  }

  // ---------- adding and deleting ----------

  method InitListHead(list: ListHead)
    modifies list`next, list`prev
    ensures Ring(list, [])
  {
    list.next := list;
    list.prev := list;
  }

  /** `__list_add`: `n` goes between two neighbours, position `k` of the ring. */
  method ListAddBetween(n: ListHead, prev: ListHead, next: ListHead,
                        ghost h: ListHead, ghost s: seq<ListHead>, ghost k: nat)
    requires Ring(h, s) && n != h && n !in s && k <= |s|
    requires prev == Last(h, s[..k]) && next == First(h, s[k..])
    modifies n`next, n`prev, prev`next, next`prev
    ensures Ring(h, Inserted(s, k, [n]))
  {
    InsertedIsDistinct(s, k, [n]);
    next.prev := n;
    n.next := next;
    n.prev := prev;
    prev.next := n;
  }

  method ListAdd(n: ListHead, head: ListHead, ghost s: seq<ListHead>)
    requires Ring(head, s) && n != head && n !in s
    modifies n`next, n`prev, head`next, head.next`prev
    ensures Ring(head, [n] + s)
  {
    ListAddBetween(n, head, head.next, head, s, 0);
    assert Inserted(s, 0, [n]) == [n] + s;
  }

  method ListAddTail(n: ListHead, head: ListHead, ghost s: seq<ListHead>)
    requires Ring(head, s) && n != head && n !in s
    modifies n`next, n`prev, head.prev`next, head`prev
    ensures Ring(head, s + [n])
  {
    ListAddBetween(n, head.prev, head, head, s, |s|);
    assert Inserted(s, |s|, [n]) == s + [n];
  }

  /** `__list_del_entry`: unlinks entry `k`; the entry keeps its own pointers. */
  method ListUnlink(entry: ListHead, ghost h: ListHead, ghost s: seq<ListHead>, ghost k: nat)
    requires Ring(h, s) && k < |s| && entry == s[k]
    modifies entry.prev`next, entry.next`prev
    ensures Ring(h, Without(s, k))
    ensures entry.next == old(entry.next) && entry.prev == old(entry.prev)
  {
    entry.next.prev := entry.prev;
    entry.prev.next := entry.next;
  }

  method ListDel(entry: ListHead, ghost h: ListHead, ghost s: seq<ListHead>, ghost k: nat)
    requires Ring(h, s) && k < |s| && entry == s[k]
    modifies entry.prev`next, entry.next`prev, entry`next, entry`prev
    ensures Ring(h, Without(s, k))
    ensures entry.next == null && entry.prev == null
  {
    ListUnlink(entry, h, s, k);
    entry.next := null;
    entry.prev := null;
  }

  method ListDelInit(entry: ListHead, ghost h: ListHead, ghost s: seq<ListHead>, ghost k: nat)
    requires Ring(h, s) && k < |s| && entry == s[k]
    modifies entry.prev`next, entry.next`prev, entry`next, entry`prev
    ensures Ring(h, Without(s, k)) && Ring(entry, [])
  {
    ListUnlink(entry, h, s, k);
    InitListHead(entry);
  }

  // ---------- moving between lists ----------

  /** `list_move`, to another list or to the head of the same one. */
  method ListMove(entry: ListHead, head: ListHead,
                  ghost h: ListHead, ghost s: seq<ListHead>, ghost k: nat, ghost t: seq<ListHead>)
    requires Ring(h, s) && k < |s| && entry == s[k]
    requires head == h || (Ring(head, t) && Apart(h, s, head, t))
    modifies entry.prev`next, entry.next`prev, entry`next, entry`prev, head`next, head.next`prev
    ensures if head == h then Ring(h, [entry] + Without(s, k)) else Ring(h, Without(s, k)) && Ring(head, [entry] + t)
  {
    assert entry.prev == h || entry.prev in s;
    assert entry.next == h || entry.next in s;
    ListUnlink(entry, h, s, k);
    UnlinkedIsOut(s, k);
    ghost var there := if head == h then Without(s, k) else t;
    assert Ring(head, there);
    ListAdd(entry, head, there);
  }

  /** `list_move_tail`, to another list or to the tail of the same one. */
  method ListMoveTail(entry: ListHead, head: ListHead,
                      ghost h: ListHead, ghost s: seq<ListHead>, ghost k: nat, ghost t: seq<ListHead>)
    requires Ring(h, s) && k < |s| && entry == s[k]
    requires head == h || (Ring(head, t) && Apart(h, s, head, t))
    modifies entry.prev`next, entry.next`prev, entry`next, entry`prev, head.prev`next, head`prev
    ensures if head == h then Ring(h, Without(s, k) + [entry]) else Ring(h, Without(s, k)) && Ring(head, t + [entry])
  {
    assert entry.prev == h || entry.prev in s;
    assert entry.next == h || entry.next in s;
    ListUnlink(entry, h, s, k);
    UnlinkedIsOut(s, k);
    ghost var there := if head == h then Without(s, k) else t;
    assert Ring(head, there);
    ListAddTail(entry, head, there);
  }

  lemma UnlinkedIsOut(s: seq<ListHead>, k: nat)
    requires Distinct(s) && k < |s|
    ensures s[k] !in Without(s, k)
  {
  }

  // ---------- replacing ----------

  /** `list_replace` for an entry: `n` takes its place. */
  method ListReplace(entry: ListHead, n: ListHead,
                     ghost h: ListHead, ghost s: seq<ListHead>, ghost k: nat)
    requires Ring(h, s) && k < |s| && entry == s[k]
    requires n != h && n !in s
    modifies n`next, n`prev, entry.next`prev, entry.prev`next
    ensures Ring(h, s[k := n])
    ensures entry.next == old(entry.next) && entry.prev == old(entry.prev)
  {
    n.next := entry.next;
    n.next.prev := n;
    n.prev := entry.prev;
    n.prev.next := n;
  }

  /** `list_replace_init` for an entry puts `n` in its place; on the anchor it hands the
      whole list over to `n`, also when the list is empty and the first store goes back
      into the old anchor.  `k` is the position of an entry. */
  method ListReplaceInit(entry: ListHead, n: ListHead, ghost h: ListHead, ghost s: seq<ListHead>, ghost k: nat)
    requires Ring(h, s) && (entry == h || (k < |s| && entry == s[k]))
    requires n != h && n !in s
    modifies n`next, n`prev, entry`next, entry`prev, entry.next`prev, entry.prev`next
    ensures Ring(entry, [])
    ensures if entry == h then Ring(n, s) else Ring(h, s[k := n])
  {
    n.next := entry.next;
    n.next.prev := n;
    n.prev := entry.prev;
    n.prev.next := n;
    InitListHead(entry);
  }

  // ---------- queries ----------

  predicate ListEmpty(head: ListHead)
    reads head
  {
    head.next == head
  }

  predicate ListEmptyCareful(head: ListHead)
    reads head
  {
    head.next == head && head.next == head.prev
  }

  predicate ListIsLast(entry: ListHead, head: ListHead)
    reads entry
  {
    entry.next == head
  }

  predicate ListIsSingular(head: ListHead)
    reads head
  {
    !ListEmpty(head) && head.next == head.prev
  }

  /** On a ring the pointer comparisons answer the questions they are named for. */
  lemma QueriesAreExact(h: ListHead, s: seq<ListHead>)
    requires Ring(h, s)
    ensures ListEmpty(h) <==> s == []
    ensures ListEmptyCareful(h) <==> s == []
    ensures ListIsSingular(h) <==> |s| == 1
    ensures forall k :: 0 <= k < |s| ==> (ListIsLast(s[k], h) <==> k == |s| - 1)
  {
    if |s| > 1 {
      assert s[0] != s[|s| - 1];
    }
  }

  // ---------- rotation ----------

  ghost function RotatedOnce<T>(s: seq<T>): seq<T> {
    if s == [] then [] else s[1..] + [s[0]]
  }

  method ListRotateLeft(head: ListHead, ghost s: seq<ListHead>, ghost nodes: set<ListHead>)
    requires Ring(head, s) && forall j :: 0 <= j < |s| ==> s[j] in nodes
    modifies head`next, head`prev, nodes`next, nodes`prev
    ensures Ring(head, RotatedOnce(s))
  {
    QueriesAreExact(head, s);
    if !ListEmpty(head) {
      var first: ListHead := head.next;
      ListMoveTail(first, head, head, s, 0, s);
      assert Without(s, 0) == s[1..];
    }
  }

  /** `n` left rotations bring entry `n` to the front, so as many rotations as
      there are entries change nothing. */
  method RotateTimes(head: ListHead, n: nat, ghost s: seq<ListHead>, ghost nodes: set<ListHead>)
    requires Ring(head, s) && n <= |s| && forall j :: 0 <= j < |s| ==> s[j] in nodes
    modifies head`next, head`prev, nodes`next, nodes`prev
    ensures Ring(head, s[n..] + s[..n])
    ensures n == |s| ==> Ring(head, s)
  {
    assert s[0..] + s[..0] == s;
    for i := 0 to n
      invariant Ring(head, s[i..] + s[..i])
    {
      ListRotateLeft(head, s[i..] + s[..i], nodes);
      assert RotatedOnce(s[i..] + s[..i]) == s[i + 1..] + s[..i + 1];
    }
    assert s[|s|..] + s[..|s|] == s;
  }

  // ---------- cutting and splicing ----------

  /** `__list_cut_position`: `entry` is entry `k`. */
  method ListCutBefore(list: ListHead, head: ListHead, entry: ListHead, ghost s: seq<ListHead>, ghost k: nat)
    requires Ring(head, s) && list != head && list !in s
    requires k < |s| && entry == s[k]
    modifies list`next, list`prev, head`next, entry`next, head.next`prev, entry.next`prev
    ensures Ring(list, s[..k + 1]) && Ring(head, s[k + 1..])
  {
    var newFirst: ListHead := entry.next;
    list.next := head.next;
    list.next.prev := list;
    list.prev := entry;
    entry.next := list;
    head.next := newFirst;
    newFirst.prev := head;
  }

  /** Moves the first entries of `head`, up to and including `entry`, to `list`.
      `k` is the position of `entry` when it is one of the entries. */
  method ListCutPosition(list: ListHead, head: ListHead, entry: ListHead, ghost s: seq<ListHead>, ghost k: nat)
    requires Ring(head, s) && list != head && list !in s
    requires |s| >= 2 ==> entry == head || entry in s
    requires entry in s ==> k < |s| && entry == s[k]
    modifies list`next, list`prev, head`next, head`prev, s`next, s`prev
    ensures entry in s ==> Ring(list, s[..k + 1]) && Ring(head, s[k + 1..])
    ensures entry !in s ==> Ring(head, s)
    ensures entry == head && s != [] ==> Ring(list, [])
    ensures s == [] || (entry !in s && entry != head) ==> unchanged(list) && unchanged(entry)
  {
    QueriesAreExact(head, s);
    if ListEmpty(head) {
      return;
    }
    if ListIsSingular(head) && head.next != entry && head != entry {
      return;
    }
    if entry == head {
      InitListHead(list);
    } else {
      ListCutBefore(list, head, entry, s, k);
    }
  }

  /** `__list_splice`: the entries of `list` go between two neighbours of the
      ring of `h`; the anchor `list` keeps its own pointers. */
  method ListSpliceBetween(list: ListHead, prev: ListHead, next: ListHead,
                           ghost a: seq<ListHead>, ghost h: ListHead, ghost b: seq<ListHead>, ghost k: nat)
    requires Ring(list, a) && a != [] && Ring(h, b) && Apart(list, a, h, b) && k <= |b|
    requires prev == Last(h, b[..k]) && next == First(h, b[k..])
    modifies list.next`prev, prev`next, list.prev`next, next`prev
    ensures Ring(h, Inserted(b, k, a))
    ensures list.next == old(list.next) && list.prev == old(list.prev)
  {
    InsertedIsDistinct(b, k, a);
    var first: ListHead := list.next;
    var last: ListHead := list.prev;
    first.prev := prev;
    prev.next := first;
    last.next := next;
    next.prev := last;
    ghost var r := Inserted(b, k, a);
    forall i | 0 <= i < |r|
      ensures r[i].next == if i + 1 < |r| then r[i + 1] else h
      ensures r[i].prev == if 0 < i then r[i - 1] else h
    {
      if i < k {
        assert r[i] == b[i];
      } else if i < k + |a| {
        assert r[i] == a[i - k];
      } else {
        assert r[i] == b[i - |a|];
      }
    }
  }

  /** Joins `list` in front of the entries of `head`. */
  method ListSplice(list: ListHead, head: ListHead, ghost a: seq<ListHead>, ghost b: seq<ListHead>)
    requires Ring(list, a) && Ring(head, b) && Apart(list, a, head, b)
    modifies list.next`prev, head`next, list.prev`next, head.next`prev
    ensures Ring(head, a + b)
    ensures list.next == old(list.next) && list.prev == old(list.prev)
  {
    QueriesAreExact(list, a);
    if !ListEmpty(list) {
      ListSpliceBetween(list, head, head.next, a, head, b, 0);
      assert Inserted(b, 0, a) == a + b;
    } else {
      assert a + b == b;
    }
  }

  /** Joins `list` behind the entries of `head`. */
  method ListSpliceTail(list: ListHead, head: ListHead, ghost a: seq<ListHead>, ghost b: seq<ListHead>)
    requires Ring(list, a) && Ring(head, b) && Apart(list, a, head, b)
    modifies list.next`prev, head.prev`next, list.prev`next, head`prev
    ensures Ring(head, b + a)
    ensures list.next == old(list.next) && list.prev == old(list.prev)
  {
    QueriesAreExact(list, a);
    if !ListEmpty(list) {
      ListSpliceBetween(list, head.prev, head, a, head, b, |b|);
      assert Inserted(b, |b|, a) == b + a;
    } else {
      assert b + a == b;
    }
  }

  method ListSpliceInit(list: ListHead, head: ListHead, ghost a: seq<ListHead>, ghost b: seq<ListHead>)
    requires Ring(list, a) && Ring(head, b) && Apart(list, a, head, b)
    modifies list`next, list`prev, list.next`prev, head`next, list.prev`next, head.next`prev
    ensures Ring(head, a + b) && Ring(list, [])
  {
    QueriesAreExact(list, a);
    if !ListEmpty(list) {
      ListSplice(list, head, a, b);
      InitListHead(list);
    } else {
      assert a + b == b;
    }
  }

  method ListSpliceTailInit(list: ListHead, head: ListHead, ghost a: seq<ListHead>, ghost b: seq<ListHead>)
    requires Ring(list, a) && Ring(head, b) && Apart(list, a, head, b)
    modifies list`next, list`prev, list.next`prev, head.prev`next, list.prev`next, head`prev
    ensures Ring(head, b + a) && Ring(list, [])
  {
    QueriesAreExact(list, a);
    if !ListEmpty(list) {
      ListSpliceTail(list, head, a, b);
      InitListHead(list);
    } else {
      assert b + a == b;
    }
  }

  /** Cutting a list at any entry into an empty list and splicing the piece back
      restores the list. */
  method CutThenSplice(list: ListHead, head: ListHead, entry: ListHead, ghost s: seq<ListHead>, ghost k: nat)
    requires Ring(head, s) && Ring(list, []) && list != head && list !in s
    requires |s| >= 2 ==> entry == head || entry in s
    requires entry in s ==> k < |s| && entry == s[k]
    requires entry != list
    modifies list`next, list`prev, head`next, head`prev, s`next, s`prev
    ensures Ring(head, s)
  {
    ListCutPosition(list, head, entry, s, k);
    ghost var front := if entry in s then s[..k + 1] else [];
    ghost var back := if entry in s then s[k + 1..] else s;
    assert s == front + back;
    ListSplice(list, head, front, back);
  }
}
