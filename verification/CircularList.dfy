/**
 The circular doubly linked list of lfdk/list.h: heap nodes whose next and prev pointers are reassigned in
 an order that matters, against the sequence of entries a head stands for.
 */
module CircularList {

  /** struct list_head; a new node is initialised by INIT_LIST_HEAD. */
  class Node {
    var next: Node
    var prev: Node

    constructor ()
      ensures next == this && prev == this
    {
      next, prev := this, this;
    }
  }

  /** Each node points to its successor, and each successor back. */
  ghost predicate Linked(c: seq<Node>)
    reads c
  {
    forall i, j :: 0 <= i && j == i + 1 && j < |c| ==> c[i].next == c[j] && c[j].prev == c[i]
  }

  ghost predicate Distinct(c: seq<Node>) {
    forall i, j :: 0 <= i < j < |c| ==> c[i] != c[j]
  }

  /** The ring of head holds the entries s, in this order. */
  ghost predicate Ring(head: Node, s: seq<Node>)
    reads head, s
  {
    Distinct([head] + s) && Linked([head] + s + [head])
  }

  ghost predicate Disjoint(c: seq<Node>, d: seq<Node>) {
    forall i, j :: 0 <= i < |c| && 0 <= j < |d| ==> c[i] != d[j]
  }

  ghost predicate Joined(x: Node, y: Node)
    reads x, y
  {
    x.next == y && y.prev == x
  }

  // ---------- facts about rings ----------

  lemma LinkedHalves(c: seq<Node>, d: seq<Node>)
    requires c != [] && d != []
    ensures Linked(c + d) <==> Linked(c) && Linked(d) && Joined(c[|c| - 1], d[0])
  {
    var e := c + d;
    assert e[|c| - 1] == c[|c| - 1] && e[|c|] == d[0];
    if Linked(e) {
      forall i, j | 0 <= i && j == i + 1 && j < |c|
        ensures c[i].next == c[j] && c[j].prev == c[i]
      {
        assert e[i] == c[i] && e[j] == c[j];
      }
      forall i, j | 0 <= i && j == i + 1 && j < |d|
        ensures d[i].next == d[j] && d[j].prev == d[i]
      {
        assert e[|c| + i] == d[i] && e[|c| + j] == d[j];
      }
    }
    if Linked(c) && Linked(d) && Joined(c[|c| - 1], d[0]) {
      forall i, j | 0 <= i && j == i + 1 && j < |e|
        ensures e[i].next == e[j] && e[j].prev == e[i]
      {
        if j < |c| {
          assert e[i] == c[i] && e[j] == c[j];
        } else if i >= |c| {
          assert e[i] == d[i - |c|] && e[j] == d[j - |c|];
        }
      }
    }
  }

  lemma DistinctHalves(c: seq<Node>, d: seq<Node>)
    ensures Distinct(c + d) <==> Distinct(c) && Distinct(d) && Disjoint(c, d)
  {
    var e := c + d;
    if Distinct(e) {
      forall i, j | 0 <= i < j < |d|
        ensures d[i] != d[j]
      {
        assert e[|c| + i] == d[i] && e[|c| + j] == d[j];
      }
      forall i, j | 0 <= i < j < |c|
        ensures c[i] != c[j]
      {
        assert e[i] == c[i] && e[j] == c[j];
      }
      forall i, j | 0 <= i < |c| && 0 <= j < |d|
        ensures c[i] != d[j]
      {
        assert e[i] == c[i] && e[|c| + j] == d[j];
      }
    }
  }

  /** The ring cut open between a and b, and behind its head. */
  ghost predicate Halves(head: Node, a: seq<Node>, b: seq<Node>)
    reads head, a, b
  {
    && Linked([head] + a) && Linked(b + [head]) && Joined(([head] + a)[|a|], (b + [head])[0])
    && Distinct([head] + a) && Distinct(b) && Disjoint([head] + a, b)
  }

  lemma Cut(head: Node, a: seq<Node>, b: seq<Node>)
    ensures Ring(head, a + b) <==> Halves(head, a, b)
  {
    assert [head] + (a + b) + [head] == ([head] + a) + (b + [head]);
    assert [head] + (a + b) == ([head] + a) + b;
    LinkedHalves([head] + a, b + [head]);
    DistinctHalves([head] + a, b);
  }

  lemma HeadIsNoEntry(head: Node, s: seq<Node>)
    requires Distinct([head] + s)
    ensures head !in s
  {
    var c := [head] + s;
    assert forall j :: 0 <= j < |s| ==> s[j] == c[j + 1] && c[0] != c[j + 1];
  }

  /** What a ring says about its front: the head's successor, and the chain behind the head. */
  lemma FrontEnd(head: Node, s: seq<Node>)
    requires Ring(head, s)
    ensures Linked(s + [head]) && Distinct(s) && Disjoint([head], s)
    ensures head.next == (s + [head])[0]
  {
    Cut(head, [], s);
    assert [] + s == s && [head] + [] == [head];
  }

  /** And about its back. */
  lemma BackEnd(head: Node, s: seq<Node>)
    requires Ring(head, s)
    ensures Linked([head] + s) && head.prev == ([head] + s)[|s|]
  {
    Cut(head, s, []);
    assert s + [] == s && [] + [head] == [head];
  }

  /** The chain between the two ends. */
  lemma Between(head: Node, s: seq<Node>)
    requires Ring(head, s)
    ensures Linked(s)
  {
    BackEnd(head, s);
    hide Ring;
    if s != [] {
      LinkedHalves([head], s);
    }
  }

  lemma Ends(head: Node, s: seq<Node>)
    requires Ring(head, s)
    ensures Linked(s) && Linked(s + [head]) && Distinct(s) && Disjoint([head], s)
    ensures head.next == (s + [head])[0] && head.prev == ([head] + s)[|s|]
  {
    FrontEnd(head, s);
    BackEnd(head, s);
    Between(head, s);
  }

  // ---------- queries ----------

  /** list_empty */
  method IsEmpty(head: Node, ghost s: seq<Node>) returns (empty: bool)
    requires Ring(head, s)
    ensures empty <==> s == []
  {
    ghost var c := [head] + s + [head];
    assert c[0].next == c[1];
    empty := head.next == head;
  }

  /** list_empty_careful */
  method IsEmptyCareful(head: Node, ghost s: seq<Node>) returns (empty: bool)
    requires Ring(head, s)
    ensures empty <==> s == []
  {
    ghost var c := [head] + s + [head];
    assert c[0].next == c[1] && c[|s| + 1].prev == c[|s|];
    var next := head.next;
    empty := next == head && next == head.prev;
  }

  /** list_is_last */
  method IsLast(entry: Node, head: Node, ghost a: seq<Node>, ghost b: seq<Node>) returns (last: bool)
    requires Ring(head, a + [entry] + b)
    ensures last <==> b == []
  {
    Cut(head, a + [entry], b);
    ghost var p := [head] + (a + [entry]);
    assert p[|a| + 1] == entry && p[0] == head;
    assert b != [] ==> p[0] != b[0];
    last := entry.next == head;
  }

  // ---------- insertion ----------

  /** __list_add between two consecutive nodes of a ring. */
  method AddBetween(entry: Node, prev: Node, next: Node, ghost head: Node, ghost a: seq<Node>, ghost b: seq<Node>)
    requires Ring(head, a + b) && entry !in [head] + a + b
    requires prev == ([head] + a)[|a|] && next == (b + [head])[0]
    modifies entry, prev`next, next`prev
    ensures Ring(head, a + [entry] + b)
  {
    Cut(head, a, b);
    ghost var p, q := [head] + a, b + [head];
    next.prev := entry;
    entry.next := next;
    entry.prev := prev;
    prev.next := entry;
    assert Linked(p);
    assert Linked(q);
    LinkedHalves(p, [entry]);
    assert p + [entry] == [head] + (a + [entry]);
    DistinctHalves(p, [entry]);
    Cut(head, a + [entry], b);
  }

  /** list_add */
  method Add(entry: Node, head: Node, ghost s: seq<Node>)
    requires Ring(head, s) && entry !in [head] + s
    modifies entry, head`next, head.next`prev
    ensures Ring(head, [entry] + s)
  {
    Cut(head, [], s);
    assert [] + s == s && [head] + [] == [head];
    AddBetween(entry, head, head.next, head, [], s);
    assert [] + [entry] + s == [entry] + s;
  }

  /** list_add_tail */
  method AddTail(entry: Node, head: Node, ghost s: seq<Node>)
    requires Ring(head, s) && entry !in [head] + s
    modifies entry, head`prev, head.prev`next
    ensures Ring(head, s + [entry])
  {
    Cut(head, s, []);
    assert s + [] == s && [] + [head] == [head];
    AddBetween(entry, head.prev, head, head, s, []);
    assert s + [entry] + [] == s + [entry];
  }

  // ---------- removal ----------

  /** __list_del for the neighbours of one entry. */
  method Unlink(prev: Node, next: Node, ghost entry: Node, ghost head: Node, ghost a: seq<Node>, ghost b: seq<Node>)
    requires Ring(head, a + [entry] + b)
    requires prev == ([head] + a)[|a|] && next == (b + [head])[0]
    modifies prev`next, next`prev
    ensures Ring(head, a + b) && Joined(prev, next)
  {
    Cut(head, a + [entry], b);
    ghost var p, q := [head] + a, b + [head];
    assert p + [entry] == [head] + (a + [entry]);
    LinkedHalves(p, [entry]);
    DistinctHalves(p, [entry]);
    assert Disjoint(p, b) by {
      assert forall i :: 0 <= i < |p| ==> (p + [entry])[i] == p[i];
    }
    next.prev := prev;
    prev.next := next;
    assert Linked(p);
    assert Linked(q);
    Cut(head, a, b);
  }

  /** The neighbours an entry of a ring points to. */
  lemma Neighbours(entry: Node, head: Node, a: seq<Node>, b: seq<Node>)
    requires Ring(head, a + [entry] + b)
    ensures entry.prev == ([head] + a)[|a|] && entry.next == (b + [head])[0]
    ensures entry !in [head] + a + b
  {
    Cut(head, a + [entry], b);
    var p := [head] + a;
    assert p + [entry] == [head] + (a + [entry]);
    LinkedHalves(p, [entry]);
    DistinctHalves(p, [entry]);
    assert (p + [entry])[|p|] == entry;
    assert [entry][0] == entry;
    forall i | 0 <= i < |p + b|
      ensures (p + b)[i] != entry
    {
      if i < |p| {
        assert p[i] != [entry][0];
      }
    }
    assert p + b == [head] + a + b;
  }

  /** list_del: the entry keeps its own pointers. */
  method Delete(entry: Node, ghost head: Node, ghost a: seq<Node>, ghost b: seq<Node>)
    requires Ring(head, a + [entry] + b)
    modifies entry.prev`next, entry.next`prev
    ensures Ring(head, a + b) && entry.next == old(entry.next) && entry.prev == old(entry.prev)
  {
    Neighbours(entry, head, a, b);
    Unlink(entry.prev, entry.next, entry, head, a, b);
  }

  /** list_del_init: the entry becomes an empty list of its own. */
  method DeleteInit(entry: Node, ghost head: Node, ghost a: seq<Node>, ghost b: seq<Node>)
    requires Ring(head, a + [entry] + b)
    modifies entry, entry.prev`next, entry.next`prev
    ensures Ring(head, a + b) && Ring(entry, []) && entry.next == entry && entry.prev == entry
  {
    Neighbours(entry, head, a, b);
    Unlink(entry.prev, entry.next, entry, head, a, b);
    Init(entry);
    assert Ring(head, a + b);
  }

  /** INIT_LIST_HEAD */
  method Init(list: Node)
    modifies list
    ensures Ring(list, []) && list.next == list && list.prev == list
  {
    list.next := list;
    list.prev := list;
  }

  // ---------- every node is a head ----------

  lemma Rotate(head: Node, a: seq<Node>, x: Node, b: seq<Node>)
    requires Ring(head, a + [x] + b)
    ensures Ring(x, b + [head] + a)
  {
    Cut(head, a + [x], b);
    assert [head] + (a + [x]) == [head] + a + [x];
    LinkedHalves([head], a + [x]);
    LinkedHalves([x], b + [head]);
    LinkedHalves([x] + (b + [head]), a + [x]);
    assert [x] + (b + [head] + a) + [x] == [x] + (b + [head]) + (a + [x]);
    RotatedDistinct(head, a, x, b);
  }

  lemma RotatedDistinct(head: Node, a: seq<Node>, x: Node, b: seq<Node>)
    requires Distinct([head] + a + [x]) && Distinct(b) && Disjoint([head] + a + [x], b)
    ensures Distinct([x] + (b + [head] + a))
  {
    DistinctHalves([head] + a, [x]);
    var p := [head] + a;
    assert forall i :: 0 <= i < |p| ==> (p + [x])[i] == p[i];
    assert (p + [x])[|p|] == x;
    assert Disjoint([x] + b, p) by {
      forall i, j | 0 <= i < |[x] + b| && 0 <= j < |p|
        ensures ([x] + b)[i] != p[j]
      {
        assert p[j] == (p + [x])[j] && (i > 0 ==> ([x] + b)[i] == b[i - 1]);
        assert [x][0] == x;
      }
    }
    assert Disjoint([x], b) by {
      assert forall j :: 0 <= j < |b| ==> (p + [x])[|p|] != b[j];
    }
    DistinctHalves([x], b);
    DistinctHalves([x] + b, p);
    assert [x] + b + p == [x] + (b + [head] + a);
  }

  // ---------- replacement ----------

  /** list_replace, where old is taken as the head of its ring: the new node heads the same entries. With
      no entries the second store goes through old's own prev, and that is what links new to itself. */
  method Replace(old_: Node, new_: Node, ghost s: seq<Node>)
    requires Ring(old_, s) && new_ !in [old_] + s
    modifies new_, old_.next`prev, old_.prev`next
    ensures Ring(new_, s)
  {
    ghost var c := [old_] + s;
    assert c + [old_] == [old_] + s + [old_];
    LinkedHalves(c, [old_]);
    if s != [] {
      LinkedHalves([old_], s);
      DistinctHalves([old_], s);
    }
    new_.next := old_.next;
    new_.next.prev := new_;
    new_.prev := old_.prev;
    new_.prev.next := new_;
    if s == [] {
      assert Linked([new_] + s + [new_]);
    } else {
      assert Linked(s);
      LinkedHalves([new_], s);
      LinkedHalves([new_] + s, [new_]);
      DistinctHalves([new_], s);
    }
  }

  /** list_replace of an entry: its place in the order goes to the new node. */
  method ReplaceEntry(entry: Node, new_: Node, ghost head: Node, ghost a: seq<Node>, ghost b: seq<Node>)
    requires Ring(head, a + [entry] + b) && new_ !in [head] + (a + [entry] + b)
    modifies new_, entry.next`prev, entry.prev`next
    ensures Ring(head, a + [new_] + b)
  {
    Rotate(head, a, entry, b);
    Replace(entry, new_, b + [head] + a);
    Rotate(new_, b, head, a);
  }

  /** list_replace_init */
  method ReplaceInit(old_: Node, new_: Node, ghost s: seq<Node>)
    requires Ring(old_, s) && new_ !in [old_] + s
    modifies new_, old_, old_.next`prev, old_.prev`next
    ensures Ring(new_, s) && Ring(old_, [])
  {
    HeadIsNoEntry(old_, s);
    Replace(old_, new_, s);
    Init(old_);
    assert Ring(new_, s);
  }

  // ---------- moving ----------

  /** list_move within one list. */
  method MoveToFront(entry: Node, head: Node, ghost a: seq<Node>, ghost b: seq<Node>)
    requires Ring(head, a + [entry] + b)
    modifies entry, entry.prev`next, entry.next`prev, head`next, head.next`prev
    ensures Ring(head, [entry] + (a + b))
  {
    Neighbours(entry, head, a, b);
    Unlink(entry.prev, entry.next, entry, head, a, b);
    assert entry !in [head] + (a + b);
    Add(entry, head, a + b);
  }

  /** list_move_tail within one list. */
  method MoveToBack(entry: Node, head: Node, ghost a: seq<Node>, ghost b: seq<Node>)
    requires Ring(head, a + [entry] + b)
    modifies entry, entry.prev`next, entry.next`prev, head`prev, head.prev`next
    ensures Ring(head, a + b + [entry])
  {
    Neighbours(entry, head, a, b);
    Unlink(entry.prev, entry.next, entry, head, a, b);
    assert entry !in [head] + (a + b);
    AddTail(entry, head, a + b);
  }

  lemma Separate(c: seq<Node>, d: seq<Node>, x: Node)
    requires Disjoint(c, d) && x in c
    ensures x !in d
  {}

  lemma SeparateRight(c: seq<Node>, d: seq<Node>, x: Node)
    requires Disjoint(c, d) && x in d
    ensures x !in c
  {}

  /** The nodes a move touches in one list are no nodes of the other. */
  lemma MovesApart(entry: Node, head: Node, t: seq<Node>, src: Node, a: seq<Node>, b: seq<Node>)
    requires Ring(src, a + [entry] + b) && Ring(head, t) && Disjoint([head] + t, [src] + (a + [entry] + b))
    ensures entry !in [head] + t && entry.prev !in [head] + t && entry.next !in [head] + t
    ensures head !in [src] + (a + b) && head.next !in [src] + (a + b) && head.prev !in [src] + (a + b)
    ensures entry !in [src] + (a + b)
  {
    var u, r := [head] + t, [src] + (a + [entry] + b);
    Neighbours(entry, src, a, b);
    Ends(head, t);
    assert entry in r && entry.prev in r && entry.next in r && head in u && head.next in u && head.prev in u;
    SeparateRight(u, r, entry);
    SeparateRight(u, r, entry.prev);
    SeparateRight(u, r, entry.next);
    Separate(u, r, head);
    Separate(u, r, head.next);
    Separate(u, r, head.prev);
    assert forall x :: x in [src] + (a + b) ==> x in r;
    assert [src] + a + b == [src] + (a + b);
  }

  /** list_move from one list to the front of another. */
  method MoveAcross(entry: Node, head: Node, ghost t: seq<Node>, ghost src: Node,
                    ghost a: seq<Node>, ghost b: seq<Node>)
    requires Ring(src, a + [entry] + b) && Ring(head, t) && Disjoint([head] + t, [src] + (a + [entry] + b))
    modifies entry, entry.prev`next, entry.next`prev, head`next, head.next`prev
    ensures Ring(src, a + b) && Ring(head, [entry] + t)
  {
    MovesApart(entry, head, t, src, a, b);
    Neighbours(entry, src, a, b);
    ghost var rest := a + b;
    hide *;
    Unlink(entry.prev, entry.next, entry, src, a, b);
    assert Ring(head, t);
    Add(entry, head, t);
    assert Ring(src, rest);
  }

  /** list_move_tail from one list to the end of another. */
  method MoveAcrossTail(entry: Node, head: Node, ghost t: seq<Node>, ghost src: Node,
                        ghost a: seq<Node>, ghost b: seq<Node>)
    requires Ring(src, a + [entry] + b) && Ring(head, t) && Disjoint([head] + t, [src] + (a + [entry] + b))
    modifies entry, entry.prev`next, entry.next`prev, head`prev, head.prev`next
    ensures Ring(src, a + b) && Ring(head, t + [entry])
  {
    MovesApart(entry, head, t, src, a, b);
    Neighbours(entry, src, a, b);
    ghost var rest := a + b;
    hide *;
    Unlink(entry.prev, entry.next, entry, src, a, b);
    assert Ring(head, t);
    AddTail(entry, head, t);
    assert Ring(src, rest);
  }

  // ---------- splicing ----------

  /** __list_splice: list's entries, none of them head's, go before the first entry of head. */
  method SpliceNonEmpty(list: Node, head: Node, ghost t: seq<Node>, ghost s: seq<Node>)
    requires t != [] && Ring(list, t) && Ring(head, s) && Disjoint([list] + t, [head] + s)
    modifies list.next`prev, list.prev`next, head`next, head.next`prev
    ensures Ring(head, t + s)
  {
    EntriesApart([list], t, [head], s);
    Ends(list, t);
    Ends(head, s);
    ghost var q := s + [head];
    var first, last, at := list.next, list.prev, head.next;
    assert [head][0] == head;
    assert last == t[|t| - 1] && first == t[0] && last != head && first != at;
    hide Ring, Disjoint;
    first.prev := head;
    head.next := first;
    last.next := at;
    at.prev := last;
    assert Linked(t);
    assert Linked(q);
    SplicedRing(head, t, s);
  }

  /** A chain of new entries in front of a chain of old ones. */
  lemma SplicedRing(head: Node, t: seq<Node>, s: seq<Node>)
    requires t != [] && Linked(t) && Linked(s + [head]) && Joined(head, t[0]) && Joined(t[|t| - 1], (s + [head])[0])
    requires Distinct(t) && Distinct(s) && Disjoint([head], s) && Disjoint([head], t) && Disjoint(t, s)
    ensures Ring(head, t + s)
  {
    LinkedHalves(t, s + [head]);
    LinkedHalves([head], t + (s + [head]));
    assert [head] + (t + (s + [head])) == [head] + (t + s) + [head];
    DistinctHalves(t, s);
    HeadApart(head, t, s);
    DistinctHalves([head], t + s);
  }

  lemma HeadApart(head: Node, t: seq<Node>, s: seq<Node>)
    requires Disjoint([head], s) && Disjoint([head], t)
    ensures Disjoint([head], t + s)
  {
    forall j | 0 <= j < |t + s|
      ensures [head][0] != (t + s)[j]
    {
      assert (t + s)[j] == if j < |t| then t[j] else s[j - |t|];
    }
  }

  lemma EntriesApart(h: seq<Node>, t: seq<Node>, h': seq<Node>, s: seq<Node>)
    requires Disjoint(h + t, h' + s)
    ensures Disjoint(t, s) && Disjoint(t, h') && Disjoint(h', t)
  {
    assert forall i :: 0 <= i < |t| ==> (h + t)[|h| + i] == t[i];
    assert forall i :: 0 <= i < |s| ==> (h' + s)[|h'| + i] == s[i];
    assert forall i :: 0 <= i < |h'| ==> (h' + s)[i] == h'[i];
  }

  /** list_splice: concatenation; list's own pointers are left as they were. */
  method Splice(list: Node, head: Node, ghost t: seq<Node>, ghost s: seq<Node>)
    requires Ring(list, t) && Ring(head, s) && Disjoint([list] + t, [head] + s)
    modifies list.next`prev, list.prev`next, head`next, head.next`prev
    ensures Ring(head, t + s)
  {
    var empty := IsEmpty(list, t);
    if empty {
      assert t + s == s;
    } else {
      SpliceNonEmpty(list, head, t, s);
    }
  }

  /** list_splice_init: concatenation, and an empty source. */
  method SpliceInit(list: Node, head: Node, ghost t: seq<Node>, ghost s: seq<Node>)
    requires Ring(list, t) && Ring(head, s) && Disjoint([list] + t, [head] + s)
    modifies list, list.next`prev, list.prev`next, head`next, head.next`prev
    ensures Ring(head, t + s) && Ring(list, [])
  {
    var empty := IsEmpty(list, t);
    if empty {
      assert t + s == s;
    } else {
      SourceApart(list, t, head, s);
      SpliceNonEmpty(list, head, t, s);
      Init(list);
      assert Ring(head, t + s);
    }
  }

  lemma SourceApart(list: Node, t: seq<Node>, head: Node, s: seq<Node>)
    requires Ring(list, t) && Disjoint([list] + t, [head] + s)
    ensures list != head && list !in t + s
  {
    HeadIsNoEntry(list, t);
    assert list in [list] + t;
    Separate([list] + t, [head] + s, list);
  }

  // ---------- safe traversal ----------

  /** The entries that stay. */
  ghost function Kept(s: seq<Node>, victims: set<Node>): seq<Node> {
    if s == [] then []
    else Kept(s[..|s| - 1], victims) + (if s[|s| - 1] in victims then [] else [s[|s| - 1]])
  }

  ghost predicate Detached(s: seq<Node>, victims: set<Node>)
    reads s
  {
    forall i :: 0 <= i < |s| && s[i] in victims ==> s[i].next == s[i] && s[i].prev == s[i]
  }

  lemma {:induction false} KeptMembers(s: seq<Node>, victims: set<Node>, x: Node)
    ensures x in Kept(s, victims) <==> x in s && x !in victims
  {
    if s != [] {
      KeptMembers(s[..|s| - 1], victims, x);
      assert s == s[..|s| - 1] + [s[|s| - 1]];
    }
  }

  lemma KeptSnoc(s: seq<Node>, x: Node, victims: set<Node>)
    ensures Kept(s + [x], victims) == Kept(s, victims) + (if x in victims then [] else [x])
  {
    assert (s + [x])[..|s|] == s;
  }

  /** A node already taken out is none of those the next removal touches. */
  lemma DetachedApart(head: Node, done: seq<Node>, pos: Node, todo: seq<Node>, victims: set<Node>, x: Node)
    requires Distinct([head] + (done + [pos] + todo)) && x in done && x in victims
    ensures x != head && x != pos && x !in todo && x !in Kept(done, victims)
  {
    KeptMembers(done, victims, x);
    HeadIsNoEntry(head, done + [pos] + todo);
    assert done + [pos] + todo == done + ([pos] + todo);
    DistinctHalves([head], done + ([pos] + todo));
    DistinctHalves(done, [pos] + todo);
    Separate(done, [pos] + todo, x);
  }

  /** The body of the traversal: pos is taken out, or stays behind those already kept. */
  method VisitSafely(pos: Node, victims: set<Node>, ghost head: Node, ghost done: seq<Node>, ghost todo: seq<Node>)
    requires Ring(head, Kept(done, victims) + [pos] + todo) && Detached(done, victims)
    requires Distinct([head] + (done + [pos] + todo))
    modifies pos, pos.prev`next, pos.next`prev
    ensures Ring(head, Kept(done + [pos], victims) + todo) && Detached(done + [pos], victims)
  {
    ghost var kept := Kept(done, victims);
    KeptSnoc(done, pos, victims);
    Neighbours(pos, head, kept, todo);
    forall x | x in done && x in victims
      ensures x != pos && x != pos.prev && x != pos.next
    {
      DetachedApart(head, done, pos, todo, victims, x);
    }
    hide Ring, Kept;
    if pos in victims {
      assert kept + [] == kept;
      DeleteInit(pos, head, kept, todo);
    }
    assert forall i :: 0 <= i < |done| ==> (done + [pos])[i] == done[i] && done[i] in done;
  }

  /** What the traversal knows at pos, before it touches anything. */
  lemma AtPos(pos: Node, head: Node, done: seq<Node>, todo: seq<Node>, victims: set<Node>, s: seq<Node>)
    requires s == done + todo && todo != [] && pos == todo[0] && Ring(head, Kept(done, victims) + todo)
    ensures Ring(head, Kept(done, victims) + [pos] + todo[1..]) && s == done + [pos] + todo[1..]
    ensures pos.next == (todo[1..] + [head])[0]
    ensures pos in s && (pos.prev == head || pos.prev in s) && (pos.next == head || pos.next in s)
  {
    var kept := Kept(done, victims);
    assert kept + todo == kept + [pos] + todo[1..];
    Neighbours(pos, head, kept, todo[1..]);
    if pos.prev != head {
      assert pos.prev in kept;
      KeptMembers(done, victims, pos.prev);
    }
  }

  /** list_for_each_safe with a body that takes some entries out and reinitialises them: every entry is
      visited once and in order, and the others stay. */
  method DeleteWhere(head: Node, victims: set<Node>, ghost s: seq<Node>) returns (visited: seq<Node>)
    requires Ring(head, s)
    modifies head, s
    ensures visited == s && Ring(head, Kept(s, victims)) && Detached(s, victims)
  {
    visited := [];
    ghost var todo := s;
    Ends(head, s);
    assert Kept([], victims) + s == s;
    assert Distinct([head] + s);
    var pos := head.next;
    var n := pos.next;
    hide Kept, Distinct, Ring;
    while pos != head
      invariant s == visited + todo && pos == (todo + [head])[0] && n == pos.next
      invariant Ring(head, Kept(visited, victims) + todo) && Detached(visited, victims)
      decreases |todo|
    {
      AtPos(pos, head, visited, todo, victims, s);
      hide Detached;
      todo := todo[1..];
      VisitSafely(pos, victims, head, visited, todo);
      visited := visited + [pos];
      pos := n;
      n := pos.next;
    }
    HeadNotLeft(head, Kept(visited, victims), todo);
    assert visited + [] == visited;
  }

  lemma HeadNotLeft(head: Node, kept: seq<Node>, todo: seq<Node>)
    requires Ring(head, kept + todo) && head == (todo + [head])[0]
    ensures todo == [] && kept + todo == kept
  {
    assert todo != [] ==> todo[0] in kept + todo;
    HeadIsNoEntry(head, kept + todo);
  }
}
