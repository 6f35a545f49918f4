/**
 The handle registry of generation records (src/core/compact.c:327-404, 1605-1732, 1884-1897): each
 record heads an intrusive doubly linked list of its handles and counts them; a hand-over moves the
 writable ones to another record.
 */
module Registry {
  import opened Basics
  import opened Lists

  class Handle {
    const writable: bool
    var record: Record?
    var previous: Handle?
    var next: Handle?

    constructor (writable: bool)
      ensures this.writable == writable && record == null && previous == null && next == null
    {
      this.writable, record, previous, next := writable, null, null, null;
    }
  }

  /** The number of writable handles. */
  ghost function Writers(l: seq<Handle>): nat {
    if l == [] then 0 else (if l[0].writable then 1 else 0) + Writers(l[1..])
  }

  ghost function Following(l: seq<Handle>, i: int): Handle?
    requires 0 <= i < |l|
  {
    if i + 1 < |l| then l[i + 1] else null
  }

  ghost function Preceding(l: seq<Handle>, i: int): Handle?
    requires 0 <= i < |l|
  {
    if i > 0 then l[i - 1] else null
  }

  ghost predicate Linked(l: seq<Handle>, head: Handle?)
    reads l`next, l`previous
  {
    && head == (if l == [] then null else l[0]) && Distinct(l)
    && forall i :: 0 <= i < |l| ==> l[i].next == Following(l, i) && l[i].previous == Preceding(l, i)
  }

  /** Every handle of the list points back to the record. */
  ghost predicate PointsTo(l: seq<Handle>, r: Record)
    reads l`record
  {
    forall i :: 0 <= i < |l| ==> l[i].record == r
  }

  lemma {:induction false} WritersWithout(l: seq<Handle>, i: nat)
    requires i < |l|
    ensures Writers(l) == Writers(Without(l, i)) + if l[i].writable then 1 else 0
    decreases i
  {
    if i == 0 {
      assert Without(l, 0) == l[1..];
    } else {
      WritersWithout(l[1..], i - 1);
      assert Without(l, i)[1..] == Without(l[1..], i - 1) && Without(l, i)[0] == l[0];
    }
  }

  lemma WithoutFacts(l: seq<Handle>, i: nat)
    requires i < |l| && Distinct(l)
    ensures Distinct(Without(l, i))
    ensures forall k :: 0 <= k < |l| - 1 ==>
              var m := if k < i then k else k + 1;
              && Without(l, i)[k] == l[m]
              && Following(Without(l, i), k) == (if m == i - 1 then Following(l, i) else Following(l, m))
              && Preceding(Without(l, i), k) == (if m == i + 1 then Preceding(l, i) else Preceding(l, m))
    ensures (if Without(l, i) == [] then null else Without(l, i)[0]) == (if Preceding(l, i) == null then Following(l, i) else l[0])
  {
  }

  lemma Relinked(l: seq<Handle>, i: nat, head: Handle?)
    requires i < |l| && Distinct(l)
    requires forall m :: 0 <= m < |l| && m != i ==> l[m].next == (if m == i - 1 then Following(l, i) else Following(l, m))
    requires forall m :: 0 <= m < |l| && m != i ==> l[m].previous == (if m == i + 1 then Preceding(l, i) else Preceding(l, m))
    requires head == (if Preceding(l, i) == null then Following(l, i) else l[0])
    ensures Linked(Without(l, i), head)
  {
    hide Following, Preceding, Without, Distinct;
    WithoutFacts(l, i);
    var r := Without(l, i);
    forall k | 0 <= k < |r|
      ensures r[k].next == Following(r, k) && r[k].previous == Preceding(r, k)
    {
      assert r[k] == l[if k < i then k else k + 1];
    }
  }

  lemma Prepended(l: seq<Handle>, head: Handle?, h: Handle)
    requires Distinct(l) && head == (if l == [] then null else l[0]) && (forall i :: 0 <= i < |l| ==> l[i] != h)
    requires h.next == head && h.previous == null
    requires forall i :: 0 <= i < |l| ==> l[i].next == Following(l, i) && l[i].previous == if i == 0 then h else Preceding(l, i)
    ensures Linked([h] + l, h)
  {
    var r := [h] + l;
    forall i | 0 <= i < |r|
      ensures r[i].next == Following(r, i) && r[i].previous == Preceding(r, i)
    {
      if i > 0 { assert r[i] == l[i - 1]; }
      if i > 1 { assert r[i - 1] == l[i - 2]; }
      if i + 1 < |r| { assert r[i + 1] == l[i]; }
    }
  }

  class Record {
    var openRefs: nat
    var writerRefs: nat
    var handles: Handle?
    var superseded: bool
    ghost var list: seq<Handle>

    ghost predicate Valid()
      reads this, list
    {
      && Linked(list, handles) && PointsTo(list, this)
      && openRefs == |list| && writerRefs == Writers(list)
    }

    constructor ()
      ensures Valid() && list == [] && !superseded
    {
      openRefs, writerRefs, handles, superseded, list := 0, 0, null, false, [];
    }

    /** Put `h` in front of the list. */
    method Link(h: Handle)
      requires Linked(list, handles) && (forall i :: 0 <= i < |list| ==> list[i] != h)
      modifies this`handles, this`list, h`previous, h`next, list`previous
      ensures list == [h] + old(list) && Linked(list, handles)
    {
      ghost var l := list;
      h.previous := null;
      h.next := handles;
      if handles != null {
        handles.previous := h;
      }
      Prepended(l, handles, h);
      handles, list := h, [h] + l;
    }

    /** Take the handle at position `i` out of the list. */
    method UnlinkHandle(h: Handle, ghost i: nat)
      requires Linked(list, handles) && i < |list| && list[i] == h
      modifies this`handles, this`list, list`previous, list`next
      ensures list == Without(old(list), i) && Linked(list, handles)
      ensures h.next == old(h.next) && h.previous == old(h.previous)
    {
      hide Without, Distinct, Following, Preceding;
      JoinNext(h, i);
      JoinPrevious(h, i);
      Relinked(list, i, handles);
      list := Without(list, i);
    }

    method JoinNext(h: Handle, ghost i: nat)
      requires Linked(list, handles) && i < |list| && list[i] == h
      modifies this`handles, list`next
      ensures h.next == old(h.next)
      ensures forall m :: 0 <= m < |list| && m != i ==> list[m].next == (if m == i - 1 then Following(list, i) else Following(list, m))
      ensures handles == (if Preceding(list, i) == null then Following(list, i) else list[0])
    {
      assert h.previous == Preceding(list, i) && h.next == Following(list, i);
      if h.previous != null {
        h.previous.next := h.next;
      } else {
        handles := h.next;
      }
    }

    method JoinPrevious(h: Handle, ghost i: nat)
      requires Distinct(list) && i < |list| && list[i] == h && h.next == Following(list, i)
      requires forall m :: 0 <= m < |list| ==> list[m].previous == Preceding(list, m)
      modifies list`previous
      ensures h.previous == old(h.previous)
      ensures forall m :: 0 <= m < |list| && m != i ==>
                list[m].previous == (if m == i + 1 then Preceding(list, i) else Preceding(list, m))
    {
      if h.next != null {
        h.next.previous := h.previous;
      }
    }

    /** `attach_handle_to_record`: a writable handle that has just left another record. */
    method AttachHandle(h: Handle)
      requires Valid() && h.record != this && h.writable
      modifies this`openRefs, this`writerRefs, this`handles, this`list, h`record, h`previous, h`next, list`previous
      ensures Valid() && list == [h] + old(list) && h.record == this
      ensures openRefs == old(openRefs) + 1 && writerRefs == old(writerRefs) + 1
    {
      NotListed(h);
      Link(h);
      openRefs := openRefs + 1;
      writerRefs := writerRefs + 1;
      h.record := this;
      assert list[1..] == old(list);
    }

    /** The writable handles, in list order. */
    method CollectWriters() returns (prepared: seq<Handle>)
      requires Valid()
      ensures prepared == Filter(list, true)
    {
      prepared := [];
      var h := handles;
      ghost var i := 0;
      assert list[0..] == list;
      while h != null
        invariant 0 <= i <= |list| && h == (if i < |list| then list[i] else null)
        invariant prepared + Filter(list[i..], true) == Filter(list, true)
        decreases |list| - i
      {
        assert h.next == Following(list, i);
        assert list[i..][1..] == list[i + 1..] && list[i..][0] == h;
        if h.writable { prepared := prepared + [h]; }
        h, i := h.next, i + 1;
      }
      assert list[|list|..] == [];
    }

    /** `register_generation_handle_locked`. */
    method Register(h: Handle)
      requires Valid() && h.record == null
      modifies this`openRefs, this`writerRefs, this`handles, this`list, h`record, h`previous, h`next, list`previous
      ensures Valid() && list == [h] + old(list) && h.record == this
      ensures openRefs == old(openRefs) + 1 && writerRefs == old(writerRefs) + (if h.writable then 1 else 0)
    {
      NotListed(h);
      openRefs := openRefs + 1;
      if h.writable { writerRefs := writerRefs + 1; }
      h.record := this;
      Link(h);
      assert list[1..] == old(list);
    }

    /** A handle of another record, or of none, is not in the list. */
    lemma NotListed(h: Handle)
      requires Valid() && h.record != this
      ensures forall i :: 0 <= i < |list| ==> list[i] != h
    {
    }

    /** `unregister_generation_handle_locked`, up to the reclaim decision. */
    method Unregister(h: Handle, ghost i: nat)
      requires Valid() && i < |list| && list[i] == h
      modifies this`openRefs, this`writerRefs, this`handles, this`list, list`record, list`previous, list`next
      ensures Valid() && list == Without(old(list), i) && h.record == null && h.previous == null && h.next == null
      ensures openRefs == old(openRefs) - 1 && writerRefs == old(writerRefs) - (if h.writable then 1 else 0)
    {
      DetachHandle(h, i);
      h.previous, h.next, h.record := null, null, null;
    }

    /** `detach_handle_from_record`, for handles of either kind. */
    method DetachHandle(h: Handle, ghost i: nat)
      requires Valid() && i < |list| && list[i] == h
      modifies this`openRefs, this`writerRefs, this`handles, this`list, list`previous, list`next
      ensures Valid() && list == Without(old(list), i) && h.record == this
      ensures forall k :: 0 <= k < |list| ==> list[k] != h
      ensures openRefs == old(openRefs) - 1 && writerRefs == old(writerRefs) - (if h.writable then 1 else 0)
    {
      hide Linked;
      WritersWithout(list, i);
      if openRefs > 0 { openRefs := openRefs - 1; }
      if h.writable && writerRefs > 0 { writerRefs := writerRefs - 1; }
      LinkedDistinct(list, handles);
      WithoutPoints(list, i, this);
      UnlinkHandle(h, i);
    }
  }

  lemma LinkedDistinct(l: seq<Handle>, head: Handle?)
    requires Linked(l, head)
    ensures Distinct(l)
  {
  }

  lemma WithoutPoints(l: seq<Handle>, i: nat, r: Record)
    requires i < |l| && Distinct(l) && PointsTo(l, r)
    ensures PointsTo(Without(l, i), r) && forall k :: 0 <= k < |l| - 1 ==> Without(l, i)[k] != l[i]
  {
  }

  /** The handles of one kind, in order. */
  ghost function Filter(l: seq<Handle>, writable: bool): seq<Handle> {
    if l == [] then [] else (if l[0].writable == writable then [l[0]] else []) + Filter(l[1..], writable)
  }

  /** The handles of `l` that are not in `gone`, in order. */
  ghost function Minus(l: seq<Handle>, gone: set<Handle>): seq<Handle> {
    if l == [] then [] else (if l[0] in gone then [] else [l[0]]) + Minus(l[1..], gone)
  }

  ghost function Reversed(l: seq<Handle>): seq<Handle> {
    if l == [] then [] else Reversed(l[1..]) + [l[0]]
  }

  lemma {:induction false} MinusNothing(l: seq<Handle>)
    ensures Minus(l, {}) == l
  {
    if l != [] { MinusNothing(l[1..]); }
  }

  lemma {:induction false} MinusHolds(l: seq<Handle>, gone: set<Handle>, i: nat) returns (k: nat)
    requires i < |l| && l[i] !in gone
    ensures k < |Minus(l, gone)| && Minus(l, gone)[k] == l[i]
    decreases i
  {
    if i == 0 {
      k := 0;
    } else {
      k := MinusHolds(l[1..], gone, i - 1);
      k := if l[0] in gone then k else k + 1;
    }
  }

  lemma {:induction false} MinusFrom(l: seq<Handle>, gone: set<Handle>, k: nat) returns (i: nat)
    requires k < |Minus(l, gone)|
    ensures i < |l| && Minus(l, gone)[k] == l[i]
    decreases |l|
  {
    if l[0] !in gone && k == 0 {
      i := 0;
    } else {
      i := MinusFrom(l[1..], gone, if l[0] in gone then k else k - 1);
      i := i + 1;
    }
  }

  lemma {:induction false} MinusOneMore(l: seq<Handle>, gone: set<Handle>, k: nat)
    requires Distinct(l) && k < |Minus(l, gone)|
    ensures Without(Minus(l, gone), k) == Minus(l, gone + {Minus(l, gone)[k]})
    decreases |l|
  {
    var h := Minus(l, gone)[k];
    if l[0] !in gone && k == 0 {
      MinusAbsent(l[1..], gone, h);
    } else {
      var j := if l[0] in gone then k else k - 1;
      MinusOneMore(l[1..], gone, j);
      var i := MinusFrom(l[1..], gone, j);
      assert l[0] != l[1..][i];
      assert Without(Minus(l, gone), k) == (if l[0] in gone then [] else [l[0]]) + Without(Minus(l[1..], gone), j);
    }
  }

  lemma {:induction false} MinusAbsent(l: seq<Handle>, gone: set<Handle>, h: Handle)
    requires forall i :: 0 <= i < |l| ==> l[i] != h
    ensures Minus(l, gone + {h}) == Minus(l, gone)
  {
    if l != [] { MinusAbsent(l[1..], gone, h); }
  }

  lemma {:induction false} MinusWriters(l: seq<Handle>, gone: set<Handle>)
    requires forall i :: 0 <= i < |l| ==> (l[i] in gone <==> l[i].writable)
    ensures Minus(l, gone) == Filter(l, false)
  {
    if l != [] { MinusWriters(l[1..], gone); }
  }

  lemma {:induction false} NoWriters(l: seq<Handle>)
    ensures Writers(Filter(l, false)) == 0
  {
    if l != [] {
      NoWriters(l[1..]);
      if l[0].writable {
        assert Filter(l, false) == Filter(l[1..], false);
      } else {
        assert Filter(l, false)[1..] == Filter(l[1..], false) && Filter(l, false)[0] == l[0];
      }
    }
  }

  lemma {:induction false} ReversedMore(l: seq<Handle>, i: nat)
    requires i < |l|
    ensures Reversed(l[..i + 1]) == [l[i]] + Reversed(l[..i])
  {
    if i == 0 {
      assert l[..1][1..] == [] && l[..0] == [];
    } else {
      ReversedMore(l[1..], i - 1);
      assert l[..i + 1][1..] == l[1..][..i] && l[..i][1..] == l[1..][..i - 1] && l[1..][i - 1] == l[i];
    }
  }

  ghost function Elements(l: seq<Handle>): set<Handle> { set i | 0 <= i < |l| :: l[i] }

  lemma ElementsWithout(l: seq<Handle>, k: nat)
    requires Distinct(l) && k < |l|
    ensures Elements(Without(l, k)) == Elements(l) - {l[k]} && l[k] in Elements(l)
  {
    var r := Without(l, k);
    forall i | 0 <= i < |l| && i != k
      ensures l[i] in Elements(r)
    {
      assert r[if i < k then i else i - 1] == l[i];
    }
    forall i | 0 <= i < |r|
      ensures r[i] in Elements(l) && r[i] != l[k]
    {
      assert r[i] == l[if i < k then i else i + 1];
    }
  }

  lemma ElementsPrepended(l: seq<Handle>, h: Handle)
    ensures Elements([h] + l) == {h} + Elements(l)
  {
    var r := [h] + l;
    assert r[0] == h;
    forall i | 0 <= i < |l|
      ensures l[i] in Elements(r)
    {
      assert r[i + 1] == l[i];
    }
  }

  /** `prepared` lists the writers of `l`, each once, in any order. */
  ghost predicate ListsWriters(prepared: seq<Handle>, l: seq<Handle>) {
    && Distinct(prepared)
    && (forall i :: 0 <= i < |prepared| ==> prepared[i].writable && prepared[i] in Elements(l))
    && (forall i :: 0 <= i < |l| && l[i].writable ==> l[i] in Elements(prepared))
  }

  /** State of the hand-over after `i` handles. */
  ghost predicate Moving(was: Record, now: Record, prepared: seq<Handle>, i: nat, wasList: seq<Handle>, nowList: seq<Handle>)
    reads was, was.list, now, now.list
  {
    && i <= |prepared| && was.Valid() && now.Valid()
    && was.list == Minus(wasList, Elements(prepared[..i]))
    && now.list == Reversed(prepared[..i]) + nowList
    && was.openRefs + now.openRefs == |wasList| + |nowList|
    && was.writerRefs + now.writerRefs == Writers(wasList) + Writers(nowList)
  }

  lemma NextInList(wasList: seq<Handle>, prepared: seq<Handle>, i: nat) returns (k: nat)
    requires i < |prepared| && ListsWriters(prepared, wasList)
    ensures k < |Minus(wasList, Elements(prepared[..i]))| && Minus(wasList, Elements(prepared[..i]))[k] == prepared[i]
  {
    assert prepared[i] in Elements(wasList);
    var j :| 0 <= j < |wasList| && wasList[j] == prepared[i];
    assert forall m :: 0 <= m < i ==> prepared[m] != prepared[i];
    k := MinusHolds(wasList, Elements(prepared[..i]), j);
  }

  /** One writer changes records. */
  method MoveOne(was: Record, now: Record, h: Handle, ghost prepared: seq<Handle>, ghost i: nat,
                 ghost wasList: seq<Handle>, ghost nowList: seq<Handle>)
    requires was != now && i < |prepared| && prepared[i] == h && Distinct(wasList) && ListsWriters(prepared, wasList)
    requires Moving(was, now, prepared, i, wasList, nowList)
    modifies was, now, was.list, now.list
    ensures Moving(was, now, prepared, i + 1, wasList, nowList)
    ensures Elements(was.list) + Elements(now.list) == old(Elements(was.list) + Elements(now.list))
  {
    hide Minus, Reversed, Writers, Linked, Without;
    LinkedDistinct(was.list, was.handles);
    ghost var k := NextInList(wasList, prepared, i);
    MinusOneMore(wasList, Elements(prepared[..i]), k);
    ReversedMore(prepared, i);
    assert Elements(prepared[..i + 1]) == Elements(prepared[..i]) + {h};
    ElementsWithout(was.list, k);
    ElementsPrepended(now.list, h);
    was.DetachHandle(h, k);
    now.AttachHandle(h);
    assert now.list == Reversed(prepared[..i + 1]) + nowList;
  }

  lemma StartMoving(was: Record, now: Record, prepared: seq<Handle>)
    requires was.Valid() && now.Valid()
    ensures Moving(was, now, prepared, 0, was.list, now.list)
  {
    assert prepared[..0] == [] && Elements(prepared[..0]) == {};
    MinusNothing(was.list);
  }

  lemma DoneMoving(prepared: seq<Handle>, wasList: seq<Handle>)
    requires ListsWriters(prepared, wasList)
    ensures prepared[..|prepared|] == prepared
    ensures Minus(wasList, Elements(prepared)) == Filter(wasList, false) && Writers(Filter(wasList, false)) == 0
  {
    assert prepared[..|prepared|] == prepared;
    MinusWriters(wasList, Elements(prepared));
    NoWriters(wasList);
  }

  lemma WithinFrame(a: seq<Handle>, b: seq<Handle>, l: seq<Handle>, m: seq<Handle>)
    requires Elements(a) + Elements(b) == Elements(l) + Elements(m)
    ensures forall i :: 0 <= i < |a| ==> a[i] in l || a[i] in m
    ensures forall i :: 0 <= i < |b| ==> b[i] in l || b[i] in m
  {
    forall i | 0 <= i < |a| ensures a[i] in l || a[i] in m { assert a[i] in Elements(a) + Elements(b); }
    forall i | 0 <= i < |b| ensures b[i] in l || b[i] in m { assert b[i] in Elements(a) + Elements(b); }
  }

  /**
   The registry transaction of a hand-over: exactly the writers leave `was`, its readers stay in
   order, the writers head the list of `now`, and no reference is lost or made up.
   */
  method HandOver(was: Record, now: Record, prepared: seq<Handle>)
    requires was != now && was.Valid() && now.Valid() && ListsWriters(prepared, was.list)
    modifies was, now, was.list, now.list
    ensures was.Valid() && now.Valid()
    ensures was.list == Filter(old(was.list), false) && was.writerRefs == 0
    ensures now.list == Reversed(prepared) + old(now.list)
    ensures was.openRefs + now.openRefs == old(was.openRefs + now.openRefs)
    ensures was.writerRefs + now.writerRefs == old(was.writerRefs + now.writerRefs)
  {
    hide Minus, Filter, Reversed, Writers, Linked, ListsWriters, PointsTo, Elements, Distinct;
    ghost var wasList, nowList := was.list, now.list;
    StartMoving(was, now, prepared);
    LinkedDistinct(was.list, was.handles);
    for i := 0 to |prepared|
      invariant Moving(was, now, prepared, i, wasList, nowList)
      invariant Elements(was.list) + Elements(now.list) == Elements(wasList) + Elements(nowList)
    {
      hide *;
      WithinFrame(was.list, now.list, wasList, nowList);
      MoveOne(was, now, prepared[i], prepared, i, wasList, nowList);
    }
    DoneMoving(prepared, wasList);
  }

  /** A handle is in the list of one record only, and there once. */
  lemma InExactlyOneList(r: Record, q: Record, i: nat, j: nat)
    requires r.Valid() && q.Valid() && i < |r.list| && j < |q.list| && r.list[i] == q.list[j]
    ensures r == q && i == j
  {
    assert r.list[i].record == r && q.list[j].record == q;
  }

  lemma {:induction false} FilterFrom(l: seq<Handle>, writable: bool, k: nat) returns (i: nat)
    requires k < |Filter(l, writable)|
    ensures i < |l| && Filter(l, writable)[k] == l[i] && l[i].writable == writable
    decreases |l|
  {
    if l[0].writable == writable && k == 0 {
      i := 0;
    } else {
      i := FilterFrom(l[1..], writable, if l[0].writable == writable then k - 1 else k);
      i := i + 1;
    }
  }

  lemma {:induction false} FilterHolds(l: seq<Handle>, writable: bool, i: nat) returns (k: nat)
    requires i < |l| && l[i].writable == writable
    ensures k < |Filter(l, writable)| && Filter(l, writable)[k] == l[i]
    decreases i
  {
    if i == 0 {
      k := 0;
    } else {
      k := FilterHolds(l[1..], writable, i - 1);
      k := if l[0].writable == writable then k + 1 else k;
    }
  }

  lemma {:induction false} FilterDistinct(l: seq<Handle>, writable: bool)
    requires Distinct(l)
    ensures Distinct(Filter(l, writable))
  {
    if l != [] {
      FilterDistinct(l[1..], writable);
      var rest := Filter(l[1..], writable);
      forall k | 0 <= k < |rest|
        ensures rest[k] != l[0]
      {
        var i := FilterFrom(l[1..], writable, k);
        assert l[1..][i] == l[i + 1];
      }
    }
  }

  /** What `CollectWriters` gathers is what a hand-over has to move. */
  lemma CollectedAreTheWriters(l: seq<Handle>)
    requires Distinct(l)
    ensures ListsWriters(Filter(l, true), l)
  {
    var prepared := Filter(l, true);
    FilterDistinct(l, true);
    forall k | 0 <= k < |prepared|
      ensures prepared[k].writable && prepared[k] in Elements(l)
    {
      var i := FilterFrom(l, true, k);
    }
    forall i | 0 <= i < |l| && l[i].writable
      ensures l[i] in Elements(prepared)
    {
      var k := FilterHolds(l, true, i);
    }
  }
}
