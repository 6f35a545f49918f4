/**
 The lock table in memory: 64 shards of 64 doubly linked bucket lists (src/core/lock.c:34-201) and
 the single linked list it replaces (benchmarks/fixtures/lock_table_linear.c).  Both are proved to
 keep the same map from paths to reference counts.
 */
module LockTable {
  import opened Basics
  import opened Lists

  const SHARDS: int := 64
  const BUCKETS: int := 64
  const UINT_MAX: int := 0xFFFF_FFFF
  const PATH_MAX: int := 4096

  /** What a table means: the number of references per path. */
  type Refs = map<string, nat>

  function Count(refs: Refs, path: string): nat { if path in refs then refs[path] else 0 }

  /** One more reference to `path`. */
  function Taken(refs: Refs, path: string): Refs { refs[path := Count(refs, path) + 1] }

  /** One reference fewer; the last one takes the entry with it. */
  function Dropped(refs: Refs, path: string): Refs {
    if Count(refs, path) <= 1 then refs - {path} else refs[path := Count(refs, path) - 1]
  }

  class Entry {
    const path: string
    const slot: nat
    var refs: nat
    var previous: Entry?
    var next: Entry?

    constructor (path: string, slot: nat)
      ensures this.path == path && this.slot == slot && refs == 1 && previous == null && next == null
    {
      this.path, this.slot, refs, previous, next := path, slot, 1, null, null;
    }
  }

  ghost function Following(l: seq<Entry>, i: int): Entry?
    requires 0 <= i < |l|
  {
    if i + 1 < |l| then l[i + 1] else null
  }

  ghost function Preceding(l: seq<Entry>, i: int): Entry?
    requires 0 <= i < |l|
  {
    if i > 0 then l[i - 1] else null
  }

  /** `l` is the doubly linked list that starts at `head`. */
  ghost predicate Linked(l: seq<Entry>, head: Entry?)
    reads l`next, l`previous
  {
    && head == (if l == [] then null else l[0])
    && (forall i, j :: 0 <= i < j < |l| ==> l[i] != l[j])
    && forall i :: 0 <= i < |l| ==> l[i].next == Following(l, i) && l[i].previous == Preceding(l, i)
  }

  /** Put a new entry in front. */
  method Push(e: Entry, head: Entry?, ghost l: seq<Entry>)
    requires Linked(l, head) && e !in l && e.previous == null
    modifies e`next, l`previous
    ensures Linked([e] + l, e)
  {
    e.next := head;
    if e.next != null {
      assert e.next == l[0];
      e.next.previous := e;
    }
    ghost var l' := [e] + l;
    forall i | 0 <= i < |l'|
      ensures l'[i].next == Following(l', i) && l'[i].previous == Preceding(l', i)
    {
      if i > 0 { assert l'[i] == l[i - 1]; }
      if i + 1 < |l'| { assert l'[i + 1] == l[i]; }
    }
  }

  /** `unlink_entry`: take `e` out, whatever its place in the list. */
  method Unlink(e: Entry, head: Entry?, ghost l: seq<Entry>, ghost i: int) returns (newHead: Entry?)
    requires Linked(l, head) && 0 <= i < |l| && l[i] == e
    modifies l`next, l`previous
    ensures Linked(Without(l, i), newHead)
  {
    newHead := head;
    hide Without;
    assert e.previous == Preceding(l, i) && e.next == Following(l, i);
    if e.previous != null {
      e.previous.next := e.next;
    } else {
      newHead := e.next;
    }
    assert forall m :: 0 <= m < |l| && m != i ==> l[m].next == (if m == i - 1 then Following(l, i) else Following(l, m));
    if e.next != null {
      e.next.previous := e.previous;
    }
    assert forall m :: 0 <= m < |l| && m != i ==> l[m].previous == (if m == i + 1 then Preceding(l, i) else Preceding(l, m));
    Relinked(l, i, newHead);
  }

  /** With the neighbours of `l[i]` joined, the rest is a list again. */
  lemma Relinked(l: seq<Entry>, i: nat, head: Entry?)
    requires i < |l| && Distinct(l)
    requires forall m :: 0 <= m < |l| && m != i ==> l[m].next == (if m == i - 1 then Following(l, i) else Following(l, m))
    requires forall m :: 0 <= m < |l| && m != i ==> l[m].previous == (if m == i + 1 then Preceding(l, i) else Preceding(l, m))
    requires head == (if Preceding(l, i) == null then Following(l, i) else l[0])
    ensures Linked(Without(l, i), head)
  {
    hide Following, Preceding, Without;
    var r := Without(l, i);
    forall k | 0 <= k < |r|
      ensures r[k].next == Following(r, k) && r[k].previous == Preceding(r, k)
    {
      WithoutNeighbours(l, i, k);
    }
    WithoutDistinct(l, i);
    WithoutHead(l, i);
  }

  lemma WithoutHead(l: seq<Entry>, i: nat)
    requires i < |l|
    ensures var r := Without(l, i);
            (if r == [] then null else r[0]) == (if Preceding(l, i) == null then Following(l, i) else l[0])
  {
  }

  lemma WithoutNeighbours(l: seq<Entry>, i: nat, k: nat)
    requires i < |l| && k < |l| - 1
    ensures var r := Without(l, i); var m := if k < i then k else k + 1;
            && r[k] == l[m] && m != i
            && Following(r, k) == (if m == i - 1 then Following(l, i) else Following(l, m))
            && Preceding(r, k) == (if m == i + 1 then Preceding(l, i) else Preceding(l, m))
  {
  }

  lemma WithoutDistinct(l: seq<Entry>, i: nat)
    requires i < |l| && Distinct(l)
    ensures Distinct(Without(l, i))
    ensures forall x :: x in Without(l, i) <==> x in l && x != l[i]
  {
    var r := Without(l, i);
    forall x | x in l && x != l[i]
      ensures x in r
    {
      var m :| 0 <= m < |l| && l[m] == x;
      assert r[if m < i then m else m - 1] == x;
    }
  }

  // ----- all the buckets

  /** Every entry of `l` was made for slot `k`. */
  ghost predicate InSlot(l: seq<Entry>, k: nat) {
    forall i :: 0 <= i < |l| ==> l[i].slot == k
  }

  ghost predicate Apart(l: seq<Entry>, m: seq<Entry>) {
    forall i, j :: 0 <= i < |l| && 0 <= j < |m| ==> l[i] != m[j]
  }

  ghost predicate Owned(l: seq<Entry>, repr: set<Entry>) {
    forall i :: 0 <= i < |l| ==> l[i] in repr
  }

  ghost predicate NotIn(e: Entry, l: seq<Entry>) {
    forall i :: 0 <= i < |l| ==> l[i] != e
  }

  lemma SlotsApart(l: seq<Entry>, j: nat, m: seq<Entry>, k: nat)
    requires InSlot(l, j) && InSlot(m, k) && j != k
    ensures Apart(l, m)
  {
  }

  ghost predicate Listed(e: Entry, l: seq<Entry>) {
    exists i :: 0 <= i < |l| && l[i] == e
  }

  /** The bucket lists hold exactly `repr`, every entry in the slot it was made for. */
  ghost predicate Indexed(lists: seq<seq<Entry>>, repr: set<Entry>) {
    && (forall k :: 0 <= k < |lists| ==> Owned(lists[k], repr) && InSlot(lists[k], k))
    && (forall x :: x in repr ==> x.slot < |lists| && Listed(x, lists[x.slot]))
  }

  ghost predicate UniquePaths(repr: set<Entry>) {
    forall x, y :: x in repr && y in repr && x.path == y.path ==> x == y
  }

  /** The reference counts of a set of entries, by path. */
  ghost function Meaning(repr: set<Entry>): Refs
    reads repr
    requires UniquePaths(repr)
  {
    map p | p in Paths(repr) :: RefsOf(repr, p)
  }

  ghost function Paths(repr: set<Entry>): set<string> {
    set x | x in repr :: x.path
  }

  ghost function RefsOf(repr: set<Entry>, path: string): nat
    reads repr
    requires path in Paths(repr)
  {
    var x :| x in repr && x.path == path; x.refs
  }

  lemma EntryMeaning(repr: set<Entry>, e: Entry)
    requires UniquePaths(repr) && e in repr
    ensures e.path in Meaning(repr) && Count(Meaning(repr), e.path) == e.refs
  {
  }

  lemma NoMeaning(repr: set<Entry>, path: string)
    requires UniquePaths(repr) && forall x :: x in repr ==> x.path != path
    ensures path !in Meaning(repr)
  {
  }

  /** `Push` on one bucket leaves the others as they are. */
  method PushInto(buckets: array<Entry?>, ghost lists: seq<seq<Entry>>, k: nat, e: Entry)
    requires |lists| == buckets.Length && k < |lists| && e.previous == null
    requires forall j :: 0 <= j < |lists| ==> InSlot(lists[j], j) && NotIn(e, lists[j]) && Linked(lists[j], buckets[j])
    modifies buckets, e`next, lists[k]`previous
    ensures forall j :: 0 <= j < |lists| && j != k ==> Linked(lists[j], buckets[j])
    ensures Linked([e] + lists[k], buckets[k])
  {
    hide Linked;
    Push(e, buckets[k], lists[k]);
    forall j | 0 <= j < |lists| && j != k
      ensures Linked(lists[j], buckets[j])
    {
      SlotsApart(lists[j], j, lists[k], k);
      assert old(Linked(lists[j], buckets[j]));
    }
    buckets[k] := e;
  }

  /** `Unlink` on one bucket leaves the others as they are. */
  method UnlinkFrom(buckets: array<Entry?>, ghost lists: seq<seq<Entry>>, k: nat, e: Entry, ghost i: nat)
    requires |lists| == buckets.Length && k < |lists| && i < |lists[k]| && lists[k][i] == e
    requires forall j :: 0 <= j < |lists| ==> InSlot(lists[j], j) && Linked(lists[j], buckets[j])
    modifies buckets, lists[k]`next, lists[k]`previous
    ensures forall j :: 0 <= j < |lists| && j != k ==> Linked(lists[j], buckets[j])
    ensures Linked(Without(lists[k], i), buckets[k])
  {
    hide Linked, Without;
    var head := Unlink(e, buckets[k], lists[k], i);
    forall j | 0 <= j < |lists| && j != k
      ensures Linked(lists[j], buckets[j])
    {
      SlotsApart(lists[j], j, lists[k], k);
      assert old(Linked(lists[j], buckets[j]));
    }
    buckets[k] := head;
  }

  /** The sharded table. */
  class Table {
    const hash: string -> u64
    const buckets: array<Entry?>
    ghost var lists: seq<seq<Entry>>
    ghost var repr: set<Entry>

    /** The shard from the low bits of the hash, the bucket from the next ones. */
    function Slot(path: string): nat {
      hash(path) % SHARDS * BUCKETS + hash(path) / SHARDS % BUCKETS
    }

    lemma SlotInRange(path: string)
      ensures Slot(path) < SHARDS * BUCKETS
    {
    }

    /** The structure alone: lists, slots and paths. */
    ghost predicate Linkage()
      reads this, buckets, repr`next, repr`previous
    {
      && buckets.Length == SHARDS * BUCKETS == |lists|
      && Indexed(lists, repr) && UniquePaths(repr)
      && (forall k :: 0 <= k < |lists| ==> Owned(lists[k], repr) && Linked(lists[k], buckets[k]))
      && (forall x :: x in repr ==> x.slot == Slot(x.path))
    }

    ghost predicate Valid()
      reads this, buckets, repr
    {
      Linkage() && forall x :: x in repr ==> x.refs > 0
    }

    constructor (hash: string -> u64)
      ensures Valid() && Meaning(repr) == map[] && repr == {} && fresh(buckets)
    {
      this.hash := hash;
      buckets := new Entry?[SHARDS * BUCKETS](_ => null);
      lists := seq(SHARDS * BUCKETS, _ => []);
      repr := {};
    }

    /** `find_entry`. */
    method Find(path: string) returns (e: Entry?)
      requires Valid()
      ensures e != null ==> e in repr && e.path == path
      ensures e == null ==> forall x :: x in repr ==> x.path != path
    {
      SlotInRange(path);
      e := buckets[Slot(path)];
      ghost var l, i := lists[Slot(path)], 0;
      assert Linked(l, e);
      while e != null
        invariant 0 <= i <= |l| && e == (if i < |l| then l[i] else null)
        invariant forall j :: 0 <= j < i ==> l[j].path != path
        decreases |l| - i
      {
        if e.path == path { return; }
        assert e.next == Following(l, i);
        e, i := e.next, i + 1;
      }
    }

    /** A new entry, in front of its bucket. */
    method Add(path: string) returns (e: Entry)
      requires Valid() && forall x :: x in repr ==> x.path != path
      modifies this, buckets, repr`next, repr`previous
      ensures Valid() && fresh(e) && e.path == path && e.refs == 1 && repr == old(repr) + {e}
    {
      hide Linked, Slot, Indexed, InSlot, NotIn;
      SlotInRange(path);
      var k := Slot(path);
      e := new Entry(path, k);
      NewEntry(e, lists, repr);
      PushInto(buckets, lists, k, e);
      ListsAfterAdd(lists, repr, e);
      lists := lists[k := [e] + lists[k]];
      repr := repr + {e};
    }

    /** The critical section of `myfs_lock_file`. */
    method LookUp(path: string, outOfMemory: bool) returns (e: Entry?)
      requires Valid()
      modifies this, buckets, repr
      ensures Valid() && fresh(repr - old(repr))
      ensures e == null <==> |path| >= PATH_MAX || Count(old(Meaning(repr)), path) >= UINT_MAX
                             || (path !in old(Meaning(repr)) && outOfMemory)
      ensures e == null ==> Meaning(repr) == old(Meaning(repr))
      ensures e != null ==> e in repr && e.path == path && Meaning(repr) == Taken(old(Meaning(repr)), path)
      ensures old(repr) <= repr
    {
      hide Linkage;
      UniqueIn();
      if |path| >= PATH_MAX { return null; }
      e := Find(path);
      if e != null {
        EntryMeaning(repr, e);
        if e.refs >= UINT_MAX { return null; }
        hide Meaning;
        Reference(e);
      } else {
        NoMeaning(repr, path);
        if outOfMemory { return null; }
        hide Meaning;
        e := AddFirst(path);
      }
    }

    method Reference(e: Entry)
      requires Valid() && e in repr
      modifies e`refs
      ensures Valid() && UniquePaths(repr) && Meaning(repr) == Taken(old(Meaning(repr)), e.path)
    {
      hide Linkage;
      UniqueIn();
      e.refs := e.refs + 1;
    }

    method AddFirst(path: string) returns (e: Entry)
      requires Valid() && forall x :: x in repr ==> x.path != path
      modifies this, buckets, repr`next, repr`previous
      ensures Valid() && fresh(e) && e.path == path && repr == old(repr) + {e}
      ensures UniquePaths(repr) && UniquePaths(old(repr)) && Meaning(repr) == Taken(old(Meaning(repr)), path)
    {
      hide Linkage;
      UniqueIn();
      NoMeaning(repr, path);
      e := Add(path);
      UniqueIn();
    }

    /** `unlink_entry` on the table. */
    method Remove(e: Entry)
      requires Linkage() && e in repr
      modifies this, buckets, repr`next, repr`previous
      ensures Linkage() && repr == old(repr) - {e}
    {
      hide Linked, Slot, InSlot, Without;
      ghost var k := e.slot;
      ghost var i := IndexOf(e, lists[k]);
      EveryInSlot(lists, repr);
      LinkedDistinct(lists[k], buckets[k]);
      UnlinkFrom(buckets, lists, e.slot, e, i);
      ListsAfterRemove(lists, repr, e, i);
      lists := lists[k := Without(lists[k], i)];
      repr := repr - {e};
    }

    /** The critical section of `release_entry_reference`: the last reference reclaims the entry. */
    method Release(e: Entry) returns (reclaimed: bool)
      requires Valid() && e in repr
      modifies this, buckets, repr
      ensures Valid() && reclaimed == (old(e.refs) == 1)
      ensures repr == if reclaimed then old(repr) - {e} else old(repr)
      ensures Meaning(repr) == Dropped(old(Meaning(repr)), e.path)
    {
      hide Linkage;
      UniqueIn();
      reclaimed := false;
      e.refs := e.refs - 1;
      if e.refs == 0 {
        Remove(e);
        UniqueIn();
        reclaimed := true;
      }
    }

    lemma UniqueIn()
      requires Linkage()
      ensures UniquePaths(repr)
    {
    }
  }

  ghost function IndexOf(e: Entry, l: seq<Entry>): (i: nat)
    requires Listed(e, l)
    ensures i < |l| && l[i] == e
  {
    var i :| 0 <= i < |l| && l[i] == e; i
  }

  lemma LinkedDistinct(l: seq<Entry>, head: Entry?)
    requires Linked(l, head)
    ensures Distinct(l)
  {
  }

  lemma EveryInSlot(lists: seq<seq<Entry>>, repr: set<Entry>)
    requires Indexed(lists, repr)
    ensures forall k :: 0 <= k < |lists| ==> InSlot(lists[k], k)
  {
  }

  lemma ListsAfterRemove(lists: seq<seq<Entry>>, repr: set<Entry>, e: Entry, i: nat)
    requires Indexed(lists, repr) && e in repr && i < |lists[e.slot]| && lists[e.slot][i] == e
    requires Distinct(lists[e.slot])
    ensures Indexed(lists[e.slot := Without(lists[e.slot], i)], repr - {e})
    ensures Owned(Without(lists[e.slot], i), repr - {e})
  {
    var l := lists[e.slot];
    var lists' := lists[e.slot := Without(l, i)];
    forall k | 0 <= k < |lists'|
      ensures Owned(lists'[k], repr - {e}) && InSlot(lists'[k], k)
    {
      assert Owned(lists[k], repr) && InSlot(lists[k], k);
    }
    forall x | x in repr - {e}
      ensures Listed(x, lists'[x.slot])
    {
      var m := IndexOf(x, lists[x.slot]);
      if x.slot == e.slot { assert lists'[x.slot][if m < i then m else m - 1] == x; }
    }
  }

  lemma NewEntry(e: Entry, lists: seq<seq<Entry>>, repr: set<Entry>)
    requires e !in repr && Indexed(lists, repr)
    ensures forall k :: 0 <= k < |lists| ==> NotIn(e, lists[k]) && InSlot(lists[k], k)
  {
  }

  lemma ListsAfterAdd(lists: seq<seq<Entry>>, repr: set<Entry>, e: Entry)
    requires e.slot < |lists| && Indexed(lists, repr)
    ensures Indexed(lists[e.slot := [e] + lists[e.slot]], repr + {e})
    ensures Owned([e] + lists[e.slot], repr + {e})
  {
    var lists' := lists[e.slot := [e] + lists[e.slot]];
    assert lists'[e.slot][0] == e;
    forall x | x in repr
      ensures Listed(x, lists'[x.slot])
    {
      var i :| 0 <= i < |lists[x.slot]| && lists[x.slot][i] == x;
      if x.slot == e.slot { assert lists'[x.slot][i + 1] == x; }
    }
  }

  // ----- the linear table

  /** `l` is the singly linked list that starts at `head`; the linear table leaves `previous` null. */
  ghost predicate Chained(l: seq<Entry>, head: Entry?)
    reads l`next
  {
    && head == (if l == [] then null else l[0])
    && Distinct(l)
    && forall i :: 0 <= i < |l| ==> l[i].next == Following(l, i)
  }

  lemma ChainedWithout(l: seq<Entry>, i: nat, head: Entry?)
    requires i < |l| && Distinct(l)
    requires forall m :: 0 <= m < |l| && m != i ==> l[m].next == (if m == i - 1 then Following(l, i) else Following(l, m))
    requires head == (if i == 0 then Following(l, i) else l[0])
    ensures Chained(Without(l, i), head)
  {
    hide Following, Without;
    var r := Without(l, i);
    forall k | 0 <= k < |r|
      ensures r[k].next == Following(r, k)
    {
      WithoutNeighbours(l, i, k);
    }
    WithoutDistinct(l, i);
    ChainHead(l, i);
  }

  lemma ChainHead(l: seq<Entry>, i: nat)
    requires i < |l|
    ensures var r := Without(l, i);
            (if r == [] then null else r[0]) == (if i == 0 then Following(l, i) else l[0])
  {
  }

  lemma ChainNew(e: Entry, l: seq<Entry>, repr: set<Entry>)
    requires e !in repr && Owned(l, repr)
    ensures NotIn(e, l)
  {
  }

  lemma ChainedAdd(l: seq<Entry>, head: Entry?, e: Entry)
    requires Chained(l, head) && NotIn(e, l) && e.next == head
    ensures Chained([e] + l, e)
  {
    var r := [e] + l;
    forall i | 0 <= i < |r|
      ensures r[i].next == Following(r, i)
    {
      if i > 0 { assert r[i] == l[i - 1]; }
      if i + 1 < |r| { assert r[i + 1] == l[i]; }
    }
  }

  lemma ListedAdd(l: seq<Entry>, repr: set<Entry>, e: Entry)
    requires Owned(l, repr) && forall x :: x in repr ==> Listed(x, l)
    ensures Owned([e] + l, repr + {e}) && forall x :: x in repr + {e} ==> Listed(x, [e] + l)
  {
    var r := [e] + l;
    assert r[0] == e;
    forall x | x in repr
      ensures Listed(x, r)
    {
      assert r[IndexOf(x, l) + 1] == x;
    }
  }

  class LinearTable {
    var head: Entry?
    ghost var chain: seq<Entry>
    ghost var repr: set<Entry>

    ghost predicate Linkage()
      reads this, repr`next
    {
      && Owned(chain, repr) && Chained(chain, head) && UniquePaths(repr)
      && forall x :: x in repr ==> Listed(x, chain) && |x.path| < PATH_MAX
    }

    ghost predicate Valid()
      reads this, repr
    {
      Linkage() && forall x :: x in repr ==> x.refs > 0
    }

    constructor ()
      ensures Valid() && repr == {} && Meaning(repr) == map[]
    {
      head, chain, repr := null, [], {};
    }

    lemma UniqueIn()
      requires Linkage()
      ensures UniquePaths(repr)
    {
    }

    method Find(path: string) returns (e: Entry?)
      requires Valid()
      ensures e != null ==> e in repr && e.path == path
      ensures e == null ==> forall x :: x in repr ==> x.path != path
    {
      e := head;
      ghost var i := 0;
      while e != null && e.path != path
        invariant 0 <= i <= |chain| && e == (if i < |chain| then chain[i] else null)
        invariant forall j :: 0 <= j < i ==> chain[j].path != path
        decreases |chain| - i
      {
        e, i := e.next, i + 1;
      }
    }

    /** A new entry at the head, without references yet. */
    method Add(path: string) returns (e: Entry)
      requires Linkage() && |path| < PATH_MAX && forall x :: x in repr ==> x.path != path
      modifies this
      ensures Linkage() && fresh(e) && e.path == path && e.refs == 0 && repr == old(repr) + {e}
    {
      hide Chained, Listed, NotIn;
      e := new Entry(path, 0);
      e.refs, e.next := 0, head;
      ChainNew(e, chain, repr);
      ChainedAdd(chain, head, e);
      ListedAdd(chain, repr, e);
      head, chain, repr := e, [e] + chain, repr + {e};
    }

    /** The critical section of `linear_lock_file`. */
    method LookUp(path: string, outOfMemory: bool) returns (e: Entry?)
      requires Valid()
      modifies this, repr
      ensures Valid() && UniquePaths(old(repr))
      ensures e == null <==> path !in old(Meaning(repr)) && (outOfMemory || |path| >= PATH_MAX)
      ensures e == null ==> Meaning(repr) == old(Meaning(repr))
      ensures e != null ==> e in repr && e.path == path && Meaning(repr) == Taken(old(Meaning(repr)), path)
    {
      hide Linkage, Meaning;
      UniqueIn();
      e := Find(path);
      if e == null {
        NoMeaning(repr, path);
        if outOfMemory || |path| >= PATH_MAX { return null; }
        e := AddFirst(path);
      } else {
        EntryMeaning(repr, e);
      }
      Reference(e);
    }

    method AddFirst(path: string) returns (e: Entry)
      requires Valid() && |path| < PATH_MAX && forall x :: x in repr ==> x.path != path
      modifies this
      ensures Linkage() && UniquePaths(repr) && UniquePaths(old(repr)) && fresh(e) && e.path == path && e.refs == 0
      ensures repr == old(repr) + {e} && (forall x :: x in old(repr) ==> x.refs > 0)
      ensures Meaning(repr) == old(Meaning(repr))[path := 0]
    {
      hide Linkage;
      UniqueIn();
      e := Add(path);
      UniqueIn();
    }

    method Reference(e: Entry)
      requires Linkage() && UniquePaths(repr) && e in repr && forall x :: x in repr && x != e ==> x.refs > 0
      modifies e`refs
      ensures Valid() && Meaning(repr) == old(Meaning(repr))[e.path := old(e.refs) + 1]
    {
      hide Linkage;
      e.refs := e.refs + 1;
    }

    /** The walk that finds the link to `e`. */
    method FindLink(e: Entry, ghost at: nat) returns (before: Entry?)
      requires Chained(chain, head) && at < |chain| && chain[at] == e
      ensures before == Preceding(chain, at)
    {
      before := null;
      var cursor := head;
      ghost var i := 0;
      while cursor != null && cursor != e
        invariant 0 <= i <= at && cursor == chain[i]
        invariant before == Preceding(chain, i)
        decreases at - i
      {
        assert cursor.next == Following(chain, i);
        before, cursor, i := cursor, cursor.next, i + 1;
      }
    }

    /** Cut `e` out of the chain. */
    method Remove(e: Entry)
      requires Linkage() && e in repr
      modifies this, repr`next
      ensures Linkage() && repr == old(repr) - {e}
    {
      hide Listed, Chained, Without, Preceding;
      ghost var at := IndexOf(e, chain);
      ChainedDistinct(chain, head);
      var before := FindLink(e, at);
      CutOut(before, e, at);
      ListedRemove(chain, repr, e, at);
      chain, repr := Without(chain, at), repr - {e};
    }

    method CutOut(before: Entry?, e: Entry, ghost at: nat)
      requires Owned(chain, repr) && Chained(chain, head) && at < |chain| && chain[at] == e && before == Preceding(chain, at)
      modifies this`head, repr`next
      ensures Chained(Without(chain, at), head)
    {
      hide Without, Listed;
      if before != null {
        before.next := e.next;
      } else {
        head := e.next;
      }
      ChainedWithout(chain, at, head);
    }

    /** The critical section of `linear_unlock_file`. */
    method Release(e: Entry) returns (reclaimed: bool)
      requires Valid() && e in repr
      modifies this, repr
      ensures Valid() && reclaimed == (old(e.refs) == 1)
      ensures repr == if reclaimed then old(repr) - {e} else old(repr)
      ensures UniquePaths(old(repr)) && Meaning(repr) == Dropped(old(Meaning(repr)), e.path)
    {
      hide Linkage;
      UniqueIn();
      reclaimed := false;
      e.refs := e.refs - 1;
      if e.refs == 0 {
        Remove(e);
        UniqueIn();
        reclaimed := true;
      }
    }
  }

  lemma ChainedDistinct(l: seq<Entry>, head: Entry?)
    requires Chained(l, head)
    ensures Distinct(l)
  {
  }

  lemma ListedRemove(l: seq<Entry>, repr: set<Entry>, e: Entry, i: nat)
    requires Owned(l, repr) && (forall x :: x in repr ==> Listed(x, l)) && i < |l| && l[i] == e
    requires Distinct(l)
    ensures Owned(Without(l, i), repr - {e}) && forall x :: x in repr - {e} ==> Listed(x, Without(l, i))
  {
    var r := Without(l, i);
    forall x | x in repr - {e}
      ensures Listed(x, r)
    {
      var m := IndexOf(x, l);
      assert r[if m < i then m else m - 1] == x;
    }
  }

  // ----- agreement

  /** The two tables mean the same. */
  ghost predicate Agree(t: Table, l: LinearTable)
    reads t, t.buckets, t.repr, l, l.repr
  {
    && t.Valid() && l.Valid() && UniquePaths(t.repr) && UniquePaths(l.repr)
    && Meaning(t.repr) == Meaning(l.repr)
  }

  /** A look-up on both: they refuse the same requests and stay in agreement. */
  method LookUpBoth(t: Table, l: LinearTable, path: string, outOfMemory: bool) returns (e: Entry?, f: Entry?)
    requires Agree(t, l) && t.repr !! l.repr
    requires |path| < PATH_MAX && Count(Meaning(t.repr), path) < UINT_MAX
    modifies t, t.buckets, t.repr, l, l.repr
    ensures Agree(t, l)
    ensures e == null <==> f == null
    ensures e != null ==> e in t.repr && f in l.repr && e.path == f.path == path
  {
    hide Meaning, Table.Linkage, LinearTable.Linkage, UniquePaths;
    e := t.LookUp(path, outOfMemory);
    f := l.LookUp(path, outOfMemory);
    t.UniqueIn();
    l.UniqueIn();
  }

  /** A release on both: they reclaim together and stay in agreement. */
  method ReleaseBoth(t: Table, l: LinearTable, e: Entry, f: Entry) returns (reclaimed: bool, linearReclaimed: bool)
    requires Agree(t, l) && t.repr !! l.repr && e in t.repr && f in l.repr && e.path == f.path
    modifies t, t.buckets, t.repr, l, l.repr
    ensures Agree(t, l) && reclaimed == linearReclaimed
  {
    hide Meaning, Table.Linkage, LinearTable.Linkage, UniquePaths;
    EntryMeaning(t.repr, e);
    EntryMeaning(l.repr, f);
    reclaimed := t.Release(e);
    linearReclaimed := l.Release(f);
    t.UniqueIn();
    l.UniqueIn();
  }
}
