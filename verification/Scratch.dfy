/**
 Per-thread scratch buffers (src/core/chunkio_scratch.c): one retained buffer per role, leased to
 at most one user at a time; everybody else gets a temporary block of their own.
 */
module Scratch {
  import opened Basics
  import opened Windows

  const ROLES: int := 4
  const ROLE_COMP: int := 1
  /** Bound on the size of a compressed window: the window and one byte in 256 more. */
  const COMP_LIMIT: int := MAX_WINDOW + MAX_WINDOW / 256

  predicate RoleValid(role: int) { 0 <= role < ROLES }

  /** `myfs_chunkio_scratch_retained_limit`. */
  function RetainedLimit(role: int): int {
    if !RoleValid(role) then 0 else if role == ROLE_COMP then COMP_LIMIT else MAX_WINDOW
  }

  /** A request for nothing still gets a byte. */
  function AllocationSize(required: nat): nat { if required == 0 then 1 else required }

  class Slot {
    var buffer: array?<byte>
    var capacity: nat
    var inUse: bool

    constructor ()
      ensures buffer == null && capacity == 0 && !inUse
    {
      buffer, capacity, inUse := null, 0, false;
    }
  }

  class Lease {
    var data: array?<byte>
    var capacity: nat
    var slot: Slot?

    constructor ()
      ensures data == null && capacity == 0 && slot == null
    {
      data, capacity, slot := null, 0, null;
    }
  }

  class Context {
    /** One slot per role, embedded in the context. */
    const slots: seq<Slot>
    /** The leases handed out and not yet released. */
    ghost var live: set<Lease>
    /** The memory blocks that have been allocated and not freed. */
    ghost var blocks: set<array<byte>>

    ghost predicate SlotsOk()
      reads this, slots
    {
      && |slots| == ROLES
      && (forall i, j :: 0 <= i < j < ROLES ==> slots[i] != slots[j])
      && (forall i :: 0 <= i < ROLES ==>
            && slots[i].capacity <= RetainedLimit(i)
            && slots[i].capacity == (if slots[i].buffer == null then 0 else slots[i].buffer.Length)
            && (slots[i].buffer != null ==> slots[i].buffer in blocks))
      && (forall i, j :: 0 <= i < j < ROLES && slots[i].buffer != null ==> slots[i].buffer != slots[j].buffer)
    }

    /** A live lease owns its memory: a slot's buffer while it holds the slot, or a block of its own. */
    ghost predicate LeaseOk(l: Lease)
      reads this, l, slots
    {
      && l.data != null && l.data in blocks && l.capacity == l.data.Length
      && (l.slot != null ==> l.slot in slots && l.slot.inUse && l.data == l.slot.buffer)
      && (l.slot == null ==> forall i :: 0 <= i < |slots| ==> slots[i].buffer != l.data)
    }

    ghost predicate Valid()
      reads this, slots, live
    {
      && SlotsOk()
      && (forall l :: l in live ==> LeaseOk(l))
      && (forall l, m :: l in live && m in live && l != m ==> l.data != m.data)
      && (forall i :: 0 <= i < ROLES && slots[i].inUse ==> exists l :: l in live && l.slot == slots[i])
    }

    constructor ()
      ensures Valid() && live == {} && blocks == {} && fresh(slots)
    {
      var raw := new Slot();
      var comp := new Slot();
      var window := new Slot();
      var cached := new Slot();
      slots := [raw, comp, window, cached];
      live, blocks := {}, {};
    }

    /** `acquire_temporary`: a fresh block, owned by the lease. */
    method AcquireTemporary(required: nat, lease: Lease, mallocOk: bool) returns (r: Result<()>)
      requires Valid() && lease !in live && lease.data == null && lease.slot == null
      modifies this`live, this`blocks, lease
      ensures Valid() && r.Ok? == mallocOk
      ensures r.Ok? ==>
                && live == old(live) + {lease} && lease.slot == null
                && fresh(lease.data) && lease.data !in old(blocks) && blocks == old(blocks) + {lease.data}
                && lease.capacity == AllocationSize(required)
      ensures r.Err? ==> r.error == ENOMEM && live == old(live) && blocks == old(blocks) && lease.data == null
    {
      if !mallocOk { return Err(ENOMEM); }
      var buffer := new byte[AllocationSize(required)];
      assert buffer !in blocks;
      lease.data, lease.capacity, lease.slot := buffer, buffer.Length, null;
      live, blocks := live + {lease}, blocks + {buffer};
      r := Ok(());
    }

    /** Whether a request is served from the retained buffer. */
    ghost predicate ServedFromSlot(role: int, required: nat, contextOk: bool, reallocOk: bool)
      reads slots
      requires |slots| == ROLES
    {
      && RoleValid(role) && contextOk && required <= RetainedLimit(role) && !slots[role].inUse
      && (slots[role].capacity >= AllocationSize(required) || reallocOk)
    }

    /** `realloc` of a retained buffer nobody leases: a larger block replaces it. */
    method Grow(role: int, size: nat)
      requires Valid() && RoleValid(role) && !slots[role].inUse && slots[role].capacity < size <= RetainedLimit(role)
      modifies this`blocks, slots[role]
      ensures Valid() && !slots[role].inUse && slots[role].capacity == size
    {
      var slot := slots[role];
      NobodyLeases(role);
      var grown := new byte[size];
      blocks := (if slot.buffer == null then blocks else blocks - {slot.buffer}) + {grown};
      slot.buffer, slot.capacity := grown, size;
    }

    /** The buffer of a free slot belongs to no lease. */
    lemma NobodyLeases(role: int)
      requires Valid() && RoleValid(role) && !slots[role].inUse
      ensures forall l :: l in live ==> l.slot != slots[role] && (slots[role].buffer != null ==> l.data != slots[role].buffer)
    {
      forall l | l in live && slots[role].buffer != null
        ensures l.data != slots[role].buffer
      {
        assert LeaseOk(l);
        if l.slot != null {
          var i :| 0 <= i < |slots| && slots[i] == l.slot;
          assert i != role;
        }
      }
      forall l | l in live
        ensures l.slot != slots[role]
      {
        assert LeaseOk(l);
      }
    }

    /** Lease the retained buffer. */
    method Take(role: int, lease: Lease)
      requires Valid() && RoleValid(role) && !slots[role].inUse && slots[role].buffer != null && lease !in live
      modifies this`live, slots[role], lease
      ensures Valid() && live == old(live) + {lease}
      ensures slots[role].buffer == old(slots[role].buffer) && slots[role].capacity == old(slots[role].capacity)
      ensures lease.slot == slots[role] && lease.data == slots[role].buffer && lease.capacity == slots[role].capacity
    {
      var slot := slots[role];
      NobodyLeases(role);
      slot.inUse := true;
      lease.data, lease.capacity, lease.slot := slot.buffer, slot.capacity, slot;
      live := live + {lease};
    }

    /** A lease that is not live carries nothing over. */
    method Clear(lease: Lease)
      requires Valid() && lease !in live
      modifies lease
      ensures Valid() && lease.data == null && lease.capacity == 0 && lease.slot == null
    {
      lease.data, lease.capacity, lease.slot := null, 0, null;
      assert forall l :: l in live ==> old(LeaseOk(l)) && LeaseOk(l);
    }

    /** A request within the limit: from the slot if it is free and large enough or can grow, else temporary. */
    method AcquireRetained(role: int, required: nat, lease: Lease, mallocOk: bool, reallocOk: bool) returns (r: Result<()>)
      requires Valid() && lease !in live && lease.data == null && lease.slot == null
      requires RoleValid(role) && required <= RetainedLimit(role) && |slots| == ROLES
      modifies this`live, this`blocks, lease, slots
      ensures Valid()
      ensures r.Ok? <==> old(ServedFromSlot(role, required, true, reallocOk)) || mallocOk
      ensures r.Ok? ==> live == old(live) + {lease} && lease.capacity >= AllocationSize(required)
      ensures r.Ok? ==> (lease.slot != null <==> old(ServedFromSlot(role, required, true, reallocOk)))
      ensures r.Ok? && lease.slot != null ==> lease.slot == slots[role]
      ensures r.Err? ==> live == old(live)
      ensures forall l :: l in old(live) ==> l.data == old(l.data) && l.slot == old(l.slot)
      ensures forall i :: 0 <= i < ROLES ==> slots[i].capacity >= old(slots[i].capacity)
    {
      hide LeaseOk;
      if slots[role].inUse {
        r := AcquireTemporary(required, lease, mallocOk);
        return;
      }
      if slots[role].capacity < AllocationSize(required) {
        if !reallocOk {
          r := AcquireTemporary(required, lease, mallocOk);
          return;
        }
        Grow(role, AllocationSize(required));
      }
      Take(role, lease);
      r := Ok(());
    }

    /** `myfs_chunkio_scratch_acquire`, with the outcome of each allocation it may make. */
    method Acquire(role: int, required: nat, lease: Lease, contextOk: bool, mallocOk: bool, reallocOk: bool) returns (r: Result<()>)
      requires Valid() && lease !in live
      modifies this`live, this`blocks, lease, slots
      ensures Valid()
      ensures !RoleValid(role) ==> r == Err(EINVAL)
      ensures RoleValid(role) ==> (r.Ok? <==> old(ServedFromSlot(role, required, contextOk, reallocOk)) || mallocOk)
      ensures r.Ok? ==> live == old(live) + {lease} && lease.capacity >= AllocationSize(required)
      ensures r.Ok? ==> (lease.slot != null <==> old(ServedFromSlot(role, required, contextOk, reallocOk)))
      ensures r.Ok? && lease.slot != null ==> lease.slot == slots[role]
      ensures r.Err? ==> live == old(live)
      ensures forall l :: l in old(live) ==> l.data == old(l.data) && l.slot == old(l.slot)
      ensures forall i :: 0 <= i < ROLES ==> slots[i].capacity >= old(slots[i].capacity)
    {
      if !RoleValid(role) { return Err(EINVAL); }
      Clear(lease);
      hide Valid, LeaseOk, SlotsOk;
      if !contextOk || required > RetainedLimit(role) {
        r := AcquireTemporary(required, lease, mallocOk);
        return;
      }
      r := AcquireRetained(role, required, lease, mallocOk, reallocOk);
    }

    /** `myfs_chunkio_scratch_release`; releasing a second time does nothing. */
    method Release(lease: Lease)
      requires Valid() && (lease in live || lease.data == null)
      modifies this`live, this`blocks, lease, slots
      ensures Valid() && lease !in live && live == old(live) - {lease}
      ensures old(lease.data) == null ==> unchanged(this) && unchanged(lease) && unchanged(slots)
      ensures old(lease.data) != null ==> lease.data == null && lease.slot == null
      ensures forall l :: l in live ==> l.data == old(l.data)
      ensures forall i :: 0 <= i < ROLES ==> slots[i].capacity == old(slots[i].capacity) && slots[i].buffer == old(slots[i].buffer)
      ensures forall i :: 0 <= i < ROLES ==>
                slots[i].inUse == (old(slots[i].inUse) && (old(lease.data) == null || old(lease.slot) != slots[i]))
    {
      if lease.data == null { return; }
      assert LeaseOk(lease);
      if lease.slot != null {
        GiveBack(lease, lease.slot);
      } else {
        Free(lease);
      }
    }

    method GiveBack(lease: Lease, slot: Slot)
      requires Valid() && lease in live && lease.slot == slot
      modifies this`live, lease, slot`inUse
      ensures Valid() && live == old(live) - {lease} && lease.data == null && lease.slot == null && !slot.inUse
    {
      assert LeaseOk(lease);
      slot.inUse := false;
      live := live - {lease};
      lease.data, lease.capacity, lease.slot := null, 0, null;
    }

    method Free(lease: Lease)
      requires Valid() && lease in live && lease.slot == null
      modifies this`live, this`blocks, lease
      ensures Valid() && live == old(live) - {lease} && lease.data == null && lease.slot == null
      ensures old(lease.data) !in blocks
    {
      assert LeaseOk(lease);
      blocks := blocks - {lease.data};
      live := live - {lease};
      lease.data, lease.capacity, lease.slot := null, 0, null;
    }

    /** No two live leases share memory, and a slot is in use exactly while one live lease holds it. */
    lemma LeasesAreDisjoint(l: Lease, m: Lease)
      requires Valid() && l in live && m in live && l != m
      ensures l.data != m.data && (l.slot != null ==> l.slot != m.slot)
    {
      assert LeaseOk(l) && LeaseOk(m);
    }
  }
}
