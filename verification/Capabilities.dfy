/** The capability table, changed in place, proved against `CapabilitySpec`. */
module Capabilities {
  import opened Common
  import CS = CapabilitySpec

  class Capability {
    var id: bv32
    var owner: bv32
    var kind: bv32
    var perms: bv32
    var resource: bv32
    var expiration: bv32
    var signature: bv32

    ghost var serial: nat
    ghost var signed: bv32
    ghost var stamp: Option<bv32>

    ghost function Value(): CS.Cap
      reads this
    {
      CS.Cap(id, owner, kind, perms, resource, expiration, signature, serial, signed, stamp)
    }

    constructor (capId: bv32, pid: bv32, capKind: bv32, permissions: bv32, ghost number: nat)
      ensures Value() == CS.Cap(capId, pid, capKind, permissions, 0, 0, 0, number, 0, None)
    {
      id, owner, kind, perms, resource, expiration, signature := capId, pid, capKind, permissions, 0, 0, 0;
      serial, signed, stamp := number, 0, None;
    }

    /** `capability_generate_signature`. */
    method Sign()
      modifies this
      ensures Value() == CS.Sign(old(Value()))
    {
      hide CS.Xor;
      signature := CS.Xor(CS.Xor(CS.Xor(CS.Xor(CS.Xor(id, owner), kind), perms), resource), expiration);
      signed := CS.Xor(resource, expiration);
    }

    /** `capability_verify_signature`. */
    method Verify() returns (ok: bool)
      ensures ok <==> CS.Verifies(Value())
    {
      hide CS.Xor;
      ok := CS.Xor(CS.Xor(CS.Xor(CS.Xor(CS.Xor(id, owner), kind), perms), resource), expiration) == signature;
    }
  }

  class CapabilityTable {
    const slots: array<Capability?>
    var count: nat
    var nextId: bv32

    ghost var serial: nat
    ghost var caps: set<Capability>  // every capability made

    /** No capability is in two slots. */
    ghost predicate Shape()
      reads this, slots
    {
      && slots.Length == CS.MAX_CAPABILITIES
      && (forall i :: 0 <= i < slots.Length && slots[i] != null ==> slots[i] in caps)
      && (forall i, j :: 0 <= i < j < slots.Length && slots[i] != null ==> slots[i] != slots[j])
    }

    ghost function Values(): seq<Option<CS.Cap>>
      requires Shape()
      reads this, slots, caps
    {
      seq(slots.Length, i requires 0 <= i < slots.Length && Shape() reads this, slots, caps =>
        if slots[i] == null then None else Some(slots[i].Value()))
    }

    ghost function Abs(): CS.Caps
      requires Shape()
      reads this, slots, caps
    {
      CS.Caps(Values(), count, nextId, serial)
    }

    ghost predicate Valid()
      reads this, slots, caps
    {
      Shape() && CS.Inv(Abs())
    }

    /** `capability_init`. */
    constructor ()
      ensures Valid() && fresh(slots) && CS.Initial(Abs()) && caps == {}
    {
      slots := new Capability?[CS.MAX_CAPABILITIES](_ => null);
      count, nextId, serial, caps := 0, 1, 0, {};
      new;
      CS.InitialKeepsInv(Abs());
    }

    // ----- capability_create and capability_grant

    /** The capability into the first empty slot. */
    method Insert(cap: Capability)
      requires Shape() && cap !in caps
      modifies this`count, this`caps, slots
      ensures Shape() && Abs() == CS.Insert(old(Abs()), cap.Value()) && caps == old(caps) + {cap}
      ensures CS.FirstFree(old(Values())) < slots.Length ==> slots[CS.FirstFree(old(Values()))] == cap
    {
      hide CS.FirstFree;
      caps := caps + {cap};
      for i := 0 to CS.MAX_CAPABILITIES
        invariant forall k :: 0 <= k < i ==> slots[k] != null
        invariant Shape() && Abs() == old(Abs())
      {
        if slots[i] == null {
          ghost var values := Values();
          assert values[i].None? && forall k :: 0 <= k < i ==> values[k].Some?;
          assert i == CS.FirstFree(values);
          slots[i] := cap;
          count := count + 1;
          assert Values() == values[i := Some(cap.Value())];
          return;
        }
      }
      assert CS.FirstFree(Values()) == slots.Length;
    }

    method Create(pid: bv32, kind: bv32, perms: bv32, memory: bool) returns (cap: Capability?)
      requires Valid()
      modifies this, slots
      ensures Valid() && Abs() == CS.Create(old(Abs()), pid, kind, perms, memory).0
      ensures caps == old(caps) + if cap == null then {} else {cap}
      ensures cap == null <==> !CS.Accepts(old(Abs()), memory)
      ensures cap != null ==> fresh(cap) && cap.Value() == CS.Fresh(old(Abs()), pid, kind, perms)
      ensures cap != null ==> exists i :: 0 <= i < slots.Length && i == CS.FirstFree(old(Values())) && slots[i] == cap
    {
      hide CS.Inv, CS.Sign, CS.Insert, CS.FirstFree, CS.Face, CS.Checksum;
      CS.AcceptedIsStored(Abs(), memory);
      CS.NextKeepsInv(Abs(), None, CS.CreateStep(pid, kind, perms, memory));
      if count >= CS.MAX_CAPABILITIES || !memory {
        return null;
      }
      cap := new Capability(nextId, pid, kind, perms, serial);
      nextId, serial := nextId + 1, serial + 1;
      cap.Sign();
      assert Values() == old(Values());
      Insert(cap);
    }

    method Grant(current: Option<bv32>, pid: bv32, kind: bv32, perms: bv32, resource: bv32, memory: bool)
      returns (status: CS.Status)
      requires Valid()
      modifies this, slots
      ensures Valid() && (Abs(), status) == CS.Grant(old(Abs()), current, pid, kind, perms, resource, memory)
    {
      hide CS.Inv, CS.Fresh, CS.FirstFree;
      CS.NextKeepsInv(Abs(), current, CS.GrantStep(pid, kind, perms, resource, memory));
      if current != Some(CS.KERNEL_PID) {
        return CS.PermissionDenied;
      }
      var cap := Create(pid, kind, perms, memory);
      if cap == null {
        return CS.OutOfMemory;
      }
      ghost var i := CS.FirstFree(old(Values()));
      ghost var values := Values();
      cap.resource := resource;
      assert Values() == values[i := Some(cap.Value())];
      assert Values() == old(Values())[i := Some(cap.Value())];
      return CS.Success;
    }

    // ----- operations on one capability, the one in slot `i`

    method Transfer(cap: Capability?, current: Option<bv32>, owner: bv32, ghost i: nat) returns (status: CS.Status)
      requires Valid() && cap == if i < slots.Length then slots[i] else null
      modifies caps
      ensures Valid() && (Abs(), status) == CS.Transfer(old(Abs()), current, i, owner)
    {
      hide CS.Inv, CS.Sign;
      CS.TransferKeepsInv(Abs(), current, i, owner);
      if cap == null {
        return CS.InvalidParam;
      }
      if current != Some(cap.owner) {
        return CS.PermissionDenied;
      }
      if cap.perms & CS.PERM_TRANSFER == 0 {
        return CS.PermissionDenied;
      }
      cap.owner, cap.stamp := owner, Some(cap.expiration);
      cap.Sign();
      assert Values() == old(Values())[i := Some(cap.Value())];
      return CS.Success;
    }

    method SetExpiration(cap: Capability?, current: Option<bv32>, time: bv32, ghost i: nat) returns (status: CS.Status)
      requires Valid() && cap == if i < slots.Length then slots[i] else null
      modifies caps
      ensures Valid() && (Abs(), status) == CS.SetExpiration(old(Abs()), current, i, time)
    {
      hide CS.Inv;
      CS.ExpirationKeepsInv(Abs(), current, i, time);
      if cap == null {
        return CS.InvalidParam;
      }
      if current != Some(cap.owner) {
        return CS.PermissionDenied;
      }
      cap.expiration := time;
      assert Values() == old(Values())[i := Some(cap.Value())];
      return CS.Success;
    }

    method Destroy(cap: Capability?, ghost i: nat)
      requires Valid() && cap == if i < slots.Length then slots[i] else null
      modifies this`count, slots
      ensures Valid() && Abs() == CS.DestroyAt(old(Abs()), i)
      ensures forall k :: 0 <= k < slots.Length && k != i ==> slots[k] == old(slots[k])
    {
      hide CS.Inv;
      CS.DestroyKeepsInv(Abs(), i);
      if cap == null {
        return;
      }
      for k := 0 to CS.MAX_CAPABILITIES
        invariant k <= i && Valid() && Abs() == old(Abs())
        invariant forall j :: 0 <= j < slots.Length ==> slots[j] == old(slots[j])
      {
        if slots[k] == cap {
          ghost var values := Values();
          slots[k] := null;
          count := count - 1;
          assert Values() == values[i := None];
          return;
        }
      }
    }

    // ----- operations on the whole table

    method Revoke(current: Option<bv32>, pid: bv32, kind: bv32, resource: bv32) returns (status: CS.Status)
      requires Valid()
      modifies this`count, slots
      ensures Valid() && (Abs(), status) == CS.Revoke(old(Abs()), current, pid, kind, resource)
    {
      hide CS.Inv, CS.DestroyAt, CS.Lapsed;
      if current != Some(CS.KERNEL_PID) {
        return CS.PermissionDenied;
      }
      ghost var sel := CS.Matching(pid, kind, resource);
      for i := 0 to CS.MAX_CAPABILITIES
        invariant Valid() && Abs() == CS.Sweep(old(Abs()), sel, i)
      {
        var cap := slots[i];
        if cap != null && cap.owner == pid && cap.kind == kind && (resource == 0 || cap.resource == resource) {
          Destroy(cap, i);
        }
      }
      return CS.Success;
    }

    method CleanupExpired(now: bv32)
      requires Valid()
      modifies this`count, slots
      ensures Valid() && Abs() == CS.Sweep(old(Abs()), CS.Expired(now), CS.MAX_CAPABILITIES)
    {
      hide CS.Inv, CS.DestroyAt, CS.Lapsed;
      for i := 0 to CS.MAX_CAPABILITIES
        invariant Valid() && Abs() == CS.Sweep(old(Abs()), CS.Expired(now), i)
      {
        var cap := slots[i];
        if cap != null && CS.Lapsed(cap.expiration, now) {
          Destroy(cap, i);
        }
      }
    }

    method Check(pid: bv32, kind: bv32, perms: bv32, now: bv32) returns (status: CS.Status)
      requires Valid()
      ensures status == if CS.Check(Abs(), pid, kind, perms, now) then CS.Success else CS.PermissionDenied
    {
      hide CS.Inv, CS.Verifies, CS.Unexpired, CS.Allows;
      ghost var c := Abs();
      for i := 0 to CS.MAX_CAPABILITIES
        invariant forall k :: 0 <= k < i && c.slots[k].Some? ==> !CS.Usable(c.slots[k].value, pid, kind, perms, now)
      {
        var cap := slots[i];
        if cap != null {
          assert c.slots[i] == Some(cap.Value());
          if cap.owner == pid && cap.kind == kind && CS.Allows(cap.perms, perms) {
            if CS.Unexpired(cap.expiration, now) {
              var ok := cap.Verify();
              if ok {
                assert CS.Usable(c.slots[i].value, pid, kind, perms, now);
                return CS.Success;
              }
            }
          }
        }
      }
      return CS.PermissionDenied;
    }
  }
}
