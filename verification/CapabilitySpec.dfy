/** Capabilities: who may do what, how ownership moves, and when a signature still verifies. */
module CapabilitySpec {
  import opened Common
  import opened Words

  const MAX_CAPABILITIES: nat := 1024
  const PERM_TRANSFER: bv32 := 0x20
  const KERNEL_PID: bv32 := 0

  /** A capability, with its history: `serial` counts all capabilities ever made, `signed` is the
      exclusive or of resource and expiration when it was last signed, and `stamp` is the expiration
      it had when last transferred. */
  datatype Cap = Cap(
    id: bv32,
    owner: bv32,
    kind: bv32,
    perms: bv32,
    resource: bv32,
    expiration: bv32,
    signature: bv32,
    serial: nat,
    signed: bv32,
    stamp: Option<bv32>)

  datatype Caps = Caps(slots: seq<Option<Cap>>, count: nat, nextId: bv32, serial: nat)

  datatype Status = Success | InvalidParam | PermissionDenied | OutOfMemory

  // ----- signatures

  function Xor(a: bv32, b: bv32): bv32 {
    a ^ b
  }

  /** The part of the checksum whose fields are always signed when they change. */
  function Face(c: Cap): bv32 {
    Xor(Xor(Xor(c.id, c.owner), c.kind), c.perms)
  }

  function Checksum(c: Cap): bv32 {
    Xor(Xor(Face(c), c.resource), c.expiration)
  }

  /** `capability_generate_signature`. */
  function Sign(c: Cap): Cap {
    c.(signature := Checksum(c), signed := Xor(c.resource, c.expiration))
  }

  /** `capability_verify_signature`. */
  predicate Verifies(c: Cap) {
    c.signature == Checksum(c)
  }

  // ----- the operations

  /** The first empty slot, or the size of the table. */
  function FirstFree(slots: seq<Option<Cap>>): (i: nat)
    ensures i <= |slots|
    ensures i < |slots| ==> slots[i].None?
    ensures forall k :: 0 <= k < i ==> slots[k].Some?
  {
    if slots == [] || slots[0].None? then 0 else 1 + FirstFree(slots[1..])
  }

  function Fresh(c: Caps, owner: bv32, kind: bv32, perms: bv32): Cap {
    Sign(Cap(c.nextId, owner, kind, perms, 0, 0, 0, c.serial, 0, None))
  }

  /** `memory` says whether a page can be had for the capability. */
  predicate Accepts(c: Caps, memory: bool) {
    c.count < MAX_CAPABILITIES && memory
  }

  /** The slot and the count change only if an empty slot is found. */
  function Insert(c: Caps, cap: Cap): Caps {
    var i := FirstFree(c.slots);
    if i == |c.slots| then c else c.(slots := c.slots[i := Some(cap)], count := c.count + 1)
  }

  function Store(c: Caps, cap: Cap): Caps {
    Insert(c.(nextId := c.nextId + 1, serial := c.serial + 1), cap)
  }

  function Create(c: Caps, owner: bv32, kind: bv32, perms: bv32, memory: bool): (Caps, Option<Cap>) {
    if Accepts(c, memory) then (Store(c, Fresh(c, owner, kind, perms)), Some(Fresh(c, owner, kind, perms)))
    else (c, None)
  }

  /** The resource is written after the signature was made. */
  function Grant(c: Caps, current: Option<bv32>, pid: bv32, kind: bv32, perms: bv32, resource: bv32, memory: bool)
    : (Caps, Status)
  {
    if current != Some(KERNEL_PID) then (c, PermissionDenied)
    else if !Accepts(c, memory) then (c, OutOfMemory)
    else (Store(c, Fresh(c, pid, kind, perms).(resource := resource)), Success)
  }

  function DestroyAt(c: Caps, i: nat): Caps {
    if i < |c.slots| && c.slots[i].Some? && c.count > 0
    then c.(slots := c.slots[i := None], count := c.count - 1)
    else c
  }

  function Transfer(c: Caps, current: Option<bv32>, i: nat, owner: bv32): (Caps, Status) {
    if i >= |c.slots| || c.slots[i].None? then (c, InvalidParam)
    else
      var cap := c.slots[i].value;
      if current != Some(cap.owner) || cap.perms & PERM_TRANSFER == 0 then (c, PermissionDenied)
      else (c.(slots := c.slots[i := Some(Sign(cap.(owner := owner, stamp := Some(cap.expiration))))]), Success)
  }

  /** The signature is not made anew. */
  function SetExpiration(c: Caps, current: Option<bv32>, i: nat, time: bv32): (Caps, Status) {
    if i >= |c.slots| || c.slots[i].None? then (c, InvalidParam)
    else
      var cap := c.slots[i].value;
      if current != Some(cap.owner) then (c, PermissionDenied)
      else (c.(slots := c.slots[i := Some(cap.(expiration := time))]), Success)
  }

  predicate Unexpired(expiration: bv32, now: bv32) {
    expiration == 0 || expiration > now
  }

  predicate Lapsed(expiration: bv32, now: bv32) {
    expiration > 0 && expiration <= now
  }

  predicate Allows(perms: bv32, wanted: bv32) {
    perms & wanted == wanted
  }

  /** What a sweep over the table destroys. */
  datatype Selector = Expired(now: bv32) | Matching(pid: bv32, kind: bv32, resource: bv32)

  predicate Selected(sel: Selector, cap: Cap) {
    match sel
    case Expired(now) => Lapsed(cap.expiration, now)
    case Matching(pid, kind, resource) =>
      cap.owner == pid && cap.kind == kind && (resource == 0 || cap.resource == resource)
  }

  /** The first `n` slots swept. */
  function Sweep(c: Caps, sel: Selector, n: nat): Caps {
    if n == 0 then c
    else
      var c' := Sweep(c, sel, n - 1);
      if n - 1 < |c'.slots| && c'.slots[n - 1].Some? && Selected(sel, c'.slots[n - 1].value)
      then DestroyAt(c', n - 1)
      else c'
  }

  function Revoke(c: Caps, current: Option<bv32>, pid: bv32, kind: bv32, resource: bv32): (Caps, Status) {
    if current != Some(KERNEL_PID) then (c, PermissionDenied)
    else (Sweep(c, Matching(pid, kind, resource), |c.slots|), Success)
  }

  /** `capability_check`. */
  predicate Usable(cap: Cap, pid: bv32, kind: bv32, perms: bv32, now: bv32) {
    && cap.owner == pid && cap.kind == kind
    && Allows(cap.perms, perms)
    && Unexpired(cap.expiration, now)
    && Verifies(cap)
  }

  predicate Check(c: Caps, pid: bv32, kind: bv32, perms: bv32, now: bv32) {
    exists i :: 0 <= i < |c.slots| && c.slots[i].Some? && Usable(c.slots[i].value, pid, kind, perms, now)
  }

  // ----- what every step keeps

  function Occupied(slots: seq<Option<Cap>>): nat {
    if slots == [] then 0 else Occupied(slots[..|slots| - 1]) + (if slots[|slots| - 1].Some? then 1 else 0)
  }

  /** The signature is that of the fields that never change unsigned, and `signed` and `stamp` agree. */
  predicate History(cap: Cap, serial: nat) {
    && cap.serial < serial
    && cap.signature == Xor(Face(cap), cap.signed)
    && cap.signed == (if cap.stamp.None? then 0 else Xor(cap.resource, cap.stamp.value))
  }

  ghost predicate Inv(c: Caps) {
    && |c.slots| == MAX_CAPABILITIES
    && c.count == Occupied(c.slots)
    && (forall i :: 0 <= i < |c.slots| && c.slots[i].Some? ==> History(c.slots[i].value, c.serial))
  }

  lemma {:induction false} OccupiedUpdate(slots: seq<Option<Cap>>, i: nat, s: Option<Cap>)
    requires i < |slots|
    ensures Occupied(slots[i := s]) + (if slots[i].Some? then 1 else 0) == Occupied(slots) + (if s.Some? then 1 else 0)
  {
    var n := |slots| - 1;
    if i == n {
      assert slots[i := s][..n] == slots[..n];
    } else {
      assert slots[i := s][..n] == slots[..n][i := s];
      OccupiedUpdate(slots[..n], i, s);
    }
  }

  lemma {:induction false} FullMeansOccupied(slots: seq<Option<Cap>>)
    ensures Occupied(slots) <= |slots|
    ensures Occupied(slots) == |slots| <==> forall k :: 0 <= k < |slots| ==> slots[k].Some?
  {
    if slots != [] {
      var n := |slots| - 1;
      FullMeansOccupied(slots[..n]);
      assert forall k :: 0 <= k < n ==> slots[..n][k] == slots[k];
    }
  }

  /** The count is the number of occupied slots, so an accepted capability is always stored. */
  lemma AcceptedIsStored(c: Caps, memory: bool)
    requires Inv(c)
    ensures c.count <= 1024
    ensures Accepts(c, memory) <==> memory && c.count < 1024
    ensures Accepts(c, memory) <==> memory && FirstFree(c.slots) < |c.slots|
  {
    FullMeansOccupied(c.slots);
  }

  // ----- exclusive or

  lemma XorRegroup(a: bv32, b: bv32, c: bv32)
    ensures Xor(Xor(a, b), c) == Xor(a, Xor(b, c))
  {
  }

  lemma XorCancels(a: bv32, b: bv32, c: bv32)
    ensures Xor(a, b) == Xor(a, c) <==> b == c
  {
  }

  lemma XorZero(a: bv32, b: bv32)
    ensures Xor(a, b) == 0 <==> a == b
  {
  }

  lemma XorLaws(a: bv32, b: bv32, c: bv32)
    ensures Xor(Xor(a, b), c) == Xor(a, Xor(b, c))
    ensures Xor(a, b) == Xor(a, c) <==> b == c
    ensures Xor(a, b) == 0 <==> a == b
  {
    hide Xor;
    XorRegroup(a, b, c);
    XorCancels(a, b, c);
    XorZero(a, b);
  }

  lemma SignedHistory(cap: Cap)
    ensures Sign(cap).signature == Xor(Face(cap), Sign(cap).signed) && Face(Sign(cap)) == Face(cap)
  {
    hide Xor;
    XorLaws(Face(cap), cap.resource, cap.expiration);
  }

  /** A signature verifies exactly when resource and expiration combine as when it was made: the
      expiration is the one at the last transfer, or equals the resource if there was none. */
  lemma VerifiesIff(cap: Cap, serial: nat)
    requires History(cap, serial)
    ensures Verifies(cap) <==> Xor(cap.resource, cap.expiration) == cap.signed
    ensures Verifies(cap) <==> cap.expiration == if cap.stamp.None? then cap.resource else cap.stamp.value
  {
    hide Xor, Face;
    XorLaws(Face(cap), cap.resource, cap.expiration);
    XorLaws(Face(cap), cap.signed, Xor(cap.resource, cap.expiration));
    if cap.stamp.Some? {
      XorLaws(cap.resource, cap.stamp.value, cap.expiration);
    } else {
      XorLaws(cap.resource, cap.expiration, 0);
    }
  }

  /** A signature that verifies no longer does when any one of the six fields is changed without signing. */
  lemma SignatureCovers(cap: Cap, x: bv32)
    requires Verifies(cap)
    ensures Verifies(cap.(id := x)) <==> x == cap.id
    ensures Verifies(cap.(owner := x)) <==> x == cap.owner
    ensures Verifies(cap.(kind := x)) <==> x == cap.kind
    ensures Verifies(cap.(perms := x)) <==> x == cap.perms
    ensures Verifies(cap.(resource := x)) <==> x == cap.resource
    ensures Verifies(cap.(expiration := x)) <==> x == cap.expiration
  {
    hide Xor, Face;
    ResourceCovered(Face(cap), cap.resource, cap.expiration, x);
    FaceCovers(cap, x);
    FaceCovered(Face(cap), Face(cap.(id := x)), cap.resource, cap.expiration);
    FaceCovered(Face(cap), Face(cap.(owner := x)), cap.resource, cap.expiration);
    FaceCovered(Face(cap), Face(cap.(kind := x)), cap.resource, cap.expiration);
    FaceCovered(Face(cap), Face(cap.(perms := x)), cap.resource, cap.expiration);
    assert Face(cap.(resource := x)) == Face(cap) == Face(cap.(expiration := x)) by { FaceIsOfFour(cap, x); }
  }

  lemma FaceCovers(cap: Cap, x: bv32)
    ensures Face(cap.(id := x)) == Face(cap) <==> x == cap.id
    ensures Face(cap.(owner := x)) == Face(cap) <==> x == cap.owner
    ensures Face(cap.(kind := x)) == Face(cap) <==> x == cap.kind
    ensures Face(cap.(perms := x)) == Face(cap) <==> x == cap.perms
  {
    hide Xor;
    var a, b, c, d := cap.id, cap.owner, cap.kind, cap.perms;
    XorSame(x, a, b);
    XorSame(Xor(x, b), Xor(a, b), c);
    XorSame(Xor(Xor(x, b), c), Xor(Xor(a, b), c), d);
    XorCancels(a, x, b);
    XorSame(Xor(a, x), Xor(a, b), c);
    XorSame(Xor(Xor(a, x), c), Xor(Xor(a, b), c), d);
    XorCancels(Xor(a, b), x, c);
    XorSame(Xor(Xor(a, b), x), Xor(Xor(a, b), c), d);
    XorCancels(Xor(Xor(a, b), c), x, d);
  }

  lemma XorSame(a: bv32, b: bv32, c: bv32)
    ensures Xor(a, c) == Xor(b, c) <==> a == b
  {
  }

  lemma FaceIsOfFour(cap: Cap, x: bv32)
    ensures Face(cap.(resource := x)) == Face(cap) == Face(cap.(expiration := x))
  {
    hide Xor;
  }

  lemma FaceCovered(f: bv32, g: bv32, resource: bv32, expiration: bv32)
    ensures Xor(Xor(g, resource), expiration) == Xor(Xor(f, resource), expiration) <==> g == f
  {
  }

  lemma ResourceCovered(f: bv32, resource: bv32, expiration: bv32, x: bv32)
    ensures Xor(Xor(f, x), expiration) == Xor(Xor(f, resource), expiration) <==> x == resource
    ensures Xor(Xor(f, resource), x) == Xor(Xor(f, resource), expiration) <==> x == expiration
  {
  }

  // ----- every step

  datatype Step =
    | CreateStep(owner: bv32, kind: bv32, perms: bv32, memory: bool)
    | DestroyStep(i: nat)
    | TransferStep(i: nat, to: bv32)
    | ExpirationStep(i: nat, time: bv32)
    | CleanupStep(now: bv32)
    | GrantStep(pid: bv32, kind: bv32, perms: bv32, resource: bv32, memory: bool)
    | RevokeStep(pid: bv32, kind: bv32, resource: bv32)

  /** A step taken while `current` is the running process. */
  function Next(c: Caps, current: Option<bv32>, step: Step): Caps {
    match step
    case CreateStep(owner, kind, perms, memory) => Create(c, owner, kind, perms, memory).0
    case DestroyStep(i) => DestroyAt(c, i)
    case TransferStep(i, to) => Transfer(c, current, i, to).0
    case ExpirationStep(i, time) => SetExpiration(c, current, i, time).0
    case CleanupStep(now) => Sweep(c, Expired(now), |c.slots|)
    case GrantStep(pid, kind, perms, resource, memory) => Grant(c, current, pid, kind, perms, resource, memory).0
    case RevokeStep(pid, kind, resource) => Revoke(c, current, pid, kind, resource).0
  }

  lemma ReplaceKeepsInv(c: Caps, i: nat, cap: Cap)
    requires Inv(c) && i < |c.slots| && c.slots[i].Some? && History(cap, c.serial)
    ensures Inv(c.(slots := c.slots[i := Some(cap)]))
  {
    hide History, Occupied;
    OccupiedUpdate(c.slots, i, Some(cap));
  }

  lemma StoreKeepsInv(c: Caps, cap: Cap)
    requires Inv(c) && History(cap, c.serial + 1)
    ensures Inv(Store(c, cap))
  {
    hide Occupied, Xor;
    var i := FirstFree(c.slots);
    if i < |c.slots| {
      OccupiedUpdate(c.slots, i, Some(cap));
    }
  }

  lemma DestroyKeepsInv(c: Caps, i: nat)
    requires Inv(c)
    ensures Inv(DestroyAt(c, i))
    ensures i < |c.slots| && c.slots[i].Some? ==> c.count > 0
  {
    hide History, Occupied;
    if i < |c.slots| {
      OccupiedUpdate(c.slots, i, None);
    }
  }

  /** A sweep destroys exactly the capabilities that it selects. */
  lemma {:induction false} SweepRemovesSelected(c: Caps, sel: Selector, n: nat)
    requires Inv(c) && n <= |c.slots|
    ensures Inv(Sweep(c, sel, n)) && Sweep(c, sel, n).nextId == c.nextId && Sweep(c, sel, n).serial == c.serial
    ensures forall i :: 0 <= i < |c.slots| ==>
      Sweep(c, sel, n).slots[i] ==
        if i < n && c.slots[i].Some? && Selected(sel, c.slots[i].value) then None else c.slots[i]
  {
    hide History, Occupied, Selected;
    if n > 0 {
      SweepRemovesSelected(c, sel, n - 1);
      DestroyKeepsInv(Sweep(c, sel, n - 1), n - 1);
    }
  }

  lemma FreshHasHistory(c: Caps, owner: bv32, kind: bv32, perms: bv32, resource: bv32)
    ensures History(Fresh(c, owner, kind, perms).(resource := resource), c.serial + 1)
    ensures History(Fresh(c, owner, kind, perms), c.serial + 1)
  {
    hide Xor;
    SignedHistory(Cap(c.nextId, owner, kind, perms, 0, 0, 0, c.serial, 0, None));
    XorZero(0, 0);
  }

  lemma TransferKeepsInv(c: Caps, current: Option<bv32>, i: nat, to: bv32)
    requires Inv(c)
    ensures Inv(Transfer(c, current, i, to).0)
  {
    hide Occupied, Xor, Face, Inv;
    InvHasHistory(c);
    if i < |c.slots| && c.slots[i].Some? {
      var cap := c.slots[i].value;
      SignedHistory(cap.(owner := to, stamp := Some(cap.expiration)));
      ReplaceKeepsInv(c, i, Sign(cap.(owner := to, stamp := Some(cap.expiration))));
    }
  }

  lemma ExpirationKeepsInv(c: Caps, current: Option<bv32>, i: nat, time: bv32)
    requires Inv(c)
    ensures Inv(SetExpiration(c, current, i, time).0)
  {
    hide Occupied, Xor, Inv;
    InvHasHistory(c);
    if i < |c.slots| && c.slots[i].Some? {
      ReplaceKeepsInv(c, i, c.slots[i].value.(expiration := time));
    }
  }

  lemma NextKeepsInv(c: Caps, current: Option<bv32>, step: Step)
    requires Inv(c)
    ensures Inv(Next(c, current, step))
  {
    hide Occupied, Xor, Inv, Store, Sweep, DestroyAt, Transfer, SetExpiration, History, Fresh;
    InvHasHistory(c);
    match step
    case CreateStep(owner, kind, perms, memory) =>
      FreshHasHistory(c, owner, kind, perms, 0);
      StoreKeepsInv(c, Fresh(c, owner, kind, perms));
    case DestroyStep(i) => DestroyKeepsInv(c, i);
    case TransferStep(i, to) => TransferKeepsInv(c, current, i, to);
    case ExpirationStep(i, time) => ExpirationKeepsInv(c, current, i, time);
    case CleanupStep(now) => SweepRemovesSelected(c, Expired(now), |c.slots|);
    case GrantStep(pid, kind, perms, resource, memory) =>
      FreshHasHistory(c, pid, kind, perms, resource);
      StoreKeepsInv(c, Fresh(c, pid, kind, perms).(resource := resource));
    case RevokeStep(pid, kind, resource) => SweepRemovesSelected(c, Matching(pid, kind, resource), |c.slots|);
  }

  lemma InvHasHistory(c: Caps)
    requires Inv(c)
    ensures |c.slots| == MAX_CAPABILITIES
    ensures forall i :: 0 <= i < |c.slots| && c.slots[i].Some? ==> History(c.slots[i].value, c.serial)
  {
    hide Occupied, History;
  }

  // ----- every run

  /** A step and the process that was running. */
  datatype Event = Event(current: Option<bv32>, step: Step)

  function Run(c: Caps, events: seq<Event>): Caps {
    if events == [] then c
    else
      var before := Run(c, events[..|events| - 1]);
      Next(before, events[|events| - 1].current, events[|events| - 1].step)
  }

  lemma {:induction false} RunKeepsInv(c: Caps, events: seq<Event>)
    requires Inv(c)
    ensures Inv(Run(c, events))
  {
    hide Inv, Next;
    if events != [] {
      RunKeepsInv(c, events[..|events| - 1]);
      NextKeepsInv(Run(c, events[..|events| - 1]), events[|events| - 1].current, events[|events| - 1].step);
    }
  }

  /** What `capability_init` leaves. */
  predicate Initial(c: Caps) {
    && |c.slots| == MAX_CAPABILITIES && c.count == 0
    && forall i :: 0 <= i < |c.slots| ==> c.slots[i].None?
  }

  lemma {:induction false} NoneOccupied(slots: seq<Option<Cap>>)
    requires forall i :: 0 <= i < |slots| ==> slots[i].None?
    ensures Occupied(slots) == 0
  {
    if slots != [] {
      NoneOccupied(slots[..|slots| - 1]);
    }
  }

  lemma InitialKeepsInv(c: Caps)
    requires Initial(c)
    ensures Inv(c)
  {
    NoneOccupied(c.slots);
  }

  // ----- confinement

  /** Slot `i` still holds the capability that was there: same name and same rights. */
  predicate SameRights(a: Cap, b: Cap) {
    a.serial == b.serial && a.id == b.id && a.kind == b.kind && a.perms == b.perms && a.resource == b.resource
  }

  /** One step of a process other than the kernel: an older capability keeps its rights, and its owner
      changes only by the owner's own transfer, for which it must carry the permission. */
  lemma StepConfines(c: Caps, current: Option<bv32>, step: Step, i: nat)
    requires Inv(c) && current != Some(KERNEL_PID) && i < |c.slots|
    ensures |Next(c, current, step).slots| == |c.slots| && Next(c, current, step).serial >= c.serial
    ensures var after := Next(c, current, step).slots[i];
      after.Some? && after.value.serial < c.serial ==>
        && c.slots[i].Some? && SameRights(c.slots[i].value, after.value)
        && (after.value.owner != c.slots[i].value.owner ==>
              && step == TransferStep(i, after.value.owner) && current == Some(c.slots[i].value.owner)
              && after.value.perms & PERM_TRANSFER != 0)
  {
    hide Occupied, Xor, Sweep, History;
    match step
    case CleanupStep(now) => SweepRemovesSelected(c, Expired(now), |c.slots|);
    case _ =>
  }

  predicate WithoutKernel(events: seq<Event>) {
    forall k :: 0 <= k < |events| ==> events[k].current != Some(KERNEL_PID)
  }

  /** The `k`-th event hands the capability in slot `i` to `owner`, and is its owner's own. */
  predicate HandedOver(c: Caps, events: seq<Event>, k: nat, i: nat, owner: bv32)
    requires k < |events|
  {
    var before := Run(c, events[..k]);
    && events[k].step == TransferStep(i, owner)
    && i < |before.slots| && before.slots[i].Some? && events[k].current == Some(before.slots[i].value.owner)
  }

  /** Along every run without the kernel, a capability that was made before it keeps its name and its
      rights as long as it remains, and whoever owns it in the end owned it all along or was handed it
      by the owner of the time, with the permission to transfer. */
  lemma {:induction false} Confinement(c: Caps, events: seq<Event>, i: nat)
    requires Inv(c) && WithoutKernel(events) && i < |c.slots|
    ensures |Run(c, events).slots| == |c.slots| && Run(c, events).serial >= c.serial
    ensures var after := Run(c, events).slots[i];
      after.Some? && after.value.serial < c.serial ==>
        && c.slots[i].Some? && SameRights(c.slots[i].value, after.value)
        && (after.value.owner == c.slots[i].value.owner ||
            (after.value.perms & PERM_TRANSFER != 0
             && exists k :: 0 <= k < |events| && HandedOver(c, events, k, i, after.value.owner)))
    decreases |events|
  {
    hide Inv, Next;
    if events != [] {
      var n := |events| - 1;
      var before, after := Run(c, events[..n]), Run(c, events);
      Confinement(c, events[..n], i);
      RunKeepsInv(c, events[..n]);
      StepConfines(before, events[n].current, events[n].step, i);
      if after.slots[i].Some? && after.slots[i].value.serial < c.serial {
        var owner := after.slots[i].value.owner;
        if owner != before.slots[i].value.owner {
          assert HandedOver(c, events, n, i, owner);
        } else if owner != c.slots[i].value.owner {
          var k :| 0 <= k < n && HandedOver(c, events[..n], k, i, owner);
          assert events[..n][..k] == events[..k];
          assert HandedOver(c, events, k, i, owner);
        }
      }
    }
  }

  // ----- permission bits

  /** Permissions are allowed exactly when every one of their bits is held. */
  lemma AllowsIff(perms: bv32, wanted: bv32)
    ensures Allows(perms, wanted) <==> forall k: nat :: k < 32 && Bit(wanted, k) ==> Bit(perms, k)
  {
    hide Allows, And, Mask, OneBit, AndNot;
    if Allows(perms, wanted) {
      forall k: nat | k < 32 && Bit(wanted, k) ensures Bit(perms, k) {
        HeldBit(perms, wanted, Mask(k));
      }
    } else {
      MissingPart(perms, wanted);
      var k := HasBit(AndNot(wanted, perms));
      MaskIsOneBit(k);
      MissingBit(perms, wanted, Mask(k));
      assert Bit(wanted, k) && !Bit(perms, k);
    }
  }

  lemma HeldBit(perms: bv32, wanted: bv32, m: bv32)
    requires Allows(perms, wanted) && And(wanted, m) != 0
    ensures And(perms, m) != 0
  {
  }

  lemma MissingPart(perms: bv32, wanted: bv32)
    requires !Allows(perms, wanted)
    ensures AndNot(wanted, perms) != 0
  {
  }

  lemma MissingBit(perms: bv32, wanted: bv32, m: bv32)
    requires OneBit(m) && And(AndNot(wanted, perms), m) != 0
    ensures And(wanted, m) != 0 && And(perms, m) == 0
  {
  }

  // ----- when a capability can be used

  /** Owned, of the type, with every permission bit asked for, not expired, and with the expiration of its last
      transfer, or that equals its resource if it was never transferred. */
  ghost predicate InForce(cap: Cap, pid: bv32, kind: bv32, wanted: bv32, now: bv32) {
    && cap.owner == pid && cap.kind == kind && HoldsAll(cap.perms, wanted)
    && (Magnitude(cap.expiration) == 0 || Magnitude(now) < Magnitude(cap.expiration))
    && cap.expiration == (if cap.stamp.None? then cap.resource else cap.stamp.value)
  }

  ghost predicate HoldsAll(perms: bv32, wanted: bv32) {
    forall k: nat :: k < 32 && Bit(wanted, k) ==> Bit(perms, k)
  }

  /** After any run, a check succeeds exactly when such a capability is in the table. */
  lemma CheckIff(c: Caps, events: seq<Event>, pid: bv32, kind: bv32, perms: bv32, now: bv32)
    requires Inv(c)
    ensures var c' := Run(c, events);
      Check(c', pid, kind, perms, now) <==>
      exists i :: 0 <= i < |c'.slots| && c'.slots[i].Some? && InForce(c'.slots[i].value, pid, kind, perms, now)
  {
    hide Xor, Occupied, Face, Next, Run, Allows, Bit, Unexpired, Magnitude;
    RunKeepsInv(c, events);
    var c' := Run(c, events);
    forall i | 0 <= i < |c'.slots| && c'.slots[i].Some?
      ensures Usable(c'.slots[i].value, pid, kind, perms, now) <==> InForce(c'.slots[i].value, pid, kind, perms, now)
    {
      VerifiesIff(c'.slots[i].value, c'.serial);
      AllowsIff(c'.slots[i].value.perms, perms);
      UnexpiredIff(c'.slots[i].value.expiration, now);
    }
  }

  /** Asking for less, or earlier, never fails where more succeeded. */
  lemma CheckIsMonotone(c: Caps, pid: bv32, kind: bv32, more: bv32, later: bv32, fewer: bv32, sooner: bv32)
    requires Check(c, pid, kind, more, later) && HoldsAll(more, fewer) && Magnitude(sooner) <= Magnitude(later)
    ensures Check(c, pid, kind, fewer, sooner)
  {
    hide Verifies, Allows, Bit, Unexpired, Magnitude;
    var i :| 0 <= i < |c.slots| && c.slots[i].Some? && Usable(c.slots[i].value, pid, kind, more, later);
    UnexpiredIff(c.slots[i].value.expiration, later);
    UnexpiredIff(c.slots[i].value.expiration, sooner);
    AllowsIff(c.slots[i].value.perms, more);
    AllowsIff(c.slots[i].value.perms, fewer);
    assert Usable(c.slots[i].value, pid, kind, fewer, sooner);
  }

  /** Expiration, as a comparison of numbers. */
  lemma UnexpiredIff(expiration: bv32, now: bv32)
    ensures Unexpired(expiration, now) <==> Magnitude(expiration) == 0 || Magnitude(now) < Magnitude(expiration)
    ensures Lapsed(expiration, now) <==> 0 < Magnitude(expiration) <= Magnitude(now)
  {
    hide Magnitude, Unexpired, Lapsed, Above;
    ComparedAsWords(expiration, now);
    AboveIff(expiration, now);
    ZeroMagnitude(expiration);
  }

  lemma ComparedAsWords(expiration: bv32, now: bv32)
    ensures Unexpired(expiration, now) <==> expiration == 0 || Above(expiration, now)
    ensures Lapsed(expiration, now) <==> expiration != 0 && !Above(expiration, now)
  {
  }

  /** A permission that no capability of the process for the type has, is not given by several together. */
  lemma MissingBitDenies(c: Caps, pid: bv32, kind: bv32, wanted: bv32, now: bv32, k: nat)
    requires k < 32 && Bit(wanted, k)
    requires forall i :: 0 <= i < |c.slots| && c.slots[i].Some? ==>
      var cap := c.slots[i].value; cap.owner == pid && cap.kind == kind ==> !Bit(cap.perms, k)
    ensures !Check(c, pid, kind, wanted, now)
  {
    hide Verifies, Allows, Bit;
    if Check(c, pid, kind, wanted, now) {
      var i :| 0 <= i < |c.slots| && c.slots[i].Some? && Usable(c.slots[i].value, pid, kind, wanted, now);
      AllowsIff(c.slots[i].value.perms, wanted);
    }
  }

  /** A capability that is made is its owner's to use at once. */
  lemma CreateUsable(c: Caps, owner: bv32, kind: bv32, perms: bv32, now: bv32)
    requires Inv(c) && Accepts(c, true)
    ensures var (c', cap) := Create(c, owner, kind, perms, true); cap.Some? && Check(c', owner, kind, perms, now)
  {
    hide Inv, Check, Usable, Fresh, FirstFree;
    AcceptedIsStored(c, true);
    FreshUsableIff(c, owner, kind, perms, 0, now);
    FreshHasNoResource(c, owner, kind, perms);
    StoredIsChecked(c, Store(c, Fresh(c, owner, kind, perms)), FirstFree(c.slots), owner, kind, perms, now);
  }

  lemma FreshHasNoResource(c: Caps, owner: bv32, kind: bv32, perms: bv32)
    ensures Fresh(c, owner, kind, perms).(resource := 0) == Fresh(c, owner, kind, perms)
  {
    hide Xor;
  }

  /** Only the kernel grants and revokes; others change nothing by it. */
  lemma OnlyKernelGrants(c: Caps, current: Option<bv32>, pid: bv32, kind: bv32, perms: bv32, resource: bv32,
    memory: bool)
    ensures Grant(c, current, pid, kind, perms, resource, memory).1 == PermissionDenied <==> current != Some(0)
    ensures Revoke(c, current, pid, kind, resource).1 == PermissionDenied <==> current != Some(0)
    ensures current != Some(0) ==>
      Grant(c, current, pid, kind, perms, resource, memory).0 == c == Revoke(c, current, pid, kind, resource).0
  {
    hide Store, Fresh, Sweep;
  }

  /** A transfer succeeds exactly for the owner, with permission bit 5; it makes the new owner the owner of the
      capability with the same rights, and touches no other. */
  lemma TransferIff(c: Caps, current: Option<bv32>, i: nat, to: bv32)
    ensures var (c', status) := Transfer(c, current, i, to);
      && (status == InvalidParam <==> i >= |c.slots| || c.slots[i].None?)
      && (status == Success <==>
            && i < |c.slots| && c.slots[i].Some?
            && current == Some(c.slots[i].value.owner) && Bit(c.slots[i].value.perms, 5))
      && (status != Success ==> c' == c)
      && (status == Success ==>
            && |c'.slots| == |c.slots| && c' == c.(slots := c.slots[i := c'.slots[i]]) && c'.slots[i].Some?
            && c'.slots[i].value.owner == to && SameRights(c.slots[i].value, c'.slots[i].value)
            && c'.slots[i].value.expiration == c.slots[i].value.expiration)
  {
    hide Xor, Bit;
    if i < |c.slots| && c.slots[i].Some? {
      TransferBit(c.slots[i].value.perms);
    }
  }

  /** Only the owner sets the expiration, and nothing else changes by it. */
  lemma ExpirationIff(c: Caps, current: Option<bv32>, i: nat, time: bv32)
    ensures var (c', status) := SetExpiration(c, current, i, time);
      && (status == InvalidParam <==> i >= |c.slots| || c.slots[i].None?)
      && (status == Success <==> i < |c.slots| && c.slots[i].Some? && current == Some(c.slots[i].value.owner))
      && (status != Success ==> c' == c)
      && (status == Success ==> c' == c.(slots := c.slots[i := Some(c.slots[i].value.(expiration := time))]))
  {
  }

  lemma TransferBit(perms: bv32)
    ensures Bit(perms, 5) <==> perms & PERM_TRANSFER != 0
  {
  }

  /** Revoking without naming a resource leaves the process no capability of the type, so every check for it
      fails; with one, those for another resource are left. Nobody else's are touched. */
  lemma RevokedIsDenied(c: Caps, pid: bv32, kind: bv32, resource: bv32, perms: bv32, now: bv32)
    requires Inv(c)
    ensures var c' := Revoke(c, Some(KERNEL_PID), pid, kind, resource).0;
      && |c'.slots| == |c.slots|
      && (forall i :: 0 <= i < |c.slots| && c.slots[i].Some? ==>
            var cap := c.slots[i].value;
            c'.slots[i] ==
              if cap.owner == pid && cap.kind == kind && (resource == 0 || cap.resource == resource) then None
              else c.slots[i])
      && (resource == 0 ==> !Check(c', pid, kind, perms, now))
  {
    hide Inv, Allows, Verifies, Sweep;
    InvHasHistory(c);
    SweepRemovesSelected(c, Matching(pid, kind, resource), |c.slots|);
    InvHasHistory(Sweep(c, Matching(pid, kind, resource), |c.slots|));
  }

  /** Cleaning up removes exactly the capabilities that have expired, */
  lemma CleanupRemovesLapsed(c: Caps, now: bv32, i: nat)
    requires Inv(c) && i < |c.slots| && c.slots[i].Some?
    ensures var slots := Sweep(c, Expired(now), |c.slots|).slots;
      && |slots| == |c.slots| && (slots[i].Some? ==> slots[i] == c.slots[i])
      && (slots[i].None? <==> 0 < Magnitude(c.slots[i].value.expiration) <= Magnitude(now))
  {
    hide Inv, Sweep, Lapsed, Magnitude;
    InvHasHistory(c);
    SweepRemovesSelected(c, Expired(now), |c.slots|);
    InvHasHistory(Sweep(c, Expired(now), |c.slots|));
    UnexpiredIff(c.slots[i].value.expiration, now);
  }

  /** which changes no check, then or later. */
  lemma CleanupKeepsChecks(c: Caps, now: bv32, pid: bv32, kind: bv32, perms: bv32, later: bv32)
    requires Inv(c) && Magnitude(now) <= Magnitude(later)
    ensures Check(Sweep(c, Expired(now), |c.slots|), pid, kind, perms, later) <==> Check(c, pid, kind, perms, later)
  {
    hide Inv, Usable, Sweep, Lapsed, Magnitude;
    InvHasHistory(c);
    SweepRemovesSelected(c, Expired(now), |c.slots|);
    var c' := Sweep(c, Expired(now), |c.slots|);
    InvHasHistory(c');
    if Check(c, pid, kind, perms, later) {
      var i :| 0 <= i < |c.slots| && c.slots[i].Some? && Usable(c.slots[i].value, pid, kind, perms, later);
      if Lapsed(c.slots[i].value.expiration, now) {
        LapsedIsUnusable(c.slots[i].value, now, pid, kind, perms, later);
      }
      assert c'.slots[i] == c.slots[i];
    }
    if Check(c', pid, kind, perms, later) {
      var i :| 0 <= i < |c'.slots| && c'.slots[i].Some? && Usable(c'.slots[i].value, pid, kind, perms, later);
      assert c'.slots[i] == c.slots[i];
    }
  }

  lemma LapsedIsUnusable(cap: Cap, now: bv32, pid: bv32, kind: bv32, perms: bv32, later: bv32)
    requires Lapsed(cap.expiration, now) && Magnitude(now) <= Magnitude(later)
    ensures !Usable(cap, pid, kind, perms, later)
  {
    hide Lapsed, Unexpired, Magnitude, Verifies, Allows;
    UnexpiredIff(cap.expiration, now);
    UnexpiredIff(cap.expiration, later);
  }

  // ----- identifiers

  /** Capabilities are numbered in the order they were made, in 32 bits; `first` is the number of the first. */
  ghost predicate Numbered(c: Caps, first: nat) {
    && Magnitude(c.nextId) == Wrap(first + c.serial)
    && forall i :: 0 <= i < |c.slots| && c.slots[i].Some? ==>
      var cap := c.slots[i].value; cap.serial < c.serial && Magnitude(cap.id) == Wrap(first + cap.serial)
  }

  lemma StoreKeepsNumbered(c: Caps, cap: Cap, first: nat)
    requires Numbered(c, first) && cap.id == c.nextId && cap.serial == c.serial
    ensures Numbered(Store(c, cap), first)
  {
    hide Magnitude;
    IncrementMagnitude(c.nextId);
  }

  lemma NextKeepsNumbered(c: Caps, current: Option<bv32>, step: Step, first: nat)
    requires Inv(c) && Numbered(c, first)
    ensures Numbered(Next(c, current, step), first)
  {
    hide Occupied, Xor, Sweep, History, Face, Inv, Store, Magnitude, Wrap;
    InvHasHistory(c);
    match step
    case CreateStep(owner, kind, perms, memory) => StoreKeepsNumbered(c, Fresh(c, owner, kind, perms), first);
    case GrantStep(pid, kind, perms, resource, memory) =>
      StoreKeepsNumbered(c, Fresh(c, pid, kind, perms).(resource := resource), first);
    case CleanupStep(now) => SweepKeepsNumbered(c, Expired(now), first);
    case RevokeStep(pid, kind, resource) => SweepKeepsNumbered(c, Matching(pid, kind, resource), first);
    case _ =>
  }

  lemma SweepKeepsNumbered(c: Caps, sel: Selector, first: nat)
    requires Inv(c) && Numbered(c, first)
    ensures Numbered(Sweep(c, sel, |c.slots|), first)
  {
    hide Sweep, Inv, Magnitude, Wrap, Selected;
    SweepRemovesSelected(c, sel, |c.slots|);
    InvHasHistory(c);
    InvHasHistory(Sweep(c, sel, |c.slots|));
  }

  lemma {:induction false} RunKeepsNumbered(c: Caps, events: seq<Event>, first: nat)
    requires Inv(c) && Numbered(c, first)
    ensures Numbered(Run(c, events), first)
    decreases |events|
  {
    hide Inv, Next, Numbered;
    if events != [] {
      var n := |events| - 1;
      RunKeepsNumbered(c, events[..n], first);
      RunKeepsInv(c, events[..n]);
      NextKeepsNumbered(Run(c, events[..n]), events[n].current, events[n].step, first);
    }
  }

  /** Over every run, no two capabilities in the table have the same identifier, unless a multiple of 2^32 were
      made from the one to the other. */
  lemma IdsDistinctIff(c: Caps, events: seq<Event>, first: nat, i: nat, j: nat)
    requires Inv(c) && Numbered(c, first)
    requires var slots := Run(c, events).slots; i < |slots| && j < |slots| && slots[i].Some? && slots[j].Some?
    ensures var a, b := Run(c, events).slots[i].value, Run(c, events).slots[j].value;
      a.id == b.id <==> (a.serial - b.serial) % WORD_VALUES == 0
  {
    hide Inv, Run, Magnitude, Wrap;
    RunKeepsNumbered(c, events, first);
    var a, b := Run(c, events).slots[i].value, Run(c, events).slots[j].value;
    AboveIff(a.id, b.id);
    WrapsAlike(first + a.serial, first + b.serial);
  }

  lemma WrapsAlike(x: int, y: int)
    ensures Wrap(x) == Wrap(y) <==> (x - y) % WORD_VALUES == 0
  {
  }

  lemma AllPermissions(perms: bv32)
    ensures perms & perms == perms
  {
  }

  lemma FreshUsableIff(c: Caps, pid: bv32, kind: bv32, perms: bv32, resource: bv32, now: bv32)
    ensures Usable(Fresh(c, pid, kind, perms).(resource := resource), pid, kind, perms, now) <==> resource == 0
  {
    hide Xor, Face;
    FreshHasHistory(c, pid, kind, perms, resource);
    VerifiesIff(Fresh(c, pid, kind, perms).(resource := resource), c.serial + 1);
    AllPermissions(perms);
  }

  /** A grant makes a check succeed exactly when it names no resource: the signature does not cover
      the resource written after it. */
  lemma GrantUsableIff(c: Caps, pid: bv32, kind: bv32, perms: bv32, resource: bv32, now: bv32)
    requires Inv(c) && Accepts(c, true)
    ensures var (c', status) := Grant(c, Some(KERNEL_PID), pid, kind, perms, resource, true);
      status == Success && (Check(c', pid, kind, perms, now) <==> Check(c, pid, kind, perms, now) || resource == 0)
  {
    hide Inv, Check, Usable, Fresh, FirstFree;
    AcceptedIsStored(c, true);
    FreshUsableIff(c, pid, kind, perms, resource, now);
    StoredIsChecked(c, Store(c, Fresh(c, pid, kind, perms).(resource := resource)), FirstFree(c.slots), pid, kind,
      perms, now);
  }

  lemma StoredIsChecked(c: Caps, c': Caps, i: nat, pid: bv32, kind: bv32, perms: bv32, now: bv32)
    requires i < |c.slots| == |c'.slots| && c.slots[i].None? && c'.slots[i].Some?
    requires c'.slots == c.slots[i := c'.slots[i]]
    ensures Check(c', pid, kind, perms, now) <==>
      Check(c, pid, kind, perms, now) || Usable(c'.slots[i].value, pid, kind, perms, now)
  {
    hide Usable;
    if Check(c, pid, kind, perms, now) {
      var k :| 0 <= k < |c.slots| && c.slots[k].Some? && Usable(c.slots[k].value, pid, kind, perms, now);
      assert c'.slots[k].Some? && Usable(c'.slots[k].value, pid, kind, perms, now);
    }
  }

  /** A transfer signs anew, so the new owner can use the capability until it expires, whatever its
      resource; setting another expiration afterwards makes it unusable. */
  lemma TransferRenews(c: Caps, i: nat, to: bv32, time: bv32)
    requires Inv(c) && i < |c.slots| && c.slots[i].Some? && c.slots[i].value.perms & PERM_TRANSFER != 0
    ensures var c1 := Transfer(c, Some(c.slots[i].value.owner), i, to).0;
      var c2 := SetExpiration(c1, Some(to), i, time).0;
      && |c1.slots| == |c2.slots| == |c.slots| && c1.slots[i].Some? && c2.slots[i].Some?
      && Verifies(c1.slots[i].value)
      && (Verifies(c2.slots[i].value) <==> time == c.slots[i].value.expiration)
  {
    hide Xor, Occupied, Face;
    var owner := c.slots[i].value.owner;
    TransferKeepsInv(c, Some(owner), i, to);
    var c1 := Transfer(c, Some(owner), i, to).0;
    VerifiesIff(c1.slots[i].value, c1.serial);
    ExpirationKeepsInv(c1, Some(to), i, time);
    var c2 := SetExpiration(c1, Some(to), i, time).0;
    VerifiesIff(c2.slots[i].value, c2.serial);
  }
}
