/**
  The fixed-capacity slab: an intrusive free list threaded through the unused slots, refined
  against an explicit stack of free ids.
 */
module Slab {
  import opened Bytes

  datatype Slot<T> = Free(next: Option<nat>) | Occupied(value: T)

  datatype Slab<T> = Slab(slots: seq<Slot<T>>, head: Option<nat>)

  /** The free ids from first to last, the ids handed out and not yet occupied, and the values. */
  datatype Model<T> = Model(capacity: nat, stack: seq<nat>, held: set<nat>, live: map<nat, T>)

  // --- The intrusive list -----------------------------------------------------------------

  /** Following the links from `head` visits exactly `chain`. */
  predicate Linked<T>(slots: seq<Slot<T>>, head: Option<nat>, chain: seq<nat>)
    decreases |chain|
  {
    if chain == [] then head.None?
    else
      && head == Some(chain[0]) && chain[0] < |slots| && slots[chain[0]].Free?
      && Linked(slots, slots[chain[0]].next, chain[1..])
  }

  predicate Distinct(s: seq<nat>) {
    forall i, j :: 0 <= i < j < |s| ==> s[i] != s[j]
  }

  /** Every slot is free and listed once, handed out, or occupied by its value. */
  ghost predicate Refines<T>(s: Slab<T>, m: Model<T>) {
    && |s.slots| == m.capacity
    && Linked(s.slots, s.head, m.stack) && Distinct(m.stack)
    && (forall id :: id in m.stack ==> id < m.capacity && id !in m.held && id !in m.live)
    && (forall id :: id in m.held ==> id < m.capacity && id !in m.live && s.slots[id].Free?)
    && (forall id :: id in m.live ==> id < m.capacity && s.slots[id] == Occupied(m.live[id]))
    && (forall id :: 0 <= id < m.capacity ==> id in m.stack || id in m.held || id in m.live)
  }

  /** A slot outside the chain may change without breaking it. */
  lemma {:induction false} LinkedFrame<T>(slots: seq<Slot<T>>, slots': seq<Slot<T>>, head: Option<nat>, chain: seq<nat>)
    requires Linked(slots, head, chain) && |slots'| == |slots|
    requires forall id :: id in chain && id < |slots| ==> slots'[id] == slots[id]
    ensures Linked(slots', head, chain)
    decreases |chain|
  {
    if chain != [] {
      assert chain[0] in chain;
      assert forall id :: id in chain[1..] ==> id in chain;
      LinkedFrame(slots, slots', slots[chain[0]].next, chain[1..]);
    }
  }

  lemma {:induction false} LinkedFree<T>(slots: seq<Slot<T>>, head: Option<nat>, chain: seq<nat>)
    requires Linked(slots, head, chain)
    ensures forall id :: id in chain ==> id < |slots| && slots[id].Free?
    decreases |chain|
  {
    if chain != [] {
      LinkedFree(slots, slots[chain[0]].next, chain[1..]);
      assert chain == [chain[0]] + chain[1..];
    }
  }

  /** The chain is determined by the links: the free list has one reading. */
  lemma {:induction false} LinkedUnique<T>(slots: seq<Slot<T>>, head: Option<nat>, a: seq<nat>, b: seq<nat>)
    requires Linked(slots, head, a) && Linked(slots, head, b)
    ensures a == b
    decreases |a|
  {
    if a != [] && b != [] {
      LinkedUnique(slots, slots[a[0]].next, a[1..], b[1..]);
      assert a == [a[0]] + a[1..] && b == [b[0]] + b[1..];
    }
  }

  // --- Operations -------------------------------------------------------------------------

  function NewSlab<T>(capacity: nat): Slab<T> {
    Slab(seq(capacity, id requires 0 <= id < capacity => Free(if id + 1 < capacity then Some(id + 1) else None)),
         if capacity > 0 then Some(0) else None)
  }

  /** `acquire`: unlinks the head; the slot itself is not touched. */
  function Acquire<T>(s: Slab<T>): (r: (Slab<T>, Option<nat>))
    requires s.head.Some? ==> s.head.value < |s.slots| && s.slots[s.head.value].Free?
  {
    if s.head.None? then (s, None)
    else (s.(head := s.slots[s.head.value].next), s.head)
  }

  function Occupy<T>(s: Slab<T>, id: nat, value: T): Slab<T>
    requires id < |s.slots|
  {
    s.(slots := s.slots[id := Occupied(value)])
  }

  /** `release`, by id or through a guard: links the slot in front. */
  function Release<T>(s: Slab<T>, id: nat): Slab<T>
    requires id < |s.slots|
  {
    Slab(s.slots[id := Free(s.head)], Some(id))
  }

  /** Dropping a guard: a slot still free becomes the head again, its link unchanged. */
  function DropGuard<T>(s: Slab<T>, id: nat): Slab<T>
    requires id < |s.slots|
  {
    if s.slots[id].Free? then s.(head := Some(id)) else s
  }

  function Popped<T>(m: Model<T>): Model<T>
    requires m.stack != []
  {
    m.(stack := m.stack[1..], held := m.held + {m.stack[0]})
  }

  // --- Each operation against the stack ---------------------------------------------------

  function Ascending(from: nat, end: nat): (s: seq<nat>)
    requires from <= end
    ensures |s| == end - from
    ensures forall i :: 0 <= i < |s| ==> s[i] == from + i
    decreases end - from
  {
    if from == end then [] else [from] + Ascending(from + 1, end)
  }

  lemma {:induction false} NewLinked<T>(slots: seq<Slot<T>>, from: nat)
    requires from <= |slots|
    requires forall id :: 0 <= id < |slots| ==> slots[id] == Free(if id + 1 < |slots| then Some(id + 1) else None)
    ensures Linked(slots, if from < |slots| then Some(from) else None, Ascending(from, |slots|))
    decreases |slots| - from
  {
    if from < |slots| {
      NewLinked(slots, from + 1);
    }
  }

  /** A new slab has every slot free, in ascending order. */
  lemma {:induction false} NewRefines<T>(capacity: nat)
    ensures Refines(NewSlab<T>(capacity), Model(capacity, Ascending(0, capacity), {}, map[]))
  {
    var s := NewSlab<T>(capacity);
    NewLinked(s.slots, 0);
    forall id | 0 <= id < capacity
      ensures id in Ascending(0, capacity)
    {
      assert Ascending(0, capacity)[id] == id;
    }
  }

  lemma {:induction false} RestOfStack(stack: seq<nat>)
    requires stack != [] && Distinct(stack)
    ensures Distinct(stack[1..]) && stack[0] !in stack[1..]
    ensures forall id :: id in stack <==> id == stack[0] || id in stack[1..]
  {
    var rest := stack[1..];
    assert stack == [stack[0]] + rest;
    assert forall i :: 0 <= i < |rest| ==> rest[i] == stack[i + 1];
  }

  /** `acquire` fails exactly when no slot is free, and otherwise pops the stack. */
  lemma {:induction false} AcquirePops<T>(s: Slab<T>, m: Model<T>)
    requires Refines(s, m)
    ensures s.head.Some? ==> s.head.value < |s.slots| && s.slots[s.head.value].Free?
    ensures var (s', id) := Acquire(s);
            if m.stack == [] then id.None? && s' == s
            else id == Some(m.stack[0]) && Refines(s', Popped(m))
  {
    if m.stack != [] {
      RestOfStack(m.stack);
      LinkedFree(s.slots, s.head, m.stack);
      hide Distinct;
    }
  }

  lemma {:induction false} OccupyRefines<T>(s: Slab<T>, m: Model<T>, id: nat, value: T)
    requires Refines(s, m) && id in m.held
    ensures Refines(Occupy(s, id, value), m.(held := m.held - {id}, live := m.live[id := value]))
  {
    LinkedFrame(s.slots, Occupy(s, id, value).slots, s.head, m.stack);
  }

  /** `release` pushes: the slot released last is acquired first. */
  lemma {:induction false} ReleasePushes<T>(s: Slab<T>, m: Model<T>, id: nat)
    requires Refines(s, m) && id in m.live
    ensures Refines(Release(s, id), m.(stack := [id] + m.stack, live := m.live - {id}))
  {
    var s' := Release(s, id);
    LinkedFrame(s.slots, s'.slots, s.head, m.stack);
    assert ([id] + m.stack)[1..] == m.stack;
    assert Distinct([id] + m.stack);
  }

  /** A guard dropped over a slot still free undoes the acquire that made it. */
  lemma {:induction false} DropUndoesAcquire<T>(s: Slab<T>, m: Model<T>)
    requires Refines(s, m) && m.stack != []
    ensures s.head.Some? && s.head.value < |s.slots| && s.slots[s.head.value].Free?
    ensures var (s', id) := Acquire(s); DropGuard(s', id.value) == s
  {
  }

  // --- Sweeps -----------------------------------------------------------------------------

  /** `entries_mut` from slot `next` on; the caller releases the guards of `drop`. */
  function SweepFrom<T>(s: Slab<T>, next: nat, drop: set<nat>): (r: (Slab<T>, seq<nat>))
    decreases |s.slots| - next
  {
    if next >= |s.slots| then (s, [])
    else if s.slots[next].Free? then SweepFrom(s, next + 1, drop)
    else
      var (s', rest) := SweepFrom(if next in drop then Release(s, next) else s, next + 1, drop);
      (s', [next] + rest)
  }

  /** The occupied ids from `next` on, in ascending order. */
  function LiveFrom<T>(m: Model<T>, next: nat): seq<nat>
    decreases m.capacity - next
  {
    if next >= m.capacity then []
    else if next in m.live then [next] + LiveFrom(m, next + 1)
    else LiveFrom(m, next + 1)
  }

  function Pushed<T>(m: Model<T>, id: nat): Model<T> {
    m.(stack := [id] + m.stack, live := m.live - {id})
  }

  function Swept<T>(m: Model<T>, next: nat, drop: set<nat>): (r: Model<T>)
    ensures r.capacity == m.capacity && r.held == m.held
    ensures forall id :: id in r.live <==> id in m.live && !(next <= id < m.capacity && id in drop)
    ensures forall id :: id in r.live ==> r.live[id] == m.live[id]
    decreases m.capacity - next
  {
    if next >= m.capacity then m
    else Swept(if next in m.live && next in drop then Pushed(m, next) else m, next + 1, drop)
  }

  lemma {:induction false} LiveFromIgnores<T>(m: Model<T>, id: nat, next: nat)
    requires id < next
    ensures LiveFrom(Pushed(m, id), next) == LiveFrom(m, next)
    decreases m.capacity - next
  {
    if next < m.capacity {
      LiveFromIgnores(m, id, next + 1);
    }
  }

  /** A sweep yields exactly the occupied slots, in order, and releases those it is told to. */
  lemma {:induction false} SweepYieldsOccupied<T>(s: Slab<T>, m: Model<T>, next: nat, drop: set<nat>)
    requires Refines(s, m)
    ensures var (s', yielded) := SweepFrom(s, next, drop);
            yielded == LiveFrom(m, next) && Refines(s', Swept(m, next, drop))
    decreases m.capacity - next
  {
    hide Linked, Distinct;
    LinkedFree(s.slots, s.head, m.stack);
    if next < m.capacity {
      if next in m.live && next in drop {
        ReleasePushes(s, m, next);
        SweepYieldsOccupied(Release(s, next), Pushed(m, next), next + 1, drop);
        LiveFromIgnores(m, next, next + 1);
      } else {
        SweepYieldsOccupied(s, m, next + 1, drop);
      }
    }
  }

  // --- Runs -------------------------------------------------------------------------------

  datatype Op<T> =
    | AcquireId
    | OccupyId(id: nat, value: T)
    | ReleaseId(id: nat)
    | GuardDroppedFree
    | GuardOccupied(value: T)
    | GuardReleased(value: T)
    | SweepAll(drop: set<nat>)

  /** Release needs an occupied slot, and an id is occupied by whoever acquired it. */
  predicate Enabled<T>(m: Model<T>, op: Op<T>) {
    match op
    case OccupyId(id, _) => id in m.held
    case ReleaseId(id) => id in m.live
    case _ => true
  }

  /** What occupying the slot of a guard just acquired makes of the model. */
  function Filled<T>(m: Model<T>, value: T): Model<T>
    requires m.stack != []
  {
    m.(stack := m.stack[1..], live := m.live[m.stack[0] := value])
  }

  function StepModel<T>(m: Model<T>, op: Op<T>): Model<T> {
    match op
    case AcquireId => if m.stack == [] then m else Popped(m)
    case OccupyId(id, value) => m.(held := m.held - {id}, live := m.live[id := value])
    case ReleaseId(id) => Pushed(m, id)
    case GuardDroppedFree => m
    case GuardOccupied(value) =>
      if m.stack == [] then m else Filled(m, value)
    case GuardReleased(value) => m
    case SweepAll(drop) => Swept(m, 0, drop)
  }

  function StepSlab<T>(s: Slab<T>, op: Op<T>): Slab<T>
    requires s.head.Some? ==> s.head.value < |s.slots| && s.slots[s.head.value].Free?
    requires op.OccupyId? || op.ReleaseId? ==> op.id < |s.slots|
  {
    match op
    case AcquireId => Acquire(s).0
    case OccupyId(id, value) => Occupy(s, id, value)
    case ReleaseId(id) => Release(s, id)
    case GuardDroppedFree =>
      var (s1, id) := Acquire(s);
      if id.None? then s1 else DropGuard(s1, id.value)
    case GuardOccupied(value) =>
      var (s1, id) := Acquire(s);
      if id.None? then s1 else DropGuard(Occupy(s1, id.value, value), id.value)
    case GuardReleased(value) =>
      var (s1, id) := Acquire(s);
      if id.None? then s1 else Release(Occupy(s1, id.value, value), id.value)
    case SweepAll(drop) => SweepFrom(s, 0, drop).0
  }

  lemma {:induction false} GuardOccupiedRefines<T>(s: Slab<T>, m: Model<T>, value: T)
    requires Refines(s, m) && m.stack != []
    ensures s.head.Some? && s.head.value < |s.slots| && s.slots[s.head.value].Free?
    ensures s.head.value == m.stack[0]
    ensures Refines(Occupy(Acquire(s).0, m.stack[0], value), Filled(m, value))
  {
    AcquirePops(s, m);
    assert m.stack[0] in m.stack;
    hide Linked, Distinct;
    OccupyRefines(Acquire(s).0, Popped(m), m.stack[0], value);
    assert Popped(m).held - {m.stack[0]} == m.held;
  }

  lemma {:induction false} GuardReleasedRefines<T>(s: Slab<T>, m: Model<T>, value: T)
    requires Refines(s, m) && m.stack != []
    ensures s.head.Some? && s.head.value < |s.slots| && s.slots[s.head.value].Free?
    ensures s.head.value == m.stack[0]
    ensures Refines(Release(Occupy(Acquire(s).0, m.stack[0], value), m.stack[0]), m)
  {
    hide Linked, Distinct;
    GuardOccupiedRefines(s, m, value);
    var id, m2 := m.stack[0], Filled(m, value);
    ReleasePushes(Occupy(Acquire(s).0, id, value), m2, id);
    assert Pushed(m2, id) == m by {
      assert id in m.stack;
      assert [id] + m.stack[1..] == m.stack;
      assert m2.live - {id} == m.live;
    }
  }

  lemma {:induction false} StepRefines<T>(s: Slab<T>, m: Model<T>, op: Op<T>)
    requires Refines(s, m) && Enabled(m, op)
    ensures s.head.Some? ==> s.head.value < |s.slots| && s.slots[s.head.value].Free?
    ensures op.OccupyId? || op.ReleaseId? ==> op.id < |s.slots|
    ensures Refines(StepSlab(s, op), StepModel(m, op))
  {
    AcquirePops(s, m);
    assert op.OccupyId? || op.ReleaseId? ==> op.id < |s.slots|;
    hide Linked, Distinct, Refines, Swept;
    match op
    case AcquireId =>
    case OccupyId(id, value) => OccupyRefines(s, m, id, value);
    case ReleaseId(id) => ReleasePushes(s, m, id);
    case GuardDroppedFree =>
      if m.stack != [] {
        DropUndoesAcquire(s, m);
      }
    case GuardOccupied(value) =>
      if m.stack != [] {
        GuardOccupiedRefines(s, m, value);
      }
    case GuardReleased(value) =>
      if m.stack != [] {
        GuardReleasedRefines(s, m, value);
      }
    case SweepAll(drop) => SweepYieldsOccupied(s, m, 0, drop);
  }

  /** The slab and its model after the enabled operations of a list. */
  function RunOf<T>(capacity: nat, ops: seq<Op<T>>): (r: (Slab<T>, Model<T>))
    ensures Refines(r.0, r.1) && r.1.capacity == capacity
    decreases |ops|
  {
    hide Refines, StepSlab, StepModel;
    if ops == [] then
      NewRefines<T>(capacity);
      (NewSlab(capacity), Model(capacity, Ascending(0, capacity), {}, map[]))
    else
      var last := |ops| - 1;
      var (s, m) := RunOf(capacity, ops[..last]);
      if Enabled(m, ops[last]) then
        StepRefines(s, m, ops[last]);
        CapacityKept(m, ops[last]);
        (StepSlab(s, ops[last]), StepModel(m, ops[last]))
      else (s, m)
  }

  lemma {:induction false} CapacityKept<T>(m: Model<T>, op: Op<T>)
    ensures StepModel(m, op).capacity == m.capacity
  {
  }

  /**
    Over every run the links from the head are in bounds, acyclic and read exactly the free
    slots that nobody holds, and `acquire` fails exactly when there are none.
   */
  lemma {:induction false} FreeListIsExact<T>(capacity: nat, ops: seq<Op<T>>)
    ensures var (s, m) := RunOf(capacity, ops);
            && Linked(s.slots, s.head, m.stack) && Distinct(m.stack)
            && (forall id :: id in m.stack <==> 0 <= id < capacity && s.slots[id].Free? && id !in m.held)
            && (s.head.None? <==> forall id :: 0 <= id < capacity ==> !s.slots[id].Free? || id in m.held)
  {
    hide RunOf;
    var (s, m) := RunOf(capacity, ops);
    LinkedFree(s.slots, s.head, m.stack);
    if m.stack != [] {
      assert m.stack[0] in m.stack;
    }
  }

  // --- The slab object --------------------------------------------------------------------

  class SlabArena<T(0)> {
    const entries: array<Slot<T>>
    var freeHead: Option<nat>

    function State(): Slab<T>
      reads this, entries
    {
      Slab(entries[..], freeHead)
    }

    constructor (capacity: nat)
      ensures State() == NewSlab(capacity) && fresh(entries)
    {
      var slots := new Slot<T>[capacity](_ => Free(None));
      var id := 0;
      while id < capacity
        invariant 0 <= id <= capacity
        invariant forall i :: 0 <= i < id ==> slots[i] == Free(if i + 1 < capacity then Some(i + 1) else None)
      {
        slots[id] := Free(if id + 1 < capacity then Some(id + 1) else None);
        id := id + 1;
      }
      entries := slots;
      freeHead := if capacity > 0 then Some(0) else None;
      new;
      assert entries[..] == NewSlab<T>(capacity).slots;
    }

    method AcquireSlot() returns (id: Option<nat>)
      requires freeHead.Some? ==> freeHead.value < entries.Length && entries[freeHead.value].Free?
      modifies this`freeHead
      ensures (State(), id) == Acquire(old(State()))
    {
      id := freeHead;
      if id.Some? {
        freeHead := entries[id.value].next;
      }
    }

    method OccupySlot(id: nat, value: T)
      requires id < entries.Length
      modifies entries
      ensures State() == Occupy(old(State()), id, value)
    {
      entries[id] := Occupied(value);
    }

    method ReleaseSlot(id: nat)
      requires id < entries.Length && entries[id].Occupied?
      modifies this`freeHead, entries
      ensures State() == Release(old(State()), id)
    {
      entries[id] := Free(freeHead);
      freeHead := Some(id);
    }

    method DropEntryGuard(id: nat)
      requires id < entries.Length
      modifies this`freeHead
      ensures State() == DropGuard(old(State()), id)
    {
      if entries[id].Free? {
        freeHead := Some(id);
      }
    }

    /** The cursor loop of `entries_mut`, releasing the guards of `drop`. */
    method Sweep(drop: set<nat>) returns (yielded: seq<nat>)
      modifies this`freeHead, entries
      ensures (State(), yielded) == SweepFrom(old(State()), 0, drop)
    {
      var next := 0;
      yielded := [];
      while next < entries.Length
        invariant next <= entries.Length
        invariant SweepFrom(old(State()), 0, drop).0 == SweepFrom(State(), next, drop).0
        invariant SweepFrom(old(State()), 0, drop).1 == yielded + SweepFrom(State(), next, drop).1
      {
        var id := next;
        next := next + 1;
        if !entries[id].Free? {
          yielded := yielded + [id];
          if id in drop {
            ReleaseSlot(id);
          }
        }
      }
      assert yielded + [] == yielded;
    }

    /** One operation of a run; the free list never leads `acquire` out of bounds. */
    method Perform(ghost m: Model<T>, op: Op<T>)
      requires Refines(State(), m) && Enabled(m, op)
      modifies this`freeHead, entries
      ensures Refines(old(State()), m)
      ensures op.OccupyId? || op.ReleaseId? ==> op.id < |old(State()).slots|
      ensures var was := old(State()); was.head.Some? ==> was.head.value < |was.slots| && was.slots[was.head.value].Free?
      ensures State() == StepSlab(old(State()), op)
    {
      StepRefines(State(), m, op);
      assert op.ReleaseId? ==> entries[op.id].Occupied?;
      hide Refines, Linked;
      match op
      case AcquireId => var _ := AcquireSlot();
      case OccupyId(id, value) => OccupySlot(id, value);
      case ReleaseId(id) => ReleaseSlot(id);
      case GuardDroppedFree =>
        var id := AcquireSlot();
        if id.Some? {
          DropEntryGuard(id.value);
        }
      case GuardOccupied(value) =>
        var id := AcquireSlot();
        if id.Some? {
          OccupySlot(id.value, value);
          DropEntryGuard(id.value);
        }
      case GuardReleased(value) =>
        var id := AcquireSlot();
        if id.Some? {
          OccupySlot(id.value, value);
          ReleaseSlot(id.value);
        }
      case SweepAll(drop) => var _ := Sweep(drop);
    }
  }

  /** The slab driven through any list of operations ends where the run ends. */
  method Drive<T(0)>(capacity: nat, ops: seq<Op<T>>) returns (a: SlabArena<T>)
    ensures a.State() == RunOf(capacity, ops).0
  {
    hide Refines, StepSlab, StepModel, Linked, Enabled;
    a := new SlabArena<T>(capacity);
    var m: Model<T> := Model(capacity, Ascending(0, capacity), {}, map[]);
    assert ops[..0] == [];
    for i := 0 to |ops|
      invariant fresh(a) && fresh(a.entries)
      invariant RunOf(capacity, ops[..i]) == (a.State(), m)
    {
      assert ops[..i + 1][..i] == ops[..i];
      if Enabled(m, ops[i]) {
        a.Perform(m, ops[i]);
        m := StepModel(m, ops[i]);
      }
    }
    assert ops[..|ops|] == ops;
  }
}
