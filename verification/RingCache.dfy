/** The clock ring of stat results: a fixed array, a hand, and how long an entry
    stays. */
module RingCache {
  import opened Wrappers
  import opened Lru

  datatype StatResult = Present | Absent | Whiteout
  datatype Slot = Slot(key: Key, result: StatResult, valid: bool)
  datatype Ring = Ring(slots: seq<Slot>, hand: nat)

  predicate Holds(slot: Slot, k: Key) {
    slot.valid && slot.key == k
  }

  predicate Found(slots: seq<Slot>, k: Key) {
    exists i :: 0 <= i < |slots| && Holds(slots[i], k)
  }

  function SlotOf(slots: seq<Slot>, k: Key): (i: nat)
    requires Found(slots, k)
    ensures i < |slots| && Holds(slots[i], k) && forall j :: 0 <= j < i ==> !Holds(slots[j], k)
  {
    if Holds(slots[0], k) then 0 else 1 + SlotOf(slots[1..], k)
  }

  lemma SlotIs(slots: seq<Slot>, k: Key, i: nat)
    requires i < |slots| && Holds(slots[i], k) && forall j :: 0 <= j < i ==> !Holds(slots[j], k)
    ensures Found(slots, k) && SlotOf(slots, k) == i
  {
  }

  lemma NextHand(hand: nat, cap: nat)
    requires hand < cap
    ensures (hand + 1) % cap == Turned(hand, cap)
  {
    if hand + 1 == cap {
      assert cap % cap == 0;
    }
  }

  function Lookup(r: Ring, k: Key): Option<StatResult> {
    if Found(r.slots, k) then Some(r.slots[SlotOf(r.slots, k)].result) else None
  }

  function Turned(hand: nat, cap: nat): nat {
    if hand + 1 == cap then 0 else hand + 1
  }

  function Stored(r: Ring, k: Key, x: StatResult): Ring {
    if Found(r.slots, k) then
      var i := SlotOf(r.slots, k);
      r.(slots := r.slots[i := r.slots[i].(result := x)])
    else if r.hand < |r.slots| then
      Ring(r.slots[r.hand := Slot(k, x, true)], Turned(r.hand, |r.slots|))
    else r
  }

  function Invalidated(r: Ring, layer: string): Ring {
    r.(slots := seq(|r.slots|, i requires 0 <= i < |r.slots| =>
      if r.slots[i].key.layer == layer then r.slots[i].(valid := false) else r.slots[i]))
  }

  function Empty(cap: nat): Ring {
    Ring(seq(cap, _ => Slot(Key("", ""), Absent, false)), 0)
  }

  class RingStatCache {
    var slots: array<Slot>
    var hand: nat

    /** Capacities below 4 are raised to 4. */
    constructor (capacity: int)
      ensures Valid() && fresh(slots) && State() == Empty(if capacity < 4 then 4 else capacity)
    {
      var cap := if capacity < 4 then 4 else capacity;
      slots := new Slot[cap](_ => Slot(Key("", ""), Absent, false));
      hand := 0;
      new;
      assert State().slots == Empty(cap).slots;
    }

    ghost predicate Valid()
      reads this
    {
      hand < slots.Length
    }

    function State(): Ring
      reads this, slots
    {
      Ring(slots[..], hand)
    }

    method Get(k: Key) returns (r: Option<StatResult>)
      requires Valid()
      ensures r == Lookup(State(), k)
    {
      for i := 0 to slots.Length
        invariant forall j :: 0 <= j < i ==> !Holds(slots[j], k)
      {
        if slots[i].valid && slots[i].key == k {
          assert Holds(slots[..][i], k);
          return Some(slots[i].result);
        }
      }
      return None;
    }

    /** An existing entry is updated in place; a new one replaces what is under the
        hand. */
    method Set(k: Key, x: StatResult)
      requires Valid()
      modifies this, slots
      ensures Valid() && slots == old(slots) && State() == Stored(old(State()), k, x)
    {
      ghost var before := slots[..];
      var i := 0;
      while i < slots.Length && !(slots[i].valid && slots[i].key == k)
        invariant 0 <= i <= slots.Length && forall j :: 0 <= j < i ==> !Holds(slots[j], k)
      {
        i := i + 1;
      }
      if i < slots.Length {
        assert Holds(before[i], k);
        SlotIs(before, k, i);
        slots[i] := slots[i].(result := x);
        assert slots[..] == before[i := before[i].(result := x)];
        return;
      }
      assert !Found(before, k);
      slots[hand] := Slot(k, x, true);
      assert slots[..] == before[hand := Slot(k, x, true)];
      NextHand(hand, slots.Length);
      hand := (hand + 1) % slots.Length;
    }

    method InvalidateLayer(layer: string)
      requires Valid()
      modifies slots
      ensures Valid() && State() == Invalidated(old(State()), layer)
    {
      for i := 0 to slots.Length
        invariant forall j :: 0 <= j < slots.Length ==>
                    slots[j] == if j < i && old(slots[j]).valid && old(slots[j]).key.layer == layer
                                then old(slots[j]).(valid := false) else old(slots[j])
      {
        if slots[i].valid && slots[i].key.layer == layer {
          slots[i] := slots[i].(valid := false);
        }
      }
      assert slots[..] == Invalidated(old(State()), layer).slots;
    }
  }

  /* ---- the forgetting map that the ring refines ---- */

  /** A result with the number of new keys inserted since its own insertion. */
  datatype Aged = Aged(result: StatResult, age: nat)

  /** A new key ages all others by one; what reaches the capacity is forgotten. */
  function AgedSet(m: map<Key, Aged>, cap: nat, k: Key, x: StatResult): map<Key, Aged> {
    if k in m then m[k := Aged(x, m[k].age)]
    else (map j | j in m && m[j].age + 1 < cap :: Aged(m[j].result, m[j].age + 1))[k := Aged(x, 0)]
  }

  function AgedInvalidate(m: map<Key, Aged>, layer: string): map<Key, Aged> {
    map j | j in m && j.layer != layer :: m[j]
  }

  /** The slot of an entry of a given age, counted back from the hand. */
  function Position(hand: int, age: int, cap: int): int {
    if age < hand then hand - 1 - age else hand + cap - 1 - age
  }

  /** The slot of a remembered key holds it. */
  predicate Placed(r: Ring, m: map<Key, Aged>, k: Key)
    requires r.hand < |r.slots| && k in m
  {
    m[k].age < |r.slots| && r.slots[Position(r.hand, m[k].age, |r.slots|)] == Slot(k, m[k].result, true)
  }

  /** A valid slot holds a remembered key in its place. */
  predicate Known(r: Ring, m: map<Key, Aged>, i: nat)
    requires r.hand < |r.slots| && i < |r.slots|
  {
    r.slots[i].valid ==> r.slots[i].key in m && Position(r.hand, m[r.slots[i].key].age, |r.slots|) == i
  }

  /** Each remembered key sits at the place its age tells, and nothing else is valid;
      so valid keys are unique. */
  ghost predicate Refines(r: Ring, m: map<Key, Aged>) {
    && r.hand < |r.slots|
    && (forall k :: k in m ==> Placed(r, m, k))
    && (forall i :: 0 <= i < |r.slots| ==> Known(r, m, i))
  }

  lemma FoundIff(r: Ring, m: map<Key, Aged>, k: Key)
    requires Refines(r, m)
    ensures Found(r.slots, k) <==> k in m
    ensures k in m ==> SlotOf(r.slots, k) == Position(r.hand, m[k].age, |r.slots|)
    ensures Lookup(r, k) == if k in m then Some(m[k].result) else None
  {
    if k in m {
      assert Placed(r, m, k);
      assert Holds(r.slots[Position(r.hand, m[k].age, |r.slots|)], k);
    }
    if Found(r.slots, k) {
      assert Known(r, m, SlotOf(r.slots, k));
    }
  }

  lemma NewKeyPlaced(r: Ring, m: map<Key, Aged>, k: Key, x: StatResult, j: Key)
    requires Refines(r, m) && k !in m && !Found(r.slots, k) && j in AgedSet(m, |r.slots|, k, x)
    ensures Placed(Stored(r, k, x), AgedSet(m, |r.slots|, k, x), j)
  {
    var cap, t, n := |r.slots|, Stored(r, k, x), AgedSet(m, |r.slots|, k, x);
    if j != k {
      assert Placed(r, m, j);
      assert Position(t.hand, n[j].age, cap) == Position(r.hand, m[j].age, cap) != r.hand;
    }
  }

  lemma NewSlotKnown(r: Ring, m: map<Key, Aged>, k: Key, x: StatResult, i: nat)
    requires Refines(r, m) && k !in m && !Found(r.slots, k) && i < |r.slots|
    ensures Known(Stored(r, k, x), AgedSet(m, |r.slots|, k, x), i)
  {
    if i != r.hand && r.slots[i].valid {
      assert Known(r, m, i);
      assert m[r.slots[i].key].age != |r.slots| - 1;
    }
  }

  lemma OldKeyRefines(r: Ring, m: map<Key, Aged>, k: Key, x: StatResult)
    requires Refines(r, m) && k in m && Found(r.slots, k)
    requires SlotOf(r.slots, k) == Position(r.hand, m[k].age, |r.slots|)
    ensures Refines(Stored(r, k, x), AgedSet(m, |r.slots|, k, x))
  {
    var t, n := Stored(r, k, x), AgedSet(m, |r.slots|, k, x);
    forall j | j in n ensures Placed(t, n, j) {
      assert Placed(r, m, j) && Placed(r, m, k);
    }
    forall i | 0 <= i < |r.slots| ensures Known(t, n, i) {
      assert Known(r, m, i);
    }
  }

  lemma SetRefines(r: Ring, m: map<Key, Aged>, k: Key, x: StatResult)
    requires Refines(r, m)
    ensures Refines(Stored(r, k, x), AgedSet(m, |r.slots|, k, x))
  {
    FoundIff(r, m, k);
    if k in m {
      OldKeyRefines(r, m, k, x);
    } else {
      forall j | j in AgedSet(m, |r.slots|, k, x) ensures Placed(Stored(r, k, x), AgedSet(m, |r.slots|, k, x), j) {
        NewKeyPlaced(r, m, k, x, j);
      }
      forall i | 0 <= i < |r.slots| ensures Known(Stored(r, k, x), AgedSet(m, |r.slots|, k, x), i) {
        NewSlotKnown(r, m, k, x, i);
      }
    }
  }

  lemma InvalidateRefines(r: Ring, m: map<Key, Aged>, layer: string)
    requires Refines(r, m)
    ensures Refines(Invalidated(r, layer), AgedInvalidate(m, layer))
  {
    var t, n := Invalidated(r, layer), AgedInvalidate(m, layer);
    forall k | k in n ensures Placed(t, n, k) {
      assert Placed(r, m, k);
    }
    forall i | 0 <= i < |r.slots| ensures Known(t, n, i) {
      assert Known(r, m, i);
    }
  }

  datatype Change = Put(key: Key, result: StatResult) | Invalidate(layer: string)

  function RunRing(cap: nat, changes: seq<Change>): Ring {
    if changes == [] then Empty(cap)
    else
      var before := RunRing(cap, changes[..|changes| - 1]);
      match changes[|changes| - 1]
      case Put(k, x) => Stored(before, k, x)
      case Invalidate(l) => Invalidated(before, l)
  }

  function AgedStep(m: map<Key, Aged>, cap: nat, c: Change): map<Key, Aged> {
    match c
    case Put(k, x) => AgedSet(m, cap, k, x)
    case Invalidate(l) => AgedInvalidate(m, l)
  }

  function RunAged(m: map<Key, Aged>, cap: nat, changes: seq<Change>): map<Key, Aged> {
    if changes == [] then m else AgedStep(RunAged(m, cap, changes[..|changes| - 1]), cap, changes[|changes| - 1])
  }

  lemma {:induction false} RunRefines(cap: nat, changes: seq<Change>)
    requires cap >= 1
    ensures |RunRing(cap, changes).slots| == cap && Refines(RunRing(cap, changes), RunAged(map[], cap, changes))
  {
    if changes != [] {
      RunRefines(cap, changes[..|changes| - 1]);
      var r, m := RunRing(cap, changes[..|changes| - 1]), RunAged(map[], cap, changes[..|changes| - 1]);
      match changes[|changes| - 1] {
        case Put(k, x) => SetRefines(r, m, k, x);
        case Invalidate(l) => InvalidateRefines(r, m, l);
      }
    }
  }

  predicate UniqueKeys(slots: seq<Slot>) {
    forall i, j :: 0 <= i < j < |slots| && slots[i].valid && slots[j].valid ==> slots[i].key != slots[j].key
  }

  /** After any changes the ring answers exactly as the forgetting map, and no key is
      valid in two slots. */
  lemma RingIsForgettingMap(cap: nat, changes: seq<Change>, k: Key)
    requires cap >= 1
    ensures var r, m := RunRing(cap, changes), RunAged(map[], cap, changes);
            Lookup(r, k) == if k in m then Some(m[k].result) else None
    ensures |RunRing(cap, changes).slots| == cap && UniqueKeys(RunRing(cap, changes).slots)
  {
    RunRefines(cap, changes);
    FoundIff(RunRing(cap, changes), RunAged(map[], cap, changes), k);
  }

  /** The result of the last Put since the last invalidation, in an unbounded map. */
  function LatestPut(changes: seq<Change>, k: Key): Option<StatResult> {
    if changes == [] then None
    else
      match changes[|changes| - 1]
      case Put(j, x) => if j == k then Some(x) else LatestPut(changes[..|changes| - 1], k)
      case Invalidate(l) => if k.layer == l then None else LatestPut(changes[..|changes| - 1], k)
  }

  /** What is remembered is the latest result. */
  lemma {:induction false} RememberedIsLatest(cap: nat, changes: seq<Change>, k: Key)
    requires k in RunAged(map[], cap, changes)
    ensures LatestPut(changes, k) == Some(RunAged(map[], cap, changes)[k].result)
  {
    var init, m := changes[..|changes| - 1], RunAged(map[], cap, changes[..|changes| - 1]);
    match changes[|changes| - 1] {
      case Put(j, x) => if j != k { RememberedIsLatest(cap, init, k); }
      case Invalidate(l) => RememberedIsLatest(cap, init, k);
    }
  }

  /** Storing a key again refreshes its result only: no key comes or goes, and none ages. */
  lemma StoringAgainKeepsAges(cap: nat, changes: seq<Change>, k: Key, x: StatResult, j: Key)
    requires k in RunAged(map[], cap, changes)
    ensures var m, n := RunAged(map[], cap, changes), RunAged(map[], cap, changes + [Put(k, x)]);
            && (j in n <==> j in m)
            && (j in m ==> n[j] == Aged(if j == k then x else m[j].result, m[j].age))
  {
    assert (changes + [Put(k, x)])[..|changes|] == changes;
  }

  /** How many of the changes insert a key that is new at that time. */
  function Insertions(m: map<Key, Aged>, cap: nat, changes: seq<Change>): nat {
    if changes == [] then 0
    else
      var init, c := changes[..|changes| - 1], changes[|changes| - 1];
      Insertions(m, cap, init) + if c.Put? && c.key !in RunAged(m, cap, init) then 1 else 0
  }

  /** An entry stays exactly until the capacity is reached: as long as its layer is
      not invalidated, it is still there if and only if its age and the number of
      new keys inserted since stay below the capacity. Age 0 is a fresh insertion,
      which therefore outlives cap - 1 later ones. */
  lemma {:induction false} StaysExactly(m: map<Key, Aged>, cap: nat, changes: seq<Change>, k: Key)
    requires k in m && m[k].age < cap
    requires forall i :: 0 <= i < |changes| ==>
               changes[i] != Invalidate(k.layer) && !(changes[i].Put? && changes[i].key == k)
    ensures k in RunAged(m, cap, changes) <==> m[k].age + Insertions(m, cap, changes) < cap
    ensures k in RunAged(m, cap, changes) ==>
              RunAged(m, cap, changes)[k] == Aged(m[k].result, m[k].age + Insertions(m, cap, changes))
  {
    if changes != [] {
      StaysExactly(m, cap, changes[..|changes| - 1], k);
    }
  }
}
