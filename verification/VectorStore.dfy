/**
 The slotted vector file behind the database (src/storage/mmap_store.cpp, VectorStore): vectors
 live in numbered slots of one file, a table maps ids to slots, and freed slots are reused.  The
 file is a sequence of slots; whether it can be grown is decided outside.
 */
module VectorStores {
  import opened Sequences
  import opened HnswGraph
  import opened Results
  import opened Vectors

  datatype Slot = NoSlot | At(index: nat)

  // ------------------------------------------------------------------- the slot table

  ghost predicate OffsetsOk(offsets: map<VectorId, nat>, n: nat) {
    && (forall id :: id in offsets ==> offsets[id] < n)
    && (forall a, b :: a in offsets && b in offsets && offsets[a] == offsets[b] ==> a == b)
  }

  ghost predicate FreeOk(offsets: map<VectorId, nat>, free: seq<nat>, n: nat) {
    && (forall f :: f in free ==> f < n)
    && (forall id :: id in offsets ==> offsets[id] !in free)
    && NoDup(free)
  }

  /** No two ids share a slot, no used slot is free, and no slot lies beyond those ever handed out. */
  ghost predicate SlotsOk(offsets: map<VectorId, nat>, free: seq<nat>) {
    var n := |offsets| + |free|;
    OffsetsOk(offsets, n) && FreeOk(offsets, free, n)
  }

  function SlotData(file: seq<Vector>, slot: nat): Vector {
    if slot < |file| then file[slot] else []
  }

  /** What a reader sees: each stored id with the vector in its slot. */
  ghost function Contents(file: seq<Vector>, offsets: map<VectorId, nat>): map<VectorId, Vector> {
    map id | id in offsets :: SlotData(file, offsets[id])
  }

  lemma MapSizes(offsets: map<VectorId, nat>, id: VectorId, slot: nat)
    ensures id !in offsets ==> |offsets[id := slot]| == |offsets| + 1
    ensures id in offsets ==> |offsets - {id}| == |offsets| - 1 && |offsets[id := slot]| == |offsets|
  {
    assert offsets[id := slot].Keys == offsets.Keys + {id};
    assert (offsets - {id}).Keys == offsets.Keys - {id};
    assert |offsets| == |offsets.Keys| && |offsets - {id}| == |(offsets - {id}).Keys|;
    assert |offsets[id := slot]| == |offsets[id := slot].Keys|;
    if id in offsets { assert offsets.Keys + {id} == offsets.Keys; }
  }

  /** The first slot never handed out is nobody's. */
  lemma NextSlot(offsets: map<VectorId, nat>, id: VectorId)
    requires SlotsOk(offsets, []) && id !in offsets
    ensures SlotsOk(offsets[id := |offsets|], [])
    ensures forall x :: x in offsets ==> offsets[x] != |offsets|
    ensures |offsets[id := |offsets|]| == |offsets| + 1
  {
    MapSizes(offsets, id, |offsets|);
  }

  /** Nor is the slot freed last. */
  lemma ReuseSlot(offsets: map<VectorId, nat>, free: seq<nat>, id: VectorId)
    requires SlotsOk(offsets, free) && id !in offsets && free != []
    ensures SlotsOk(offsets[id := free[|free| - 1]], free[..|free| - 1])
    ensures forall x :: x in offsets ==> offsets[x] != free[|free| - 1]
    ensures free[|free| - 1] < |offsets| + |free| == |offsets[id := free[|free| - 1]]| + |free| - 1
  {
    var last, front := free[|free| - 1], free[..|free| - 1];
    MapSizes(offsets, id, last);
    assert last in free;
    assert forall f :: f in front ==> f in free && f != last;
  }

  lemma GiveSlotBack(offsets: map<VectorId, nat>, free: seq<nat>, id: VectorId)
    requires SlotsOk(offsets, free) && id in offsets
    ensures SlotsOk(offsets - {id}, free + [offsets[id]])
  {
    MapSizes(offsets, id, 0);
  }

  /** Writing a slot that no other id uses changes what is read for one id only. */
  lemma WriteSlot(file: seq<Vector>, offsets: map<VectorId, nat>, id: VectorId, slot: nat, vector: Vector)
    requires slot < |file|
    requires forall x :: x in offsets && x != id ==> offsets[x] != slot
    ensures Contents(file[slot := vector], offsets[id := slot]) == Contents(file, offsets)[id := vector]
  {}

  // ----------------------------------------------------------------------- compaction

  ghost predicate Descending(s: seq<nat>) {
    forall i, j :: 0 <= i < j < |s| ==> s[i] > s[j]
  }

  /** The slot used furthest out; 0 where there is none. */
  ghost predicate IsHighest(offsets: map<VectorId, nat>, id: VectorId, slot: nat) {
    && (forall x :: x in offsets ==> offsets[x] <= slot)
    && (slot > 0 ==> id in offsets && offsets[id] == slot)
  }

  /** One round of the compaction loop leaves the remaining free slots as the only holes. */
  lemma CompactionRound(offsets: map<VectorId, nat>, rest: seq<nat>, id: VectorId, highest: nat)
    requires SlotsOk(offsets, rest) && rest != [] && Descending(rest) && IsHighest(offsets, id, highest)
    ensures rest[0] >= highest ==> SlotsOk(offsets, rest[1..])
    ensures rest[0] < highest ==> SlotsOk(offsets[id := rest[0]], rest[1..])
  {
    var n := |offsets| + |rest|;
    assert rest[0] in rest;
    assert forall f :: f in rest[1..] ==> f in rest && f < rest[0];
    if rest[0] < highest {
      MapSizes(offsets, id, rest[0]);
    } else {
      assert forall x :: x in offsets ==> offsets[x] < rest[0];
    }
  }

  ghost function UsedSlots(offsets: map<VectorId, nat>): set<nat> { set id | id in offsets :: offsets[id] }

  ghost function FirstSlots(n: nat): (slots: set<nat>)
    ensures |slots| == n && forall i: nat :: i in slots <==> i < n
  {
    if n == 0 then {} else FirstSlots(n - 1) + {n - 1}
  }

  /** Without holes the slots in use are exactly the first ones. */
  lemma NoHoles(offsets: map<VectorId, nat>)
    requires SlotsOk(offsets, [])
    ensures UsedSlots(offsets) == FirstSlots(|offsets|)
  {
    InjectiveImage(offsets);
    assert UsedSlots(offsets) <= FirstSlots(|offsets|);
    if UsedSlots(offsets) < FirstSlots(|offsets|) {
      ProperSubsetSmaller(UsedSlots(offsets), FirstSlots(|offsets|));
    }
  }

  lemma UsedWithout(offsets: map<VectorId, nat>, x: VectorId)
    requires x in offsets
    requires forall a, b :: a in offsets && b in offsets && offsets[a] == offsets[b] ==> a == b
    ensures UsedSlots(offsets) == UsedSlots(offsets - {x}) + {offsets[x]}
    ensures offsets[x] !in UsedSlots(offsets - {x})
  {
    forall slot ensures slot in UsedSlots(offsets) <==> slot in UsedSlots(offsets - {x}) + {offsets[x]} {
      if slot in UsedSlots(offsets) {
        var id :| id in offsets && offsets[id] == slot;
        assert id != x ==> id in offsets - {x};
      }
    }
  }

  lemma {:induction false} InjectiveImage(offsets: map<VectorId, nat>)
    requires forall a, b :: a in offsets && b in offsets && offsets[a] == offsets[b] ==> a == b
    ensures |UsedSlots(offsets)| == |offsets|
  {
    if offsets == map[] {
      assert UsedSlots(offsets) == {};
    } else {
      var x :| x in offsets;
      UsedWithout(offsets, x);
      InjectiveImage(offsets - {x});
      MapSizes(offsets, x, 0);
    }
  }

  lemma ProperSubsetSmaller<T>(a: set<T>, b: set<T>)
    requires a < b
    ensures |a| < |b|
  {
    assert b == a + (b - a);
    assert b - a != {};
  }

  method SortDescending(s: seq<nat>) returns (t: seq<nat>)
    requires NoDup(s)
    ensures Descending(t) && multiset(t) == multiset(s)
  {
    t := [];
    for i := 0 to |s|
      invariant Descending(t) && multiset(t) == multiset(s[..i])
    {
      PermutationMembers(t, s[..i]);
      assert s[..i + 1] == s[..i] + [s[i]];
      t := InsertDescending(t, s[i]);
    }
    assert s[..|s|] == s;
  }

  method InsertDescending(t: seq<nat>, x: nat) returns (u: seq<nat>)
    requires Descending(t) && x !in t
    ensures Descending(u) && multiset(u) == multiset(t) + multiset{x}
  {
    var j := 0;
    while j < |t| && t[j] > x
      invariant j <= |t| && forall i :: 0 <= i < j ==> t[i] > x
    {
      j := j + 1;
    }
    assert t == t[..j] + t[j..];
    u := t[..j] + [x] + t[j..];
  }

  method FindHighest(offsets: map<VectorId, nat>) returns (highestId: VectorId, highest: nat)
    ensures IsHighest(offsets, highestId, highest)
  {
    highestId, highest := 0, 0;
    var pending := offsets.Keys;
    while pending != {}
      invariant pending <= offsets.Keys
      invariant forall x :: x in offsets && x !in pending ==> offsets[x] <= highest
      invariant highest > 0 ==> highestId in offsets && offsets[highestId] == highest
      decreases |pending|
    {
      var id :| id in pending;
      pending := pending - {id};
      if offsets[id] > highest {
        highestId, highest := id, offsets[id];
      }
    }
  }

  class VectorStore {
    const dimension: nat
    var file: seq<Vector>
    var offsets: map<VectorId, nat>
    var freeSlots: seq<nat>

    ghost predicate Valid()
      reads this
    {
      SlotsOk(offsets, freeSlots) && |offsets| + |freeSlots| <= |file|
    }

    ghost function Vectors(): map<VectorId, Vector>
      reads this
    {
      Contents(file, offsets)
    }

    constructor (dimension: nat, initialCapacity: nat)
      ensures this.dimension == dimension && Valid() && Vectors() == map[] && |file| == initialCapacity
    {
      this.dimension := dimension;
      file := seq(initialCapacity, i => []);
      offsets := map[];
      freeSlots := [];
    }

    /** When a new vector finds no room: nothing free, the file full, and no way to grow it
        (an empty file doubles to an empty file). */
    ghost predicate Full(growable: bool)
      reads this
    {
      freeSlots == [] && |offsets| >= |file| && (!growable || file == [])
    }

    /** Slot `slot` can be handed to `id`. */
    ghost predicate Available(id: VectorId, slot: nat)
      reads this
    {
      && slot < |file|
      && (forall x :: x in offsets ==> offsets[x] != slot)
      && SlotsOk(offsets[id := slot], freeSlots)
      && |offsets[id := slot]| + |freeSlots| <= |file|
    }

    /** The slot for a new vector: the one freed last, or the next one, doubling a full file. */
    method AllocateSlot(id: VectorId, growable: bool) returns (slot: Slot)
      requires Valid() && id !in offsets
      modifies this`file, this`freeSlots
      ensures old(file) <= file
      ensures old(Full(growable)) ==> freeSlots == old(freeSlots) && file == old(file)
      ensures old(Full(growable)) ==> slot.At? ==> slot.index >= |file|
      ensures !old(Full(growable)) ==> slot.At? && Available(id, slot.index)
    {
      if freeSlots != [] {
        ReuseSlot(offsets, freeSlots, id);
        slot := At(freeSlots[|freeSlots| - 1]);
        freeSlots := freeSlots[..|freeSlots| - 1];
      } else {
        NextSlot(offsets, id);
        slot := At(|offsets|);
        if |offsets| >= |file| {
          if growable {
            file := file + seq(|file|, i => []);
          } else {
            slot := NoSlot;
          }
        }
      }
    }

    method Add(id: VectorId, vector: Vector, growable: bool) returns (r: Status)
      requires Valid()
      modifies this
      ensures Valid()
      ensures r == if |vector| != dimension then Err(InvalidDimension)
                   else if id in old(offsets) then Err(InvalidVectorId)
                   else if old(Full(growable)) then Err(IoError)
                   else Ok(())
      ensures Vectors() == if r.Ok? then old(Vectors())[id := vector] else old(Vectors())
      ensures offsets.Keys == if r.Ok? then old(offsets).Keys + {id} else old(offsets).Keys
      ensures |old(file)| <= |file|
    {
      if |vector| != dimension {
        return Err(InvalidDimension);
      }
      if id in offsets {
        return Err(InvalidVectorId);
      }
      var slot := AllocateSlot(id, growable);
      if slot.NoSlot? || slot.index >= |file| {
        return Err(IoError);
      }
      GrowKeepsContents(old(file), file, offsets);
      WriteSlot(file, offsets, id, slot.index, vector);
      file := file[slot.index := vector];
      offsets := offsets[id := slot.index];
      return Ok(());
    }

    method Get(id: VectorId) returns (found: bool, vector: Vector)
      requires Valid()
      ensures found <==> id in Vectors()
      ensures found ==> vector == Vectors()[id]
    {
      if id in offsets && offsets[id] < |file| {
        return true, file[offsets[id]];
      }
      return false, [];
    }

    method Remove(id: VectorId) returns (r: Status)
      requires Valid()
      modifies this
      ensures Valid()
      ensures r == if id in old(offsets) then Ok(()) else Err(VectorNotFound)
      ensures Vectors() == old(Vectors()) - {id} && file == old(file)
      ensures offsets.Keys == old(offsets).Keys - {id}
    {
      if id !in offsets {
        assert Vectors() - {id} == Vectors();
        return Err(VectorNotFound);
      }
      GiveSlotBack(offsets, freeSlots, id);
      MapSizes(offsets, id, 0);
      assert Contents(file, offsets - {id}) == Contents(file, offsets) - {id};
      freeSlots := freeSlots + [offsets[id]];
      offsets := offsets - {id};
      return Ok(());
    }

    /** Moves vectors from the far end of the file into the holes.  No vector changes, no hole is
        left, and the slots in use are then the first ones. */
    method Compact()
      requires Valid()
      modifies this
      ensures Valid()
      ensures Vectors() == old(Vectors()) && freeSlots == []
      ensures offsets.Keys == old(offsets).Keys
      ensures UsedSlots(offsets) == FirstSlots(|offsets|)
    {
      if freeSlots == [] {
        NoHoles(offsets);
        return;
      }
      var holes := SortDescending(freeSlots);
      SortedHoles(offsets, freeSlots, holes);
      var i := 0;
      while i < |holes|
        invariant i <= |holes|
        invariant SlotsOk(offsets, holes[i..]) && |offsets| + |holes| <= |file|
        invariant Vectors() == old(Vectors()) && offsets.Keys == old(offsets).Keys
      {
        assert holes[i..][1..] == holes[i + 1..];
        FillHole(holes[i..]);
        i := i + 1;
      }
      assert holes[i..] == [];
      freeSlots := [];
      NoHoles(offsets);
    }

    /** Moves the vector stored furthest out into the largest hole, unless it lies before it. */
    method FillHole(rest: seq<nat>)
      requires SlotsOk(offsets, rest) && rest != [] && Descending(rest) && |offsets| + |rest| <= |file|
      modifies this`file, this`offsets
      ensures SlotsOk(offsets, rest[1..])
      ensures |offsets| == |old(offsets)| && |file| == |old(file)|
      ensures offsets.Keys == old(offsets).Keys
      ensures Vectors() == old(Vectors())
    {
      var highestId, highest := FindHighest(offsets);
      CompactionRound(offsets, rest, highestId, highest);
      if rest[0] < highest {
        assert rest[0] in rest;
        MoveSlot(highestId, rest[0]);
      }
    }

    method MoveSlot(id: VectorId, target: nat)
      requires id in offsets && target < |file| && offsets[id] < |file|
      requires forall x :: x in offsets ==> offsets[x] != target
      modifies this`file, this`offsets
      ensures offsets == old(offsets)[id := target] && |offsets| == |old(offsets)|
      ensures |file| == |old(file)|
      ensures Vectors() == old(Vectors())
    {
      var data := file[offsets[id]];
      WriteSlot(file, offsets, id, target, data);
      MapSizes(offsets, id, target);
      assert Contents(file, offsets)[id := data] == Contents(file, offsets);
      file := file[target := data];
      offsets := offsets[id := target];
    }
  }

  lemma GrowKeepsContents(file: seq<Vector>, grown: seq<Vector>, offsets: map<VectorId, nat>)
    requires file <= grown && forall id :: id in offsets ==> offsets[id] < |file|
    ensures Contents(grown, offsets) == Contents(file, offsets)
  {}

  lemma SortedHoles(offsets: map<VectorId, nat>, free: seq<nat>, holes: seq<nat>)
    requires SlotsOk(offsets, free) && multiset(holes) == multiset(free) && Descending(holes)
    ensures SlotsOk(offsets, holes) && |holes| == |free| && holes[0..] == holes
    ensures forall f :: f in holes <==> f in free
  {
    PermutationMembers(free, holes);
  }
}
