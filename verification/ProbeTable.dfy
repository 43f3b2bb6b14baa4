/** Open-addressing hash table with linear probing, an 80% load cap and backward-shift deletion.
    FastOrderIndex, FastPriceIndex and FastClientIndex in src/book.rs are this algorithm with
    different keys, values and capacities. The hash is an arbitrary function, so every result
    below holds for every hash. */
module ProbeTable {
  import opened Types

  datatype Slot<+K, +V> = Empty | Full(key: K, value: V)

  // Number of forward steps from slot a to slot b in a table that wraps around at cap.
  function Dist(cap: nat, a: nat, b: nat): (d: nat)
    requires a < cap && b < cap
    ensures d < cap
  {
    if a <= b then b - a else b - a + cap
  }

  // (i + 1) & MASK: the slot after i, wrapping to 0.
  function Next(cap: nat, i: nat): (j: nat)
    requires i < cap
    ensures j < cap
  {
    if i + 1 == cap then 0 else i + 1
  }

  function Occupied<K, V>(s: seq<Slot<K, V>>): (n: nat)
    ensures n <= |s|
  {
    if s == [] then 0 else (if s[0].Full? then 1 else 0) + Occupied(s[1..])
  }

  lemma {:induction false} OccupiedUpdate<K, V>(s: seq<Slot<K, V>>, i: nat, v: Slot<K, V>)
    requires i < |s|
    ensures Occupied(s[i := v]) + (if s[i].Full? then 1 else 0) == Occupied(s) + (if v.Full? then 1 else 0)
  {
    if i == 0 {
      assert s[0 := v][1..] == s[1..];
    } else {
      assert s[i := v][1..] == s[1..][i - 1 := v];
      OccupiedUpdate(s[1..], i - 1, v);
    }
  }

  // Below the load cap there is an empty slot for every probe to stop at.
  lemma {:induction false} EmptySlot<K, V>(s: seq<Slot<K, V>>) returns (e: nat)
    requires Occupied(s) < |s|
    ensures e < |s| && s[e].Empty?
  {
    if s[0].Empty? {
      e := 0;
    } else {
      e := EmptySlot(s[1..]);
      e := e + 1;
    }
  }

  lemma {:induction false} AllEmpty<K, V>(s: seq<Slot<K, V>>)
    requires forall i | 0 <= i < |s| :: s[i].Empty?
    ensures Occupied(s) == 0
  {
    if s != [] { AllEmpty(s[1..]); }
  }

  // Every slot from `from` up to, but not including, `to` is full.
  ghost predicate Solid<K, V>(s: seq<Slot<K, V>>, from: nat, to: nat)
    requires from < |s| && to < |s|
  {
    forall j {:trigger s[j]} :: 0 <= j < |s| && Dist(|s|, from, j) < Dist(|s|, from, to) ==> s[j].Full?
  }

  // Apart from slot `hole`, the slots are exactly the map m: `at` says where each key sits.
  ghost predicate Placed<K, V>(s: seq<Slot<K, V>>, at: map<K, nat>, m: map<K, V>, hole: int)
  {
    && at.Keys == m.Keys
    && (forall i {:trigger s[i]} :: 0 <= i < |s| && i != hole && s[i].Full? ==>
          s[i].key in at && at[s[i].key] == i && m[s[i].key] == s[i].value)
    && (forall k {:trigger at[k]} :: k in at ==>
          at[k] < |s| && at[k] != hole && s[at[k]].Full? && s[at[k]].key == k)
  }

  // Apart from slot `hole`, no empty slot lies between the home of a key and its place.
  ghost predicate NoGap<K(!new), V>(s: seq<Slot<K, V>>, hash: K -> nat, hole: int)
    requires forall k :: hash(k) < |s|
  {
    forall i {:trigger s[i]} :: 0 <= i < |s| && i != hole && s[i].Full? ==> Solid(s, hash(s[i].key), i)
  }

  // Walking from home to the first empty slot without meeting the key means the key is absent.
  lemma NotPresent<K(!new), V>(s: seq<Slot<K, V>>, hash: K -> nat, at: map<K, nat>, m: map<K, V>, key: K, idx: nat)
    requires forall k :: hash(k) < |s|
    requires Placed(s, at, m, -1) && NoGap(s, hash, -1)
    requires idx < |s| && s[idx].Empty?
    requires forall j {:trigger s[j]} :: 0 <= j < |s| && Dist(|s|, hash(key), j) < Dist(|s|, hash(key), idx) ==>
             s[j].Full? && s[j].key != key
    ensures key !in m
  {
    assert key in m ==> key in at;
  }

  lemma Present<K, V>(s: seq<Slot<K, V>>, at: map<K, nat>, m: map<K, V>, idx: nat)
    requires Placed(s, at, m, -1) && idx < |s| && s[idx].Full?
    ensures s[idx].key in m && m[s[idx].key] == s[idx].value
  {
  }

  // Steps that stay below cap do not wrap around.
  lemma DistNext(cap: nat, from: nat, i: nat, e: nat)
    requires from < cap && i < cap && e < cap
    requires i != e && Dist(cap, from, i) <= Dist(cap, from, e)
    ensures Dist(cap, from, Next(cap, i)) == Dist(cap, from, i) + 1 <= Dist(cap, from, e)
    ensures Dist(cap, Next(cap, i), e) < Dist(cap, i, e)
    ensures Next(cap, i) != from
  {
  }

  lemma ScanStarts(cap: nat, i: nat, e: nat)
    requires i < cap && e < cap && i != e
    ensures Next(cap, i) != i && Dist(cap, i, Next(cap, i)) <= Dist(cap, i, e)
  {
  }

  // Filling the slot a probe stopped at keeps every path solid.
  lemma InsertKeeps<K(!new), V>(s: seq<Slot<K, V>>, hash: K -> nat, at: map<K, nat>, m: map<K, V>, idx: nat, key: K,
                      value: V)
    requires forall k :: hash(k) < |s|
    requires Placed(s, at, m, -1) && NoGap(s, hash, -1)
    requires idx < |s| && Solid(s, hash(key), idx)
    requires if s[idx].Full? then s[idx].key == key else key !in m
    ensures Placed(s[idx := Full(key, value)], at[key := idx], m[key := value], -1)
    ensures NoGap(s[idx := Full(key, value)], hash, -1)
  {
    var t := s[idx := Full(key, value)];
    forall i | 0 <= i < |t| && t[i].Full?
      ensures Solid(t, hash(t[i].key), i)
    {
      if i != idx { assert Solid(s, hash(s[i].key), i); }
    }
  }

  // Everything strictly between the hole and `next` is reachable without passing the hole.
  ghost predicate Scanned<K(!new), V>(s: seq<Slot<K, V>>, hash: K -> nat, hole: nat, next: nat)
    requires forall k :: hash(k) < |s|
    requires hole < |s| && next < |s|
  {
    forall x {:trigger s[x]} :: 0 <= x < |s| && x != hole && Dist(|s|, hole, x) < Dist(|s|, hole, next)
      ==> s[x].Full? && Dist(|s|, hash(s[x].key), x) <= Dist(|s|, hash(s[x].key), hole)
  }

  // The state of a backward shift: slot `hole` still holds a copy of an entry already gone or moved.
  ghost predicate Shifting<K(!new), V>(s: seq<Slot<K, V>>, hash: K -> nat, at: map<K, nat>, m: map<K, V>, hole: nat,
                             next: nat)
  {
    && (forall k :: hash(k) < |s|)
    && hole < |s| && next < |s| && hole != next
    && s[hole].Full?
    && Placed(s, at, m, hole)
    && NoGap(s, hash, hole)
    && Scanned(s, hash, hole, next)
  }

  predicate CanShift(ideal: nat, curr: nat, next: nat) {
    if curr < next then ideal <= curr || ideal > next else ideal <= curr && ideal > next
  }

  lemma ShiftStarts<K(!new), V>(s: seq<Slot<K, V>>, hash: K -> nat, at: map<K, nat>, m: map<K, V>, hole: nat)
    requires forall k :: hash(k) < |s|
    requires Placed(s, at, m, -1) && NoGap(s, hash, -1)
    requires |s| > 1 && hole < |s| && s[hole].Full?
    ensures Shifting(s, hash, at - {s[hole].key}, m - {s[hole].key}, hole, Next(|s|, hole))
  {
  }

  lemma MovePlaces<K, V>(s: seq<Slot<K, V>>, at: map<K, nat>, m: map<K, V>, hole: nat, next: nat)
    requires Placed(s, at, m, hole) && hole < |s| && next < |s| && hole != next && s[next].Full?
    ensures Placed(s[hole := s[next]], at[s[next].key := hole], m, next)
  {
  }

  lemma MoveLeavesNoGap<K(!new), V>(s: seq<Slot<K, V>>, hash: K -> nat, hole: nat, next: nat)
    requires forall k :: hash(k) < |s|
    requires hole < |s| && next < |s| && hole != next && s[hole].Full? && s[next].Full?
    requires NoGap(s, hash, hole) && CanShift(hash(s[next].key), hole, next)
    ensures NoGap(s[hole := s[next]], hash, next)
  {
    var t := s[hole := s[next]];
    forall i | 0 <= i < |t| && i != next && t[i].Full?
      ensures Solid(t, hash(t[i].key), i)
    {
      assert Solid(s, hash(s[next].key), next);
      if i != hole { assert Solid(s, hash(s[i].key), i); }
    }
  }

  lemma MoveScans<K(!new), V>(s: seq<Slot<K, V>>, hash: K -> nat, hole: nat, next: nat)
    requires forall k :: hash(k) < |s|
    requires hole < |s| && next < |s| && hole != next && Next(|s|, next) != hole
    ensures Scanned(s[hole := s[next]], hash, next, Next(|s|, next))
  {
  }

  // Moving the entry at `next` into the hole makes `next` the hole.
  lemma ShiftMoves<K(!new), V>(s: seq<Slot<K, V>>, hash: K -> nat, at: map<K, nat>, m: map<K, V>, hole: nat, next: nat)
    requires Shifting(s, hash, at, m, hole, next) && s[next].Full?
    requires CanShift(hash(s[next].key), hole, next)
    requires Next(|s|, next) != hole
    ensures Shifting(s[hole := s[next]], hash, at[s[next].key := hole], m, next, Next(|s|, next))
  {
    hide Placed, NoGap, Scanned, Dist;
    MovePlaces(s, at, m, hole, next);
    MoveLeavesNoGap(s, hash, hole, next);
    MoveScans(s, hash, hole, next);
  }

  // An entry that must stay where it is does not need the hole.
  lemma ShiftSkips<K(!new), V>(s: seq<Slot<K, V>>, hash: K -> nat, at: map<K, nat>, m: map<K, V>, hole: nat, next: nat)
    requires Shifting(s, hash, at, m, hole, next) && s[next].Full?
    requires !CanShift(hash(s[next].key), hole, next)
    requires Next(|s|, next) != hole
    ensures Shifting(s, hash, at, m, hole, Next(|s|, next))
  {
  }

  // Once the scan meets an empty slot, nothing beyond it is reached through the hole.
  lemma ShiftEnds<K(!new), V>(s: seq<Slot<K, V>>, hash: K -> nat, at: map<K, nat>, m: map<K, V>, hole: nat, next: nat)
    requires Shifting(s, hash, at, m, hole, next) && s[next].Empty?
    ensures Placed(s[hole := Empty], at, m, -1) && NoGap(s[hole := Empty], hash, -1)
  {
    var t := s[hole := Empty];
    forall i | 0 <= i < |t| && t[i].Full?
      ensures Solid(t, hash(t[i].key), i)
    {
      var h := hash(s[i].key);
      assert Solid(s, h, i);
      assert !(Dist(|s|, h, next) < Dist(|s|, h, i));
      assert !(Dist(|s|, h, hole) < Dist(|s|, h, i));
    }
  }

  class Table<K(==, !new), V> {
    const entries: array<Slot<K, V>>
    const hash: K -> nat  // home slot of each key
    var count: nat

    ghost var Contents: map<K, V>
    ghost var slotOf: map<K, nat>  // where each key sits

    ghost function Repr(): set<object> { {this, entries} }

    // The largest count an insert may leave behind.
    function Cap(): nat { entries.Length * 8 / 10 }

    // The number of entries is the number of keys.
    lemma CapIs()
      requires Valid()
      ensures count == |Contents| && Cap() == entries.Length * 8 / 10
    {
    }

    ghost predicate Valid()
      reads this, entries
    {
      && entries.Length > 0
      && (forall k :: hash(k) < entries.Length)
      && Placed(entries[..], slotOf, Contents, -1)
      && NoGap(entries[..], hash, -1)
      && count == |Contents| == Occupied(entries[..])
      && count <= Cap()
    }

    constructor (capacity: nat, hash: K -> nat)
      requires capacity > 0
      requires forall k :: hash(k) < capacity
      ensures Valid() && fresh(entries) && entries.Length == capacity && this.hash == hash
      ensures Contents == map[] && count == 0
    {
      var a := new Slot<K, V>[capacity](_ => Empty);
      entries := a;
      this.hash := hash;
      count := 0;
      Contents, slotOf := map[], map[];
      new;
      AllEmpty(entries[..]);
    }

    // The probe loop of insert, lookup and remove: walk from the home slot to the key or to the
    // first empty slot.
    method Probe(key: K) returns (idx: nat)
      requires Valid()
      ensures idx < entries.Length && Solid(entries[..], hash(key), idx)
      ensures if entries[idx].Full?
              then entries[idx].key == key && key in Contents && Contents[key] == entries[idx].value
              else key !in Contents
    {
      hide Placed, NoGap;
      ghost var s := entries[..];
      var n := entries.Length;
      ghost var e := EmptySlot(s);
      ghost var h := hash(key);
      idx := hash(key);
      while entries[idx].Full? && entries[idx].key != key
        invariant idx < n
        invariant Dist(n, h, idx) <= Dist(n, h, e)
        invariant forall j {:trigger s[j]} :: 0 <= j < n && Dist(n, h, j) < Dist(n, h, idx) ==>
                  s[j].Full? && s[j].key != key
        decreases Dist(n, h, e) - Dist(n, h, idx)
      {
        assert s[idx] == entries[idx];
        DistNext(n, h, idx, e);
        idx := Next(n, idx);
      }
      assert s[idx] == entries[idx];
      if entries[idx].Empty? {
        NotPresent(s, hash, slotOf, Contents, key, idx);
      } else {
        Present(s, slotOf, Contents, idx);
      }
    }

    method Lookup(key: K) returns (r: Option<V>)
      requires Valid()
      ensures r == if key in Contents then Some(Contents[key]) else None
    {
      hide Placed, NoGap, Solid;
      var idx := Probe(key);
      r := if entries[idx].Full? then Some(entries[idx].value) else None;
    }

    method Insert(key: K, value: V) returns (r: Result<()>)
      requires Valid()
      modifies this, entries
      ensures Valid()
      ensures r == if old(count) >= entries.Length * 8 / 10 then Err(EngineFull) else Ok(())
      ensures Contents == if r.Ok? then old(Contents)[key := value] else old(Contents)
    {
      hide Placed, NoGap, Solid;
      if count >= entries.Length * 8 / 10 {
        return Err(EngineFull);
      }
      var idx := Probe(key);
      ghost var s := entries[..];
      InsertKeeps(s, hash, slotOf, Contents, idx, key, value);
      OccupiedUpdate(s, idx, Full(key, value));
      if entries[idx].Empty? {
        count := count + 1;
      }
      entries[idx] := Full(key, value);
      assert entries[..] == s[idx := Full(key, value)];
      Contents := Contents[key := value];
      slotOf := slotOf[key := idx];
      r := Ok(());
    }

    method Remove(key: K) returns (r: Option<V>)
      requires Valid()
      modifies this, entries
      ensures Valid()
      ensures r == if key in old(Contents) then Some(old(Contents)[key]) else None
      ensures Contents == old(Contents) - {key}
    {
      hide Placed, NoGap, Solid;
      var i := Probe(key);
      if entries[i].Empty? {
        return None;
      }
      r := Some(entries[i].value);
      ShiftBack(i);
    }

    // Backward-shift deletion of the entry in slot i.
    method ShiftBack(i: nat)
      requires Valid() && i < entries.Length && entries[i].Full?
      modifies this, entries
      ensures Valid() && Contents == old(Contents) - {old(entries[i]).key}
    {
      hide Placed, NoGap, Scanned, Shifting, Dist, Next, CanShift;
      ghost var s := entries[..];
      ghost var e: nat := EmptySlot(s);
      ghost var key := s[i].key;
      ghost var m := Contents - {key};
      ghost var at: map<K, nat> := slotOf - {key};
      Present(s, slotOf, Contents, i);
      ShiftStarts(s, hash, slotOf, Contents, i);

      var n := entries.Length;
      var curr: nat := i;
      var next: nat := Next(n, curr);
      ScanStarts(n, curr, e);
      while entries[next].Full?
        invariant curr < n && next < n
        invariant entries[..] == s && |s| == n && e < n && s[e].Empty? && s[curr].Full?
        invariant Shifting(s, hash, at, m, curr, next)
        invariant Dist(n, curr, next) <= Dist(n, curr, e)
        invariant count == old(count) == Occupied(s)
        decreases Dist(n, next, e)
      {
        DistNext(n, curr, next, e);
        ScanStarts(n, next, e);
        if CanShift(hash(entries[next].key), curr, next) {
          OccupiedUpdate(s, curr, s[next]);
          ShiftMoves(s, hash, at, m, curr, next);
          entries[curr] := entries[next];
          at := at[s[next].key := curr];
          s := s[curr := s[next]];
          curr := next;
        } else {
          ShiftSkips(s, hash, at, m, curr, next);
        }
        next := Next(n, next);
      }
      ShiftEnds(s, hash, at, m, curr, next);
      OccupiedUpdate(s, curr, Empty);
      count := count - 1;
      entries[curr] := Empty;
      assert entries[..] == s[curr := Empty];
      Contents, slotOf := m, at;
    }
  }
}
