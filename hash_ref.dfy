/**
 * `HashRef`: a fixed-capacity open-addressing table with linear
 * probing, built once from a list of pairs and then only read.  The
 * hash function (a `DefaultHasher` in the source) is a parameter.
 */
module HashRefs {
  import opened Wrappers

  datatype Slot<K, V> = Occupied(key: K, value: V) | Empty

  /** The table the pairs describe: a later pair for a key replaces an earlier one. */
  function MapOf<K, V>(data: seq<(K, V)>): (m: map<K, V>)
    ensures forall i :: 0 <= i < |data| ==> data[i].0 in m
    ensures data != [] ==> m[data[|data| - 1].0] == data[|data| - 1].1
  {
    if data == [] then map[] else MapOf(data[..|data| - 1])[data[|data| - 1].0 := data[|data| - 1].1]
  }

  /** Every key of the table came from some pair, and its value is the one from the last pair with that key. */
  lemma {:induction false} MapOfLastWins<K, V>(data: seq<(K, V)>, k: K)
    requires k in MapOf(data)
    ensures exists i :: 0 <= i < |data| && data[i] == (k, MapOf(data)[k]) &&
                        forall j :: i < j < |data| ==> data[j].0 != k
  {
    var init := data[..|data| - 1];
    var last := data[|data| - 1];
    if last.0 == k {
      assert data[|data| - 1] == (k, MapOf(data)[k]);
    } else {
      MapOfLastWins(init, k);
      var i :| 0 <= i < |init| && init[i] == (k, MapOf(init)[k])
        && forall j :: i < j < |init| ==> init[j].0 != k;
      assert data[i] == (k, MapOf(data)[k]);
    }
  }

  /** A key that no pair mentions is not in the table. */
  lemma {:induction false} MapOfOnlyGivenKeys<K, V>(data: seq<(K, V)>, k: K)
    requires forall i :: 0 <= i < |data| ==> data[i].0 != k
    ensures k !in MapOf(data)
  {
    if data != [] {
      MapOfOnlyGivenKeys(data[..|data| - 1], k);
    }
  }

  /** The slot `d` steps after `h`, wrapping around a table of `n` slots. */
  function Probe(h: nat, d: nat, n: nat): (i: nat)
    requires h < n && d < n
    ensures i < n
  {
    if h + d < n then h + d else h + d - n
  }

  /** How many steps from `h` reach slot `i`. */
  function Dist(h: nat, i: nat, n: nat): (d: nat)
    requires h < n && i < n
    ensures d < n && Probe(h, d, n) == i
  {
    if i >= h then i - h else i + n - h
  }

  lemma ProbeInjective(h: nat, d1: nat, d2: nat, n: nat)
    requires h < n && d1 < n && d2 < n && Probe(h, d1, n) == Probe(h, d2, n)
    ensures d1 == d2
  {
  }

  /** The source's `(idx + 1) % len` is the next probe step. */
  lemma ProbeNext(h: nat, d: nat, n: nat)
    requires h < n && d + 1 < n
    ensures (Probe(h, d, n) + 1) % n == Probe(h, d + 1, n)
  {
  }

  lemma ProbeWrapsHome(h: nat, n: nat)
    requires h < n
    ensures (Probe(h, n - 1, n) + 1) % n == h
  {
  }

  function CountEmpty<K, V>(s: seq<Slot<K, V>>): (c: nat)
    ensures c <= |s|
  {
    if s == [] then 0 else CountEmpty(s[..|s| - 1]) + (if s[|s| - 1].Empty? then 1 else 0)
  }

  lemma {:induction false} CountEmptyUpdate<K, V>(s: seq<Slot<K, V>>, p: nat, x: Slot<K, V>)
    requires p < |s| && x.Occupied?
    ensures CountEmpty(s[p := x]) == CountEmpty(s) - (if s[p].Empty? then 1 else 0)
  {
    var t := s[p := x];
    if p < |s| - 1 {
      assert t[..|t| - 1] == s[..|s| - 1][p := x];
      CountEmptyUpdate(s[..|s| - 1], p, x);
    } else {
      assert t[..|t| - 1] == s[..|s| - 1];
    }
  }

  lemma {:induction false} CountEmptyNone<K, V>(s: seq<Slot<K, V>>)
    requires forall i :: 0 <= i < |s| ==> s[i].Occupied?
    ensures CountEmpty(s) == 0
  {
    if s != [] {
      CountEmptyNone(s[..|s| - 1]);
    }
  }

  /** `pos` says where each key lives. */
  ghost predicate PosExact<K(!new), V>(s: seq<Slot<K, V>>, contents: map<K, V>, pos: map<K, nat>)
  {
    pos.Keys == contents.Keys
    && forall k :: k in pos ==> pos[k] < |s| && s[pos[k]] == Occupied(k, contents[k])
  }

  /** Every occupied slot is the recorded position of its key. */
  ghost predicate SlotsIndexed<K(!new), V>(s: seq<Slot<K, V>>, pos: map<K, nat>)
  {
    forall i :: 0 <= i < |s| && s[i].Occupied? ==> s[i].key in pos && pos[s[i].key] == i
  }

  /** Every slot between a key's home slot and its position is occupied, so probing from home reaches it. */
  ghost predicate PathsOccupied<K(!new), V>(s: seq<Slot<K, V>>, hash: K -> nat, pos: map<K, nat>)
    requires |s| > 0 && forall k :: k in pos ==> pos[k] < |s|
  {
    forall k, d :: k in pos && 0 <= d < Dist(hash(k) % |s|, pos[k], |s|) ==>
      s[Probe(hash(k) % |s|, d, |s|)].Occupied?
  }

  /** The table invariant on a slot sequence; `size` counts the keys. */
  ghost predicate TableInv<K(!new), V>(s: seq<Slot<K, V>>, hash: K -> nat, contents: map<K, V>, pos: map<K, nat>, size: nat)
  {
    PosExact(s, contents, pos)
    && SlotsIndexed(s, pos)
    && (|s| == 0 ==> contents == map[])
    && (|s| > 0 ==> PathsOccupied(s, hash, pos))
    && size == |contents|
    && CountEmpty(s) + size == |s|
  }

  /** Filling an empty slot reached by probing from the key's home keeps the invariant. */
  lemma InsertIntoEmpty<K(!new), V>(s: seq<Slot<K, V>>, hash: K -> nat, contents: map<K, V>, pos: map<K, nat>,
                                   size: nat, key: K, value: V, steps: nat)
    requires TableInv(s, hash, contents, pos, size) && |s| > 0 && key !in contents
    requires steps < |s| && s[Probe(hash(key) % |s|, steps, |s|)].Empty?
    requires forall d :: 0 <= d < steps ==> s[Probe(hash(key) % |s|, d, |s|)].Occupied?
    ensures TableInv(s[Probe(hash(key) % |s|, steps, |s|) := Occupied(key, value)], hash,
                     contents[key := value], pos[key := Probe(hash(key) % |s|, steps, |s|)], size + 1)
  {
    var n := |s|;
    var home := hash(key) % n;
    var p := Probe(home, steps, n);
    var t := s[p := Occupied(key, value)];
    var c2 := contents[key := value];
    var p2 := pos[key := p];
    CountEmptyUpdate(s, p, Occupied(key, value));
    forall k | k in p2
      ensures p2[k] < n && t[p2[k]] == Occupied(k, c2[k])
    {
      if k != key {
        assert s[pos[k]].Occupied?;
      }
    }
    assert PosExact(t, c2, p2);
    forall i | 0 <= i < n && t[i].Occupied?
      ensures t[i].key in p2 && p2[t[i].key] == i
    {
      if i != p {
        assert t[i] == s[i];
      }
    }
    assert SlotsIndexed(t, p2);
    forall k, d | k in p2 && 0 <= d < Dist(hash(k) % n, p2[k], n)
      ensures t[Probe(hash(k) % n, d, n)].Occupied?
    {
      if k == key {
        assert Dist(home, p, n) == steps by { ProbeInjective(home, Dist(home, p, n), steps, n); }
      } else {
        assert s[Probe(hash(k) % n, d, n)].Occupied?;
      }
    }
    assert PathsOccupied(t, hash, p2);
    assert |c2| == |contents| + 1;
  }

  /** Replacing the value of a key in its own slot keeps the invariant. */
  lemma Overwrite<K(!new), V>(s: seq<Slot<K, V>>, hash: K -> nat, contents: map<K, V>, pos: map<K, nat>,
                             size: nat, p: nat, key: K, value: V)
    requires TableInv(s, hash, contents, pos, size)
    requires p < |s| && s[p].Occupied? && s[p].key == key
    ensures TableInv(s[p := Occupied(key, value)], hash, contents[key := value], pos, size)
  {
    var t := s[p := Occupied(key, value)];
    var c2 := contents[key := value];
    CountEmptyUpdate(s, p, Occupied(key, value));
    assert c2.Keys == contents.Keys;
    forall k | k in pos
      ensures pos[k] < |s| && t[pos[k]] == Occupied(k, c2[k])
    {
    }
    assert PosExact(t, c2, pos);
    assert SlotsIndexed(t, pos);
    if |s| > 0 {
      forall k, d | k in pos && 0 <= d < Dist(hash(k) % |s|, pos[k], |s|)
        ensures t[Probe(hash(k) % |s|, d, |s|)].Occupied?
      {
        assert s[Probe(hash(k) % |s|, d, |s|)].Occupied?;
      }
      assert PathsOccupied(t, hash, pos);
    }
  }

  lemma {:induction false} SomeEmpty<K, V>(s: seq<Slot<K, V>>)
    requires CountEmpty(s) > 0
    ensures exists i :: 0 <= i < |s| && s[i].Empty?
  {
    if s[|s| - 1].Empty? {
    } else {
      SomeEmpty(s[..|s| - 1]);
      var i :| 0 <= i < |s| - 1 && s[..|s| - 1][i].Empty?;
      assert s[i].Empty?;
    }
  }

  /** A table with fewer keys than slots has an empty slot on every probe sequence. */
  lemma ProbeFindsRoom<K(!new), V>(s: seq<Slot<K, V>>, hash: K -> nat, contents: map<K, V>, pos: map<K, nat>,
                                  size: nat, home: nat)
    requires TableInv(s, hash, contents, pos, size) && home < |s| && size < |s|
    ensures exists d :: 0 <= d < |s| && s[Probe(home, d, |s|)].Empty?
  {
    SomeEmpty(s);
    var i :| 0 <= i < |s| && s[i].Empty?;
    assert s[Probe(home, Dist(home, i, |s|), |s|)].Empty?;
  }

  /** A stored key is reached by probing from its home before any empty slot. */
  lemma PresentIsReached<K(!new), V>(s: seq<Slot<K, V>>, hash: K -> nat, contents: map<K, V>, pos: map<K, nat>,
                                    size: nat, key: K, steps: nat)
    requires TableInv(s, hash, contents, pos, size) && |s| > 0 && key in contents && steps < |s|
    requires forall d :: 0 <= d < steps ==>
      s[Probe(hash(key) % |s|, d, |s|)].Empty? || s[Probe(hash(key) % |s|, d, |s|)].key != key
    ensures s[Probe(hash(key) % |s|, steps, |s|)].Occupied?
  {
    var n := |s|;
    var home := hash(key) % n;
    var dk := Dist(home, pos[key], n);
    assert s[Probe(home, dk, n)] == Occupied(key, contents[key]);
    if dk != steps {
      assert dk > steps;
    }
  }

  class HashRef<K(==,!new), V> {
    const slots: array<Slot<K, V>>
    var size: nat
    const hash: K -> nat
    /** The key-value pairs the table holds. */
    ghost var contents: map<K, V>
    ghost var pos: map<K, nat>

    ghost predicate Valid()
      reads this, slots
    {
      TableInv(slots[..], hash, contents, pos, size)
    }

    /** `frame.build_array(capacity, |_| None)`: all slots empty. */
    constructor (capacity: nat, hash: K -> nat)
      ensures Valid() && contents == map[] && size == 0
      ensures slots.Length == capacity && this.hash == hash
      ensures fresh(slots)
    {
      slots := new Slot<K, V>[capacity](_ => Empty);
      size := 0;
      this.hash := hash;
      contents := map[];
      pos := map[];
      new;
      EmptyCount(slots[..]);
    }

    static lemma {:induction false} EmptyCount(s: seq<Slot<K, V>>)
      requires forall i :: 0 <= i < |s| ==> s[i].Empty?
      ensures CountEmpty(s) == |s|
    {
      if s != [] {
        EmptyCount(s[..|s| - 1]);
      }
    }

    /** `len`: the number of distinct keys. */
    function Len(): (n: nat)
      reads this, slots
      requires Valid()
      ensures n == |contents|
    {
      size
    }

    /**
     * The body of the loop in `new` for one pair: probe from the key's
     * home slot, overwrite the slot holding the key or fill the first
     * empty one, and report whether the table is now full (the panic).
     */
    method Insert(key: K, value: V) returns (full: bool)
      requires Valid() && size < slots.Length
      modifies this, slots
      ensures Valid()
      ensures contents == old(contents)[key := value]
      ensures full <==> |contents| == slots.Length
    {
      var n := slots.Length;
      var idx := hash(key) % n;
      ghost var home := idx;
      ghost var steps := 0;
      ghost var s0 := slots[..];
      ProbeFindsRoom(s0, hash, contents, pos, size, home);
      while true
        invariant steps < n && idx == Probe(home, steps, n)
        invariant slots[..] == s0 && contents == old(contents) && size == old(size) && pos == old(pos)
        invariant forall d :: 0 <= d < steps ==>
          s0[Probe(home, d, n)].Occupied? && s0[Probe(home, d, n)].key != key
        invariant exists d :: steps <= d < n && s0[Probe(home, d, n)].Empty?
        decreases n - steps
      {
        match slots[idx] {
          case Occupied(k, _) =>
            if k == key {
              Replace(idx, key, value);
              break;
            }
          case Empty =>
            if key in contents {
              PresentIsReached(s0, hash, contents, pos, size, key, steps);
            }
            Fill(idx, key, value, steps);
            break;
        }
        ProbeNext(home, steps, n);
        idx := (idx + 1) % n;
        steps := steps + 1;
      }
      full := size == n;
      assert size == |contents|;
    }

    /** `*slot_value = value`: the key already has slot `idx`. */
    method Replace(idx: nat, key: K, value: V)
      requires Valid() && idx < slots.Length && slots[idx].Occupied? && slots[idx].key == key
      modifies this, slots
      ensures Valid() && contents == old(contents)[key := value] && size == old(size)
    {
      Overwrite(slots[..], hash, contents, pos, size, idx, key, value);
      slots[idx] := Occupied(key, value);
      contents := contents[key := value];
    }

    /** `*slot = Some(key, value); size += 1`: the first empty slot on the key's probe path. */
    method Fill(idx: nat, key: K, value: V, ghost steps: nat)
      requires Valid() && slots.Length > 0 && key !in contents
      requires steps < slots.Length && idx == Probe(hash(key) % slots.Length, steps, slots.Length)
      requires slots[idx].Empty?
      requires forall d :: 0 <= d < steps ==> slots[Probe(hash(key) % slots.Length, d, slots.Length)].Occupied?
      modifies this, slots
      ensures Valid() && contents == old(contents)[key := value] && size == old(size) + 1
    {
      InsertIntoEmpty(slots[..], hash, contents, pos, size, key, value, steps);
      slots[idx] := Occupied(key, value);
      size := size + 1;
      contents := contents[key := value];
      pos := pos[key := idx];
    }

    /**
     * `get`: the value stored for `key`, found by probing from its home slot.
     * A table without slots panics on the remainder by zero; that panic is None.
     */
    method Get(key: K) returns (r: Option<V>)
      requires Valid()
      ensures r == (if key in contents then Some(contents[key]) else None)
      ensures slots.Length == 0 ==> r.None?
    {
      if slots.Length == 0 {
        return None;
      }
      r := Search(key);
    }

    /** The probe of `get` on a table with at least one slot. */
    method Search(key: K) returns (r: Option<V>)
      requires Valid() && slots.Length > 0
      ensures r == (if key in contents then Some(contents[key]) else None)
    {
      var n := slots.Length;
      var idx := hash(key) % n;
      var original := idx;
      ghost var steps := 0;
      match slots[idx] {
        case Occupied(k, v) =>
          if k == key {
            return Some(v);
          }
        case Empty =>
          if key in contents {
            PresentIsReached(slots[..], hash, contents, pos, size, key, 0);
          }
          return None;
      }
      while true
        invariant steps < n && idx == Probe(original, steps, n)
        invariant forall d :: 0 <= d <= steps ==>
          slots[Probe(original, d, n)].Occupied? && slots[Probe(original, d, n)].key != key
        decreases n - steps
      {
        if steps + 1 == n {
          ProbeWrapsHome(original, n);
        } else {
          ProbeNext(original, steps, n);
        }
        idx := (idx + 1) % n;
        if idx == original {
          AbsentEverywhere(key);
          return None;
        }
        steps := steps + 1;
        match slots[idx] {
          case Occupied(k, v) =>
            if k == key {
              return Some(v);
            }
          case Empty =>
            if key in contents {
              PresentIsReached(slots[..], hash, contents, pos, size, key, steps);
            }
            return None;
        }
      }
    }

    /** Probing went all the way around without meeting the key: the key is absent. */
    lemma AbsentEverywhere(key: K)
      requires Valid() && slots.Length > 0
      requires forall d :: 0 <= d < slots.Length ==>
        slots[Probe(hash(key) % slots.Length, d, slots.Length)].Occupied?
        && slots[Probe(hash(key) % slots.Length, d, slots.Length)].key != key
      ensures key !in contents
    {
      var n := slots.Length;
      var home := hash(key) % n;
      forall k | k in pos
        ensures k != key
      {
        assert slots[Probe(home, Dist(home, pos[k], n), n)] == slots[pos[k]];
      }
    }

    /** `iter`: the stored pairs in slot order. */
    method Entries() returns (out: seq<(K, V)>)
      requires Valid()
      ensures out == OccupiedPairs(slots[..])
      ensures forall k, v :: (k, v) in out <==> k in contents && contents[k] == v
    {
      out := [];
      var idx := 0;
      while idx < slots.Length
        invariant 0 <= idx <= slots.Length
        invariant out == OccupiedPairs(slots[..idx])
      {
        assert slots[..idx + 1] == slots[..idx] + [slots[idx]];
        OccupiedPairsAppend(slots[..idx], slots[idx]);
        if slots[idx].Occupied? {
          out := out + [(slots[idx].key, slots[idx].value)];
        }
        idx := idx + 1;
      }
      assert slots[..idx] == slots[..];
      EntriesAreContents();
    }

    lemma EntriesAreContents()
      requires Valid()
      ensures forall k, v :: (k, v) in OccupiedPairs(slots[..]) <==> k in contents && contents[k] == v
    {
      var s := slots[..];
      OccupiedPairsMembers(s);
      forall k, v
        ensures Occupied(k, v) in s <==> k in contents && contents[k] == v
      {
        if Occupied(k, v) in s {
          var i :| 0 <= i < |s| && s[i] == Occupied(k, v);
          assert s[i].Occupied?;
        }
        if k in contents && contents[k] == v {
          assert s[pos[k]] == Occupied(k, v);
        }
      }
    }
  }

  /** The occupied slots of `s`, in index order. */
  function OccupiedPairs<K, V>(s: seq<Slot<K, V>>): seq<(K, V)>
  {
    if s == [] then []
    else OccupiedPairs(s[..|s| - 1]) + (if s[|s| - 1].Occupied? then [(s[|s| - 1].key, s[|s| - 1].value)] else [])
  }

  lemma OccupiedPairsAppend<K, V>(s: seq<Slot<K, V>>, x: Slot<K, V>)
    ensures OccupiedPairs(s + [x]) == OccupiedPairs(s) + (if x.Occupied? then [(x.key, x.value)] else [])
  {
    assert (s + [x])[..|s|] == s;
  }

  /** A pair is listed exactly when some slot holds it. */
  lemma {:induction false} OccupiedPairsMembers<K, V>(s: seq<Slot<K, V>>)
    ensures forall k, v :: (k, v) in OccupiedPairs(s) <==> Occupied(k, v) in s
  {
    if s != [] {
      var init := s[..|s| - 1];
      OccupiedPairsMembers(init);
      assert s == init + [s[|s| - 1]];
    }
  }

  /**
   * `HashRef::new`: a table of `capacity` slots filled with `data`.
   * It panics (None) when a key must be hashed into a table with no
   * slots, or when the number of distinct keys reaches the capacity.
   */
  method New<K(==,!new), V>(capacity: nat, hash: K -> nat, data: seq<(K, V)>) returns (r: Option<HashRef<K, V>>)
    ensures r.None? <==> data != [] && |MapOf(data)| >= capacity
    ensures r.Some? ==> r.value.Valid() && r.value.contents == MapOf(data)
    ensures r.Some? ==> r.value.Len() == |MapOf(data)| && r.value.slots.Length == capacity
    ensures r.Some? ==> fresh(r.value) && fresh(r.value.slots)
  {
    var table := new HashRef<K, V>(capacity, hash);
    var j := 0;
    while j < |data|
      invariant 0 <= j <= |data|
      invariant table.Valid() && table.contents == MapOf(data[..j])
      invariant table.slots.Length == capacity && fresh(table) && fresh(table.slots)
      invariant j > 0 ==> |MapOf(data[..j])| < capacity
    {
      MapOfSnoc(data, j);
      if capacity == 0 {
        return None;
      }
      var full := table.Insert(data[j].0, data[j].1);
      j := j + 1;
      if full {
        MapOfGrows(data, j);
        return None;
      }
    }
    assert data[..j] == data;
    return Some(table);
  }

  /** One more pair sets its key to its value. */
  lemma MapOfSnoc<K, V>(data: seq<(K, V)>, j: nat)
    requires j < |data|
    ensures MapOf(data[..j + 1]) == MapOf(data[..j])[data[j].0 := data[j].1]
  {
    assert data[..j + 1][..j] == data[..j];
  }

  /** Adding pairs never shrinks the table. */
  lemma {:induction false} MapOfGrows<K, V>(data: seq<(K, V)>, j: nat)
    requires j <= |data|
    ensures |MapOf(data[..j])| <= |MapOf(data)|
    decreases |data| - j
  {
    if j < |data| {
      MapOfGrows(data, j + 1);
      assert data[..j + 1][..j] == data[..j];
      var m := MapOf(data[..j]);
      assert m.Keys <= MapOf(data[..j + 1]).Keys;
      assert |m.Keys| <= |MapOf(data[..j + 1]).Keys|;
    } else {
      assert data[..j] == data;
    }
  }
}
