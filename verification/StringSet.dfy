/** The static string set: ngx_http_waf_ds_build_str and ngx_http_waf_ds_str_probe of
    module/src/local/ngx_http_waf_dataset.c, an open-addressed table of offsets into a blob.

    The checksum is a parameter. The table's size is a power of two, so masking with size - 1 is
    taking the remainder by size.
 */
module StringSet {
  import opened Bytes

  const ENTRY_MAX := 4096
  const BLOB_MAX := 0xffff_ffff

  type Crc = seq<Byte> -> nat

  // ---------------------------------------------------------------------------
  // The table and the blob
  // ---------------------------------------------------------------------------

  // An entry of the blob: two bytes of length, then the string.
  function LengthAt(blob: seq<Byte>, off: nat): nat
    requires off + 2 <= |blob|
  {
    256 * (blob[off] as int) + blob[off + 1] as int
  }

  ghost predicate EntryAt(blob: seq<Byte>, off: nat, s: seq<Byte>) {
    && off + 2 + |s| <= |blob| && LengthAt(blob, off) == |s| && blob[off + 2..off + 2 + |s|] == s
  }

  // (i + 1) & mask
  function After(i: nat, size: nat): (j: nat)
    requires i < size
    ensures j < size
  {
    if i + 1 == size then 0 else i + 1
  }

  // The slot d steps from a string's own.
  function SlotOf(crc: Crc, size: nat, s: seq<Byte>, d: nat): (i: nat)
    requires size > 0
    ensures i < size
  {
    if d == 0 then crc(s) % size else After(SlotOf(crc, size, s, d - 1), size)
  }

  // A nonzero slot names some item.
  ghost predicate Names(table: seq<nat>, blob: seq<Byte>, items: seq<seq<Byte>>, i: nat)
    requires i < |table| && table[i] > 0
  {
    exists k | 0 <= k < |items| :: EntryAt(blob, table[i] - 1, items[k])
  }

  // Slots before d steps are all taken, and the one there names s.
  ghost predicate Found(crc: Crc, table: seq<nat>, blob: seq<Byte>, s: seq<Byte>, d: nat)
    requires |table| > 0
  {
    && Taken(crc, table, s, d)
    && table[SlotOf(crc, |table|, s, d)] > 0
    && EntryAt(blob, table[SlotOf(crc, |table|, s, d)] - 1, s)
  }

  ghost predicate Taken(crc: Crc, table: seq<nat>, s: seq<Byte>, d: nat)
    requires |table| > 0
  {
    forall e: nat | e < d :: table[SlotOf(crc, |table|, s, e)] > 0
  }

  ghost predicate Reachable(crc: Crc, table: seq<nat>, blob: seq<Byte>, s: seq<Byte>)
    requires |table| > 0
  {
    exists d: nat :: Found(crc, table, blob, s, d)
  }

  ghost function Occupied(table: seq<nat>): set<int> { set i | 0 <= i < |table| && table[i] > 0 }

  ghost predicate Indexed(crc: Crc, table: seq<nat>, blob: seq<Byte>, items: seq<seq<Byte>>) {
    && |table| > 0
    && (forall i | 0 <= i < |table| && table[i] > 0 :: Names(table, blob, items, i))
    && (forall k | 0 <= k < |items| :: Reachable(crc, table, blob, items[k]))
    && |Occupied(table)| <= |items|
  }

  // ---------------------------------------------------------------------------
  // An empty slot
  // ---------------------------------------------------------------------------

  lemma {:induction false} EmptySlot(table: seq<nat>) returns (i: nat)
    requires |Occupied(table)| < |table|
    ensures i < |table| && table[i] == 0
  {
    var n := |table| - 1;
    if table[n] == 0 {
      i := n;
    } else {
      assert Occupied(table) == Occupied(table[..n]) + {n};
      i := EmptySlot(table[..n]);
    }
  }

  // Every slot is some number of steps from every string's own.
  lemma {:induction false} StepsTo(crc: Crc, size: nat, s: seq<Byte>, i: nat) returns (d: nat)
    requires i < size
    ensures SlotOf(crc, size, s, d) == i
  {
    var home := SlotOf(crc, size, s, 0);
    if i >= home {
      d := i - home;
      StepsUp(crc, size, s, 0, d);
    } else {
      StepsUp(crc, size, s, 0, size - 1 - home);
      d := size - home + i;
      StepsUp(crc, size, s, size - home, i);
    }
  }

  lemma {:induction false} StepsUp(crc: Crc, size: nat, s: seq<Byte>, from: nat, n: nat)
    requires size > 0 && SlotOf(crc, size, s, from) + n < size
    ensures SlotOf(crc, size, s, from + n) == SlotOf(crc, size, s, from) + n
  {
    if n > 0 {
      StepsUp(crc, size, s, from, n - 1);
    }
  }

  // ---------------------------------------------------------------------------
  // Probing and building
  // ---------------------------------------------------------------------------

  class StrSet {
    const crc: Crc
    const table: array<nat>
    var blob: seq<Byte>
    ghost var items: seq<seq<Byte>>

    ghost predicate Valid()
      reads this, table
    {
      Indexed(crc, table[..], blob, items) && |items| * 2 <= table.Length
    }

    constructor (crc: Crc, size: nat)
      requires size > 0
      ensures Valid() && fresh(table) && items == [] && blob == [] && table.Length == size && this.crc == crc
    {
      this.crc := crc;
      table := new nat[size](_ => 0);
      blob, items := [], [];
      new;
      assert Occupied(table[..]) == {};
    }

    // ngx_http_waf_ds_str_probe: ends, and says whether the string is one of the items. A miss
    // leaves the empty slot where it belongs.
    method Probe(data: seq<Byte>) returns (hit: bool, slot: nat, ghost d: nat)
      requires Indexed(crc, table[..], blob, items) && |items| < table.Length
      ensures hit <==> data in items
      ensures slot < table.Length && slot == SlotOf(crc, table.Length, data, d)
      ensures if hit then Found(crc, table[..], blob, data, d) else Taken(crc, table[..], data, d) && table[slot] == 0
    {
      hide Indexed, Found, Names;
      ghost var t: seq<nat> := table[..];
      ghost var far := Room(crc, t, blob, items, data);
      slot, d := crc(data) % table.Length, 0;
      while true
        invariant slot < table.Length && slot == SlotOf(crc, table.Length, data, d) && d <= far
        invariant Taken(crc, t, data, d)
        invariant forall e: nat | e < d :: !Found(crc, t, blob, data, e)
        decreases far - d
      {
        var off := table[slot];
        if off == 0 {
          MissMeansAbsent(crc, t, blob, items, data, d);
          return false, slot, d;
        }
        SlotNames(crc, t, blob, items, data, d);
        var same := Equals(off - 1, data, slot);
        SlotDecides(crc, t, blob, items, data, d, same);
        if same {
          return true, slot, d;
        }
        slot, d := After(slot, table.Length), d + 1;
      }
    }

    // One round of the build: the entry goes to the end of the blob, its offset into the table.
    method Add(data: seq<Byte>)
      requires Valid() && |data| <= ENTRY_MAX && (|items| + 1) * 2 <= table.Length
      modifies this, table
      ensures Valid() && items == old(items) + [data]
    {
      hide Indexed;
      ghost var t: seq<nat> := table[..];
      var off: nat := |blob|;
      var entry := [(|data| / 256) as Byte, (|data| % 256) as Byte] + data;
      GrowBlob(crc, t, blob, entry, items);
      blob := blob + entry;
      assert blob[off + 2..off + 2 + |data|] == data;
      assert EntryAt(blob, off, data);
      var hit, slot, d := Probe(data);
      Inserted(crc, t, blob, items, data, d, slot, off);
      table[slot] := off + 1;
      items := items + [data];
      assert table[..] == t[slot := off + 1];
    }

    method AddAll(strings: seq<seq<Byte>>)
      requires Valid() && items == [] && |strings| * 2 <= table.Length
      requires forall k | 0 <= k < |strings| :: |strings[k]| <= ENTRY_MAX
      modifies this, table
      ensures Valid() && items == strings
    {
      hide Indexed;
      for i := 0 to |strings|
        invariant Valid() && items == strings[..i]
      {
        Add(strings[i]);
        assert strings[..i + 1] == strings[..i] + [strings[i]];
      }
      assert strings[..|strings|] == strings;
    }

    // The entry at an offset of the table, compared with data.
    method Equals(off: nat, data: seq<Byte>, ghost slot: nat) returns (same: bool)
      requires slot < table.Length && table[slot] == off + 1 && Names(table[..], blob, items, slot)
      ensures same <==> EntryAt(blob, off, data)
    {
      ghost var k :| 0 <= k < |items| && EntryAt(blob, table[..][slot] - 1, items[k]);
      var len := LengthAt(blob, off);
      same := len == |data| && blob[off + 2..off + 2 + len] == data;
    }
  }

  // Some slot on the way of every string is empty.
  lemma {:induction false} Room(crc: Crc, table: seq<nat>, blob: seq<Byte>, items: seq<seq<Byte>>, data: seq<Byte>)
    returns (d: nat)
    requires Indexed(crc, table, blob, items) && |items| < |table|
    ensures table[SlotOf(crc, |table|, data, d)] == 0
  {
    var empty := EmptySlot(table);
    d := StepsTo(crc, |table|, data, empty);
  }

  lemma {:induction false} SlotNames(crc: Crc, table: seq<nat>, blob: seq<Byte>, items: seq<seq<Byte>>,
                                     data: seq<Byte>, d: nat)
    requires Indexed(crc, table, blob, items) && table[SlotOf(crc, |table|, data, d)] > 0
    ensures Names(table, blob, items, SlotOf(crc, |table|, data, d))
  {}

  lemma {:induction false} SlotDecides(crc: Crc, table: seq<nat>, blob: seq<Byte>, items: seq<seq<Byte>>,
                                       data: seq<Byte>, d: nat, same: bool)
    requires |table| > 0 && Taken(crc, table, data, d) && table[SlotOf(crc, |table|, data, d)] > 0
    requires Names(table, blob, items, SlotOf(crc, |table|, data, d))
    requires same <==> EntryAt(blob, table[SlotOf(crc, |table|, data, d)] - 1, data)
    ensures same <==> Found(crc, table, blob, data, d)
    ensures same ==> data in items
    ensures Taken(crc, table, data, d + 1)
  {
    if same {
      HitMeansPresent(table, blob, items, data, SlotOf(crc, |table|, data, d));
    }
  }

  lemma {:induction false} SameEntry(blob: seq<Byte>, off: nat, a: seq<Byte>, b: seq<Byte>)
    requires EntryAt(blob, off, a) && EntryAt(blob, off, b)
    ensures a == b
  {}

  lemma {:induction false} HitMeansPresent(table: seq<nat>, blob: seq<Byte>, items: seq<seq<Byte>>, data: seq<Byte>,
                                           i: nat)
    requires i < |table| && table[i] > 0 && Names(table, blob, items, i) && EntryAt(blob, table[i] - 1, data)
    ensures data in items
  {
    var k :| 0 <= k < |items| && EntryAt(blob, table[i] - 1, items[k]);
    SameEntry(blob, table[i] - 1, items[k], data);
  }

  // The first empty slot on a string's way ends the search for it.
  lemma {:induction false} MissMeansAbsent(crc: Crc, table: seq<nat>, blob: seq<Byte>, items: seq<seq<Byte>>,
                                           data: seq<Byte>, d: nat)
    requires Indexed(crc, table, blob, items) && table[SlotOf(crc, |table|, data, d)] == 0
    requires forall e: nat | e < d :: !Found(crc, table, blob, data, e)
    ensures data !in items
  {
    if k :| 0 <= k < |items| && items[k] == data {
      ItemReachable(crc, table, blob, items, k);
      hide Indexed, Found, Taken, Reachable;
      var e := ReachedBefore(crc, table, blob, data, d);
    }
  }

  lemma {:induction false} ItemReachable(crc: Crc, table: seq<nat>, blob: seq<Byte>, items: seq<seq<Byte>>, k: nat)
    requires Indexed(crc, table, blob, items) && k < |items|
    ensures Reachable(crc, table, blob, items[k])
  {}

  lemma {:induction false} ReachedBefore(crc: Crc, table: seq<nat>, blob: seq<Byte>, s: seq<Byte>, d: nat)
    returns (e: nat)
    requires |table| > 0 && Reachable(crc, table, blob, s) && table[SlotOf(crc, |table|, s, d)] == 0
    ensures e < d && Found(crc, table, blob, s, e)
  {
    e :| Found(crc, table, blob, s, e);
  }

  // ---------------------------------------------------------------------------
  // Adding an item
  // ---------------------------------------------------------------------------

  // Nothing in the blob moves when it grows.
  lemma {:induction false} GrowBlob(crc: Crc, table: seq<nat>, blob: seq<Byte>, more: seq<Byte>, items: seq<seq<Byte>>)
    requires Indexed(crc, table, blob, items)
    ensures Indexed(crc, table, blob + more, items)
  {
    hide Names, Reachable;
    forall i | 0 <= i < |table| && table[i] > 0 ensures Names(table, blob + more, items, i) {
      NamesGrow(table, blob, more, items, i);
    }
    forall k | 0 <= k < |items| ensures Reachable(crc, table, blob + more, items[k]) {
      ReachableGrows(crc, table, blob, more, items[k]);
    }
  }

  lemma {:induction false} NamesGrow(table: seq<nat>, blob: seq<Byte>, more: seq<Byte>, items: seq<seq<Byte>>, i: nat)
    requires i < |table| && table[i] > 0 && Names(table, blob, items, i)
    ensures Names(table, blob + more, items, i)
  {
    var k :| 0 <= k < |items| && EntryAt(blob, table[i] - 1, items[k]);
    EntryStays(blob, more, table[i] - 1, items[k]);
  }

  lemma {:induction false} ReachableGrows(crc: Crc, table: seq<nat>, blob: seq<Byte>, more: seq<Byte>, s: seq<Byte>)
    requires |table| > 0 && Reachable(crc, table, blob, s)
    ensures Reachable(crc, table, blob + more, s)
  {
    var d: nat :| Found(crc, table, blob, s, d);
    EntryStays(blob, more, table[SlotOf(crc, |table|, s, d)] - 1, s);
    assert Found(crc, table, blob + more, s, d);
  }

  lemma {:induction false} EntryStays(blob: seq<Byte>, more: seq<Byte>, off: nat, s: seq<Byte>)
    requires EntryAt(blob, off, s)
    ensures EntryAt(blob + more, off, s)
  {
    assert (blob + more)[off + 2..off + 2 + |s|] == blob[off + 2..off + 2 + |s|];
  }

  ghost predicate Placed(crc: Crc, table: seq<nat>, blob: seq<Byte>, data: seq<Byte>, d: nat, slot: nat, off: nat) {
    && |table| > 0 && slot < |table| && slot == SlotOf(crc, |table|, data, d) && EntryAt(blob, off, data)
    && Taken(crc, table, data, d)
    && (table[slot] > 0 ==> EntryAt(blob, table[slot] - 1, data))
  }

  lemma {:induction false} Inserted(crc: Crc, table: seq<nat>, blob: seq<Byte>, items: seq<seq<Byte>>,
                                    data: seq<Byte>, d: nat, slot: nat, off: nat)
    requires Indexed(crc, table, blob, items) && slot < |table| && Placed(crc, table, blob, data, d, slot, off)
    ensures Indexed(crc, table[slot := off + 1], blob, items + [data])
  {
    hide Names, Reachable, Placed;
    var after, all := table[slot := off + 1], items + [data];
    forall i | 0 <= i < |after| && after[i] > 0 ensures Names(after, blob, all, i) {
      InsertedNames(crc, table, blob, items, data, d, slot, off, i);
    }
    forall k | 0 <= k < |all| ensures Reachable(crc, after, blob, all[k]) {
      if k < |items| {
        StillReachable(crc, table, blob, items[k], data, d, slot, off);
      } else {
        NowReachable(crc, table, blob, data, d, slot, off);
      }
    }
    assert Occupied(after) == Occupied(table) + {slot};
  }

  lemma {:induction false} InsertedNames(crc: Crc, table: seq<nat>, blob: seq<Byte>, items: seq<seq<Byte>>,
                                         data: seq<Byte>, d: nat, slot: nat, off: nat, i: nat)
    requires i < |table| && (i != slot ==> table[i] > 0 && Names(table, blob, items, i))
    requires Placed(crc, table, blob, data, d, slot, off)
    ensures Names(table[slot := off + 1], blob, items + [data], i)
  {
    var all := items + [data];
    if i == slot {
      assert all[|items|] == data;
    } else {
      var k :| 0 <= k < |items| && EntryAt(blob, table[i] - 1, items[k]);
      assert all[k] == items[k];
    }
  }

  lemma {:induction false} NowReachable(crc: Crc, table: seq<nat>, blob: seq<Byte>, data: seq<Byte>, d: nat,
                                        slot: nat, off: nat)
    requires Placed(crc, table, blob, data, d, slot, off)
    ensures Reachable(crc, table[slot := off + 1], blob, data)
  {
    var after := table[slot := off + 1];
    assert Taken(crc, after, data, d);
    assert Found(crc, after, blob, data, d);
  }

  lemma {:induction false} StillReachable(crc: Crc, table: seq<nat>, blob: seq<Byte>, s: seq<Byte>,
                                          data: seq<Byte>, d: nat, slot: nat, off: nat)
    requires Placed(crc, table, blob, data, d, slot, off) && Reachable(crc, table, blob, s)
    ensures Reachable(crc, table[slot := off + 1], blob, s)
  {
    hide SlotOf, EntryAt;
    var e: nat :| Found(crc, table, blob, s, e);
    var after := table[slot := off + 1];
    assert Taken(crc, after, s, e);
    if SlotOf(crc, |table|, s, e) == slot {
      SameEntry(blob, table[slot] - 1, s, data);
    }
    assert Found(crc, after, blob, s, e);
  }

  // ---------------------------------------------------------------------------
  // ngx_http_waf_ds_build_str
  // ---------------------------------------------------------------------------

  ghost predicate PowerOfTwo(n: nat) { n == 1 || (n > 1 && n % 2 == 0 && PowerOfTwo(n / 2)) }

  // The smallest of 8, 16, 32, ... that is at least twice the number of strings.
  method TableSize(n: nat) returns (size: nat)
    ensures size >= 8 && size >= 2 * n && PowerOfTwo(size)
    ensures size == 8 || size < 4 * n
  {
    size := 8;
    EightIsPower();
    hide PowerOfTwo;
    while size < n * 2
      invariant size >= 8 && PowerOfTwo(size) && (size == 8 || size < 4 * n)
      decreases n * 2 - size
    {
      Doubled(size);
      size := size * 2;
    }
  }

  lemma {:induction false} EightIsPower()
    ensures PowerOfTwo(8)
  {
    assert PowerOfTwo(1);
    assert PowerOfTwo(2);
    assert PowerOfTwo(4);
  }

  lemma {:induction false} Doubled(n: nat)
    requires n > 0 && PowerOfTwo(n)
    ensures PowerOfTwo(n * 2)
  {
    assert n * 2 % 2 == 0 && n * 2 / 2 == n;
  }

  ghost function BlobLength(items: seq<seq<Byte>>): nat {
    if items == [] then 0 else BlobLength(items[..|items| - 1]) + 2 + |items[|items| - 1]|
  }

  // The set of exactly these strings, duplicates or not, unless one is too long, all together are,
  // or the slab has no room.
  method BuildStr(crc: Crc, items: seq<seq<Byte>>, room: bool) returns (r: Option<StrSet>)
    ensures r.Some? <==>
              && room && BlobLength(items) < BLOB_MAX
              && forall k | 0 <= k < |items| :: |items[k]| <= ENTRY_MAX
    ensures r.Some? ==> fresh(r.value) && r.value.Valid() && r.value.items == items
  {
    var size := TableSize(|items|);
    var ok := Acceptable(items);
    if !ok || !room {
      return None;
    }
    hide Indexed, PowerOfTwo, BlobLength;
    var built := new StrSet(crc, size);
    built.AddAll(items);
    r := Some(built);
  }

  method Acceptable(items: seq<seq<Byte>>) returns (ok: bool)
    ensures ok <==> (forall k | 0 <= k < |items| :: |items[k]| <= ENTRY_MAX) && BlobLength(items) < BLOB_MAX
  {
    var blobLen := 0;
    for i := 0 to |items|
      invariant blobLen == BlobLength(items[..i])
      invariant forall k | 0 <= k < i :: |items[k]| <= ENTRY_MAX
    {
      if |items[i]| > ENTRY_MAX {
        return false;
      }
      assert items[..i + 1][..i] == items[..i];
      blobLen := blobLen + 2 + |items[i]|;
    }
    assert items[..|items|] == items;
    ok := blobLen < BLOB_MAX;
  }
}
