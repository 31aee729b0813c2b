/** The HPACK dynamic table (section 4 of RFC 7541), src/http2/co_http2_hpack.c:319-512.
    Entries are newest first, so entry k has index 62 + k on the wire. */
module DynamicTable {
  import opened Machine
  import opened CStrings

  datatype Item = Item(size: u32, name: CString, value: CString)

  datatype Table = Table(maxSize: u32, totalSize: u32, items: seq<Item>)

  /** The 32-bit size the program stores with an entry. */
  function SizeOf(name: CString, value: CString): u32 {
    Wrap32(|name| + |value| + 32)
  }

  function Total(items: seq<Item>): (n: nat) {
    if items == [] then 0 else Total(items[..|items| - 1]) + items[|items| - 1].size
  }

  ghost predicate ItemsSized(items: seq<Item>) {
    forall i :: 0 <= i < |items| ==> items[i].size == |items[i].name| + |items[i].value| + 32
  }

  /** `total_size` is the true total and respects the bound of section 4.1. */
  ghost predicate Sound(t: Table) {
    t.totalSize == Total(t.items) && t.totalSize <= t.maxSize && ItemsSized(t.items)
  }

  /** What every table of the program satisfies: each size and the total are right modulo 2^32. */
  ghost predicate Counted(t: Table) {
    && t.totalSize == Total(t.items) % TWO_32 && t.totalSize <= t.maxSize
    && forall i :: 0 <= i < |t.items| ==> t.items[i].size == SizeOf(t.items[i].name, t.items[i].value)
  }

  /** The sum of section 4.1, whatever its width. */
  function TrueTotal(items: seq<Item>): nat {
    if items == [] then 0
    else
      var last := items[|items| - 1];
      TrueTotal(items[..|items| - 1]) + |last.name| + |last.value| + 32
  }

  function WithoutOldest(t: Table): Table
    requires t.items != []
  {
    var last := |t.items| - 1;
    Table(t.maxSize, Wrap32(t.totalSize - t.items[last].size), t.items[..last])
  }

  /** The eviction loop; `EvictSafe` says that it never reads the tail of an empty list. */
  function Evict(t: Table): Table
    decreases |t.items|
  {
    if t.totalSize <= t.maxSize || t.items == [] then t else Evict(WithoutOldest(t))
  }

  predicate EvictSafe(t: Table)
    decreases |t.items|
  {
    t.totalSize <= t.maxSize || (t.items != [] && EvictSafe(WithoutOldest(t)))
  }

  /** A table with one more entry, before eviction. */
  function Extended(t: Table, name: CString, value: CString): Table {
    var size := SizeOf(name, value);
    Table(t.maxSize, Wrap32(t.totalSize + size), [Item(size, name, value)] + t.items)
  }

  function Added(t: Table, name: CString, value: CString): Table {
    Evict(Extended(t, name, value))
  }

  function Resized(t: Table, maxSize: u32): Table {
    if maxSize == 0 then Table(0, 0, []) else Evict(t.(maxSize := maxSize))
  }

  // ---- totals ----

  lemma {:induction false} TotalSnoc(items: seq<Item>, k: nat)
    requires k < |items|
    ensures Total(items[..k + 1]) == Total(items[..k]) + items[k].size
  {
    assert items[..k + 1][..k] == items[..k];
  }

  lemma {:induction false} TotalMonotone(items: seq<Item>, j: nat, k: nat)
    requires j <= k <= |items|
    ensures Total(items[..j]) <= Total(items[..k])
  {
    if j < k {
      TotalMonotone(items, j, k - 1);
      TotalSnoc(items, k - 1);
    }
  }

  lemma {:induction false} TotalCons(item: Item, items: seq<Item>)
    ensures Total([item] + items) == item.size + Total(items)
  {
    if items == [] {
      assert [item] + items == [item];
      assert [item][..0] == [];
    } else {
      var front := items[..|items| - 1];
      assert ([item] + items)[..|items|] == [item] + front;
      TotalCons(item, front);
    }
  }

  /** Entries cost at least 32 each. */
  lemma {:induction false} ItemCount(items: seq<Item>)
    requires ItemsSized(items)
    ensures 32 * |items| <= Total(items)
  {
    if items != [] {
      ItemCount(items[..|items| - 1]);
    }
  }

  /** So a table within its bound holds fewer than 2^27 entries, and the index of none of them wraps. */
  lemma IndicesFit(t: Table)
    requires Sound(t)
    ensures |t.items| < 0x800_0000 && 62 + |t.items| < TWO_32
  {
    ItemCount(t.items);
  }

  // ---- eviction ----

  /** The longest newest-first prefix within the bound. */
  ghost predicate LongestFit(kept: seq<Item>, items: seq<Item>, maxSize: nat) {
    && kept <= items
    && Total(kept) <= maxSize
    && forall k :: |kept| < k <= |items| ==> Total(items[..k]) > maxSize
  }

  /** From a correct total the loop is safe, and what it keeps is the longest prefix that fits, with
      its true total. */
  lemma {:induction false} EvictsWhatDoesNotFit(t: Table)
    requires t.totalSize == Total(t.items)
    ensures var r := Evict(t);
            && r.maxSize == t.maxSize && r.totalSize == Total(r.items)
            && LongestFit(r.items, t.items, t.maxSize)
    ensures EvictSafe(t)
    decreases |t.items|
  {
    if t.totalSize <= t.maxSize {
    } else {
      assert t.items != [];
      var t' := WithoutOldest(t);
      EvictsWhatDoesNotFit(t');
      var kept := Evict(t').items;
      forall k | |kept| < k <= |t.items| ensures Total(t.items[..k]) > t.maxSize {
        if k == |t.items| {
          assert t.items[..k] == t.items;
        } else {
          assert t'.items[..k] == t.items[..k];
        }
      }
    }
  }

  /** The two conditions fix the kept entries uniquely. */
  lemma LongestFitUnique(a: seq<Item>, b: seq<Item>, items: seq<Item>, maxSize: nat)
    requires LongestFit(a, items, maxSize) && LongestFit(b, items, maxSize)
    ensures a == b
  {
    assert items[..|a|] == a && items[..|b|] == b;
  }

  /** An addition is safe and keeps the table sound exactly when the 32-bit total does not wrap. */
  lemma AddKeepsSoundExactly(t: Table, name: CString, value: CString)
    requires Sound(t) && |name| + |value| + 32 < TWO_32
    ensures Sound(Added(t, name, value)) <==> t.totalSize + SizeOf(name, value) < TWO_32
    ensures EvictSafe(Extended(t, name, value))
    ensures Sound(Added(t, name, value)) ==>
              LongestFit(Added(t, name, value).items, [Item(SizeOf(name, value), name, value)] + t.items, t.maxSize)
  {
    hide Evict, EvictSafe, Total;
    var size := SizeOf(name, value);
    var items := [Item(size, name, value)] + t.items;
    TotalCons(items[0], t.items);
    if t.totalSize + size < TWO_32 {
      EvictsWhatDoesNotFit(Extended(t, name, value));
    } else {
      NoEviction(Extended(t, name, value));
    }
  }

  lemma NoEviction(t: Table)
    requires t.totalSize <= t.maxSize
    ensures Evict(t) == t && EvictSafe(t)
  {
  }

  lemma ResizeKeepsSound(t: Table, maxSize: u32)
    requires Sound(t)
    ensures Sound(Resized(t, maxSize)) && (maxSize != 0 ==> EvictSafe(t.(maxSize := maxSize)))
    ensures LongestFit(Resized(t, maxSize).items, t.items, maxSize)
  {
    if maxSize == 0 {
      forall k | 0 < k <= |t.items| ensures Total(t.items[..k]) > 0 {
        TotalSnoc(t.items, k - 1);
      }
    } else {
      EvictsWhatDoesNotFit(t.(maxSize := maxSize));
    }
  }

  // ---- tables whose 32-bit total may have wrapped ----

  /** Removing the last entry takes its size off the total, modulo 2^32. */
  lemma WrapsBack(total: nat, size: u32, held: u32)
    requires held == (total + size) % TWO_32
    ensures Wrap32(held - size) == total % TWO_32
  {
    var q := (total + size) / TWO_32;
    assert held - size == total - q * TWO_32;
  }

  lemma WrapsOn(total: nat, size: u32, held: u32)
    requires held == total % TWO_32
    ensures Wrap32(held + size) == (size + total) % TWO_32
  {
    var q := total / TWO_32;
    assert held + size == size + total - q * TWO_32;
  }

  /** Even with a wrapped total the loop never reads the tail of an empty list: an empty table has total 0. */
  lemma {:induction false} CountedEvicts(t: Table)
    requires t.totalSize == Total(t.items) % TWO_32
    ensures EvictSafe(t) && Evict(t).maxSize == t.maxSize && Evict(t).items <= t.items
    ensures Evict(t).totalSize == Total(Evict(t).items) % TWO_32 && Evict(t).totalSize <= t.maxSize
    decreases |t.items|
  {
    if t.totalSize > t.maxSize {
      assert t.items != [];
      var last := |t.items| - 1;
      WrapsBack(Total(t.items[..last]), t.items[last].size, t.totalSize);
      CountedEvicts(WithoutOldest(t));
    }
  }

  lemma AddKeepsCounted(t: Table, name: CString, value: CString)
    requires Counted(t)
    ensures EvictSafe(Extended(t, name, value)) && Counted(Added(t, name, value))
    ensures Added(t, name, value).maxSize == t.maxSize && |Added(t, name, value).items| <= |t.items| + 1
  {
    hide Total, Evict, EvictSafe;
    var e := Extended(t, name, value);
    TotalCons(e.items[0], t.items);
    WrapsOn(Total(t.items), e.items[0].size, t.totalSize);
    CountedEvicts(e);
  }

  lemma ResizeKeepsCounted(t: Table, maxSize: u32)
    requires Counted(t)
    ensures EvictSafe(t.(maxSize := maxSize)) && Counted(Resized(t, maxSize))
  {
    hide Evict, EvictSafe;
    CountedEvicts(t.(maxSize := maxSize));
  }

  /** With the largest bound there is, nothing is ever evicted. */
  lemma NothingEvicted(t: Table, name: CString, value: CString)
    requires t.maxSize == 0xFFFF_FFFF
    ensures Added(t, name, value) == Extended(t, name, value)
  {
  }

  /** The total is the sum of section 4.1 exactly when that sum fits 32 bits. */
  lemma SoundExactly(t: Table)
    requires Counted(t)
    ensures Sound(t) <==> TrueTotal(t.items) < TWO_32
  {
    hide Total, TrueTotal;
    if ItemsSized(t.items) {
      TotalIsTrue(t.items);
    } else if TrueTotal(t.items) < TWO_32 {
      SmallIsSized(t.items);
      assert false;
    }
  }

  lemma {:induction false} TotalIsTrue(items: seq<Item>)
    requires ItemsSized(items)
    ensures Total(items) == TrueTotal(items)
  {
    if items != [] {
      TotalIsTrue(items[..|items| - 1]);
    }
  }

  lemma {:induction false} SmallIsSized(items: seq<Item>)
    requires TrueTotal(items) < TWO_32
    requires forall i :: 0 <= i < |items| ==> items[i].size == SizeOf(items[i].name, items[i].value)
    ensures ItemsSized(items)
  {
    if items != [] {
      SmallIsSized(items[..|items| - 1]);
    }
  }

  lemma SoundIsCounted(t: Table)
    requires Sound(t)
    ensures Counted(t)
  {
  }

  // ---- lookup ----

  predicate Matches(item: Item, name: CString, value: CString) {
    CaseEq(item.name, name) && CaseEq(item.value, value)
  }

  /** Position of the newest entry equal to (name, value) up to ASCII case. */
  function Find(items: seq<Item>, name: CString, value: CString, from: nat := 0): (r: Option<nat>)
    requires from <= |items|
    ensures r.Some? ==> from <= r.value < |items| && Matches(items[r.value], name, value)
    ensures r.Some? ==> forall k :: from <= k < r.value ==> !Matches(items[k], name, value)
    ensures r.None? ==> forall k :: from <= k < |items| ==> !Matches(items[k], name, value)
    decreases |items| - from
  {
    if from == |items| then None
    else if Matches(items[from], name, value) then Some(from)
    else Find(items, name, value, from + 1)
  }

  function EntryAt(items: seq<Item>, headerIndex: nat): Option<Item>
    requires headerIndex >= 62
  {
    if headerIndex - 62 < |items| then Some(items[headerIndex - 62]) else None
  }

  class DynamicTable {
    var maxSize: u32
    var totalSize: u32
    var items: seq<Item>

    function State(): Table
      reads this
    {
      Table(maxSize, totalSize, items)
    }

    constructor (maxSize: u32)
      ensures State() == Table(maxSize, 0, []) && Counted(State())
    {
      this.maxSize, totalSize, items := maxSize, 0, [];
    }

    /** The loop that additions and resizing share. */
    method EvictOldest()
      requires totalSize == Total(items) % TWO_32
      modifies this
      ensures State() == Evict(old(State()))
    {
      CountedEvicts(State());
      while totalSize > maxSize
        invariant maxSize == old(maxSize) && EvictSafe(State()) && Evict(State()) == Evict(old(State()))
        decreases |items|
      {
        var oldItem := items[|items| - 1];
        totalSize := Wrap32(totalSize - oldItem.size);
        items := items[..|items| - 1];
      }
    }

    method AddItem(name: CString, value: CString)
      requires Counted(State())
      modifies this
      ensures State() == Added(old(State()), name, value) && Counted(State())
    {
      hide Evict, EvictSafe, Total;
      AddKeepsCounted(State(), name, value);
      var item := Item(SizeOf(name, value), name, value);
      TotalCons(item, items);
      WrapsOn(Total(items), item.size, totalSize);
      items := [item] + items;
      totalSize := Wrap32(totalSize + item.size);
      EvictOldest();
    }

    method Resize(maxSize: u32)
      requires Counted(State())
      modifies this
      ensures State() == Resized(old(State()), maxSize) && Counted(State())
    {
      hide Total;
      ResizeKeepsCounted(State(), maxSize);
      this.maxSize := maxSize;
      if this.maxSize == 0 {
        totalSize := 0;
        items := [];
        return;
      }
      EvictOldest();
    }

    method FindItem(name: CString, value: CString) returns (found: bool, headerIndex: u32)
      ensures found <==> Find(items, name, value).Some?
      ensures found ==> headerIndex == Wrap32(62 + Find(items, name, value).value)
    {
      headerIndex := 62;
      var it := 0;
      while it < |items|
        invariant it <= |items| && headerIndex == Wrap32(62 + it)
        invariant Find(items, name, value) == Find(items, name, value, it)
      {
        if Matches(items[it], name, value) {
          return true, headerIndex;
        }
        it := it + 1;
        headerIndex := Wrap32(headerIndex + 1);
      }
      found := false;
    }

    /** Counts the index down while walking the list. */
    method FindItemByIndex(headerIndex: u32) returns (found: bool, name: CString, value: CString)
      requires headerIndex >= 62
      ensures found <==> EntryAt(items, headerIndex).Some?
      ensures found ==> EntryAt(items, headerIndex).value.name == name && EntryAt(items, headerIndex).value.value == value
    {
      var left, it := headerIndex - 61, 0;
      while it < |items| && left != 0
        invariant it <= |items| && left == headerIndex - 61 - it >= 0
      {
        it := it + 1;
        left := left - 1;
      }
      if it == 0 || left != 0 {
        return false, [], [];
      }
      return true, items[it - 1].name, items[it - 1].value;
    }
  }
}
