/**
 * The memory glue of vs_wasm.js: strings and arrays of JavaScript values handed to WebAssembly through
 * its linear memory, by code that caches views of a buffer which any allocation may replace.
 */
module WasmGlue {
  import opened Wrappers
  import opened Octets
  import opened Utf8

  const MAX_TABLE_SLOTS := 0x1_0000_0000

  type u32 = x: int | 0 <= x < 0x1_0000_0000

  function Min(a: nat, b: nat): nat {
    if a < b then a else b
  }

  function Splice(b: Bytes, at: nat, data: Bytes): (r: Bytes)
    requires at + |data| <= |b|
    ensures |r| == |b| && r[..at] == b[..at] && r[at..at + |data|] == data && r[at + |data|..] == b[at + |data|..]
  {
    b[..at] + data + b[at + |data|..]
  }

  lemma SpliceAt(b: Bytes, at: nat, data: Bytes, i: nat)
    requires at + |data| <= |b| && i < |b|
    ensures Splice(b, at, data)[i] == if at <= i < at + |data| then data[i - at] else b[i]
  {
  }

  /** Live blocks lie apart in the memory, which holds their contents. */
  ghost predicate Holding(blocks: map<nat, Bytes>, memory: Bytes) {
    && (forall p :: p in blocks ==> blocks[p] != [] && p + |blocks[p]| <= |memory|)
    && (forall p, q :: p in blocks && q in blocks && p != q ==> p + |blocks[p]| <= q || q + |blocks[q]| <= p)
    && (forall p, i :: p in blocks && 0 <= i < |blocks[p]| ==> memory[p + i] == blocks[p][i])
  }

  /** Behind the end of the memory there is room for one more block. */
  lemma HoldingAppended(blocks: map<nat, Bytes>, memory: Bytes, contents: Bytes)
    requires Holding(blocks, memory) && contents != []
    ensures |memory| !in blocks && Holding(blocks[|memory| := contents], memory + contents)
  {
  }

  /** A write inside one block changes that block and leaves the others as they are. */
  lemma WriteStaysInside(blocks: map<nat, Bytes>, before: Bytes, after: Bytes, ptr: nat, at: nat, data: Bytes)
    requires Holding(blocks, before) && ptr in blocks && at + |data| <= |blocks[ptr]|
    requires |after| == |before|
    requires forall i :: 0 <= i < |after| ==>
               after[i] == if ptr + at <= i < ptr + at + |data| then data[i - ptr - at] else before[i]
    ensures Holding(blocks[ptr := Splice(blocks[ptr], at, data)], after)
  {
    var written := Splice(blocks[ptr], at, data);
    forall p, i | p in blocks && p != ptr && 0 <= i < |blocks[p]| ensures after[p + i] == blocks[p][i] {
      assert p + |blocks[p]| <= ptr || ptr + |blocks[ptr]| <= p;
    }
    forall i: nat | i < |written| ensures after[ptr + i] == written[i] {
      SpliceAt(blocks[ptr], at, data, i);
    }
  }

  /** Behind the ASCII prefix in a grown block, the encoded rest completes the encoded string. */
  lemma PrefixAndRest(arg: Units, offset: nat, start: Bytes, grown: Bytes)
    requires offset <= |arg| == |start| && IsAscii(arg[..offset])
    requires start[..offset] == AsciiBytes(arg[..offset])
    requires |arg| <= |grown| && grown[..|arg|] == start
    requires offset + |Encode(arg[offset..])| <= |grown|
    ensures offset + |Encode(arg[offset..])| == |Encode(arg)|
    ensures Splice(grown, offset, Encode(arg[offset..]))[..|Encode(arg)|] == Encode(arg)
  {
    AsciiPrefixSplits(arg[..offset], arg[offset..]);
    assert arg == arg[..offset] + arg[offset..];
    assert grown[..offset] == start[..offset];
  }

  lemma AllAscii(arg: Units, contents: Bytes)
    requires |contents| == |arg| && IsAscii(arg[..|arg|]) && contents[..|arg|] == AsciiBytes(arg[..|arg|])
    ensures contents == Encode(arg)
  {
    assert arg[..|arg|] == arg && contents[..|arg|] == contents;
    AsciiPrefixSplits(arg, []);
    assert arg + [] == arg;
  }

  lemma EncodeIsNotEmpty(arg: Units)
    requires arg != []
    ensures Encode(arg) != []
  {
    EncodeUnfolds(arg);
  }

  lemma AsciiBytesGrows(arg: Units, k: nat)
    requires k < |arg| && IsAscii(arg[..k]) && arg[k] <= 0x7F
    ensures IsAscii(arg[..k + 1]) && AsciiBytes(arg[..k + 1]) == AsciiBytes(arg[..k]) + [arg[k] as byte]
  {
    assert forall i :: 0 <= i < k ==> arg[..k + 1][i] == arg[..k][i];
  }

  /** What `TextEncoder.encodeInto` writes: whole scalar values as long as they fit. */
  function Fitting(arg: Units, capacity: nat): (r: (nat, Bytes))
    ensures r.0 <= |arg| && |r.1| <= capacity
    decreases |arg|
  {
    if arg == [] || |EncodeScalar(FirstScalar(arg))| > capacity then (0, [])
    else
      var octets := EncodeScalar(FirstScalar(arg));
      var rest := Fitting(arg[FirstLength(arg)..], capacity - |octets|);
      (FirstLength(arg) + rest.0, octets + rest.1)
  }

  lemma {:induction false} FittingIsAll(arg: Units, capacity: nat)
    requires |Encode(arg)| <= capacity
    ensures Fitting(arg, capacity) == (|arg|, Encode(arg))
    decreases |arg|
  {
    if arg != [] {
      EncodeUnfolds(arg);
      FittingIsAll(arg[FirstLength(arg)..], capacity - |EncodeScalar(FirstScalar(arg))|);
    }
  }

  lemma OverwriteTwice(m: map<nat, Bytes>, key: nat, first: Bytes, second: Bytes)
    ensures m[key := first][key := second] == m[key := second]
  {
  }

  lemma SpliceWhole(b: Bytes, data: Bytes)
    requires |b| == |data|
    ensures Splice(b, 0, data) == data
  {
  }

  lemma RemoveAdded(m: map<nat, Bytes>, key: nat, value: Bytes)
    requires key !in m
    ensures m[key := value] - {key} == m
  {
  }

  /** The four octets of a number, least significant first. */
  function U32Bytes(n: u32): (b: Bytes)
    ensures |b| == 4
  {
    [n % 0x100, n / 0x100 % 0x100, n / 0x1_0000 % 0x100, n / 0x100_0000]
  }

  function U32Value(b: Bytes): (n: u32)
    requires |b| == 4
  {
    b[0] as int + b[1] as int * 0x100 + b[2] as int * 0x1_0000 + b[3] as int * 0x100_0000
  }

  lemma U32RoundTrip(n: u32)
    ensures U32Value(U32Bytes(n)) == n
  {
    assert n == n / 0x100 * 0x100 + n % 0x100;
    assert n / 0x100 == n / 0x100 / 0x100 * 0x100 + n / 0x100 % 0x100 && n / 0x100 / 0x100 == n / 0x1_0000;
    assert n / 0x1_0000 == n / 0x1_0000 / 0x100 * 0x100 + n / 0x1_0000 % 0x100
           && n / 0x1_0000 / 0x100 == n / 0x100_0000;
  }

  // ----- table slots -----

  ghost predicate Distinct(slots: seq<u32>) {
    forall i, j :: 0 <= i < j < |slots| ==> slots[i] != slots[j]
  }

  ghost predicate FreshSlots<T>(slots: seq<u32>, table: map<u32, T>) {
    Distinct(slots) && forall i :: 0 <= i < |slots| ==> slots[i] !in table
  }

  ghost function SlotSet(slots: seq<u32>): set<u32> {
    set s | s in slots
  }

  /** The table with one more entry for each slot. */
  ghost function WithSlots<T>(table: map<u32, T>, slots: seq<u32>, values: seq<T>): (t: map<u32, T>)
    requires |slots| == |values|
    ensures forall k :: k in t <==> k in table || k in slots
  {
    if slots == [] then table
    else
      var n := |slots| - 1;
      assert forall k :: k in slots <==> k in slots[..n] || k == slots[n];
      WithSlots(table, slots[..n], values[..n])[slots[n] := values[n]]
  }

  /** The pointer array for the given slots. */
  ghost function SlotBytes(slots: seq<u32>): (b: Bytes)
    ensures |b| == 4 * |slots|
  {
    if slots == [] then [] else SlotBytes(slots[..|slots| - 1]) + U32Bytes(slots[|slots| - 1])
  }

  lemma SlotBytesGrow(slots: seq<u32>, add: u32, rest: Bytes)
    requires |rest| >= 4
    ensures Splice(SlotBytes(slots) + rest, 4 * |slots|, U32Bytes(add)) == SlotBytes(slots + [add]) + rest[4..]
  {
    assert (slots + [add])[..|slots|] == slots;
  }

  /** The slots of an array do not overlap: the i-th four octets are the i-th index. */
  lemma {:induction false} SlotAt(slots: seq<u32>, i: nat)
    requires i < |slots|
    ensures U32Value(SlotBytes(slots)[4 * i..4 * i + 4]) == slots[i]
  {
    var n := |slots| - 1;
    U32RoundTrip(slots[n]);
    if i == n {
      assert SlotBytes(slots)[4 * i..4 * i + 4] == U32Bytes(slots[n]);
    } else {
      SlotAt(slots[..n], i);
      assert SlotBytes(slots)[4 * i..4 * i + 4] == SlotBytes(slots[..n])[4 * i..4 * i + 4];
    }
  }

  lemma WithSlotsGrow<T>(table: map<u32, T>, slots: seq<u32>, values: seq<T>, add: u32)
    requires |slots| < |values|
    ensures WithSlots(table, slots + [add], values[..|slots| + 1])
            == WithSlots(table, slots, values[..|slots|])[add := values[|slots|]]
  {
    assert (slots + [add])[..|slots|] == slots;
    assert values[..|slots| + 1][..|slots|] == values[..|slots|];
  }

  lemma FreshSlotsGrow<T>(slots: seq<u32>, table: map<u32, T>, values: seq<T>, add: u32)
    requires |slots| == |values| && FreshSlots(slots, table)
    requires add !in WithSlots(table, slots, values)
    ensures FreshSlots(slots + [add], table)
  {
  }

  lemma {:induction false} WithSlotsLookup<T>(table: map<u32, T>, slots: seq<u32>, values: seq<T>, k: u32)
    requires |slots| == |values| && FreshSlots(slots, table)
    ensures k in table ==> WithSlots(table, slots, values)[k] == table[k]
    ensures forall i :: 0 <= i < |slots| && slots[i] == k ==> WithSlots(table, slots, values)[k] == values[i]
  {
    if slots != [] {
      var n := |slots| - 1;
      WithSlotsLookup(table, slots[..n], values[..n], k);
      assert k in table ==> k != slots[n];
      forall i | 0 <= i < n && slots[i] == k ensures WithSlots(table, slots, values)[k] == values[i] {
        assert slots[..n][i] == k && values[..n][i] == values[i];
      }
    }
  }

  /** Taking fresh slots out again restores the table. */
  lemma WithoutSlots<T>(table: map<u32, T>, slots: seq<u32>, values: seq<T>)
    requires |slots| == |values| && FreshSlots(slots, table)
    ensures WithSlots(table, slots, values) - SlotSet(slots) == table
  {
    var t := WithSlots(table, slots, values) - SlotSet(slots);
    forall k ensures k in t <==> k in table {
      assert k in table ==> k !in slots;
    }
    forall k | k in table ensures t[k] == table[k] {
      WithSlotsLookup(table, slots, values, k);
    }
  }

  lemma RemoveNext<T>(table: map<u32, T>, slots: seq<u32>, i: nat)
    requires i < |slots|
    ensures (table - SlotSet(slots[..i])) - {slots[i]} == table - SlotSet(slots[..i + 1])
  {
    assert slots[..i + 1] == slots[..i] + [slots[i]];
    assert SlotSet(slots[..i + 1]) == SlotSet(slots[..i]) + {slots[i]};
  }

  /** A table that holds the first n slots holds at least n. */
  lemma {:induction false} FilledTable<T>(table: map<u32, T>, n: nat)
    requires n <= MAX_TABLE_SLOTS && forall k: u32 :: k < n ==> k in table
    ensures n <= |table|
  {
    if n > 0 {
      var last: u32 := n - 1;
      FilledTable(table - {last}, n - 1);
      assert |table - {last}| == |table| - 1;
    }
  }

  method FirstFree<T>(table: map<u32, T>) returns (idx: u32)
    requires |table| < MAX_TABLE_SLOTS
    ensures idx !in table
  {
    var i := 0;
    while i in table
      invariant 0 <= i < MAX_TABLE_SLOTS && forall k: u32 :: k < i ==> k in table
      decreases MAX_TABLE_SLOTS - i
    {
      FilledTable(table, i + 1);
      i := i + 1;
    }
    idx := i;
  }

  /** The buffer of a WebAssembly memory. Growing the memory detaches it and makes another. */
  class Buffer {
    const bytes: array<byte>
    var detached: bool

    constructor (bytes: array<byte>)
      ensures this.bytes == bytes && !detached
    {
      this.bytes, detached := bytes, false;
    }

    function ByteLength(): nat
      reads this
    {
      if detached then 0 else bytes.Length
    }

    /** `view[at] = value`: a store outside the view, or into a detached one, is silently dropped. */
    method Store(at: nat, value: byte)
      modifies bytes
      ensures forall i :: 0 <= i < bytes.Length ==>
                bytes[i] == if i == at && at < ByteLength() then value else old(bytes[i])
    {
      if at < ByteLength() {
        bytes[at] := value;
      }
    }

    /** `view.set(data, at)`, which throws on what does not fit. */
    method Set(at: nat, data: Bytes)
      requires at + |data| <= ByteLength()
      modifies bytes
      ensures forall i :: 0 <= i < bytes.Length ==>
                bytes[i] == if at <= i < at + |data| then data[i - at] else old(bytes[i])
    {
      forall i | 0 <= i < |data| {
        bytes[at + i] := data[i];
      }
    }

    /** `dataView.getUint32(at, true)`, which throws outside the buffer. */
    function GetUint32(at: nat): u32
      requires at + 4 <= ByteLength()
      reads this, bytes
    {
      U32Value(bytes[at..at + 4])
    }
  }

  /** The state of the module: the memory, its cached views, the table, and the length register. */
  class Glue<T> {
    /** `TextEncoder.encodeInto` exists. */
    const hasEncodeInto: bool
    /** `ArrayBuffer.detached` exists. */
    const reportsDetached: bool
    /** `wasm.memory.buffer` */
    var buffer: Buffer
    /** The live allocations of the module and their contents. */
    ghost var heap: map<nat, Bytes>
    /** `cachedUint8ArrayMemory0` */
    var uint8View: Buffer?
    /** `cachedDataViewMemory0` */
    var dataView: Buffer?
    /** `wasm.__wbindgen_export_2` */
    var table: map<u32, T>
    /** `WASM_VECTOR_LEN` */
    var vectorLen: nat

    constructor (memory: Buffer, hasEncodeInto: bool, reportsDetached: bool)
      requires !memory.detached
      ensures Valid() && buffer == memory && heap == map[] && table == map[]
      ensures uint8View == null && dataView == null
    {
      this.hasEncodeInto, this.reportsDetached := hasEncodeInto, reportsDetached;
      buffer, heap, uint8View, dataView, table, vectorLen := memory, map[], null, null, map[], 0;
    }

    /** A cached view is over the current buffer or detached; live blocks lie apart inside the buffer. */
    ghost predicate Valid()
      reads this, buffer, buffer.bytes, uint8View, dataView
    {
      && !buffer.detached
      && (uint8View != null && uint8View != buffer ==> uint8View.detached)
      && (dataView != null && dataView != buffer ==> dataView.detached)
      && Holding(heap, buffer.bytes[..])
    }

    twostate predicate BufferKeptOrReplaced()
      reads this, buffer
    {
      buffer == old(buffer) || (fresh(buffer) && fresh(buffer.bytes))
    }

    // ----- the allocator of the module -----

    /** Puts a block at the end of a memory that grows for it. */
    method Append(contents: Bytes) returns (ptr: nat)
      requires Valid() && contents != []
      modifies this`buffer, this`heap, buffer`detached
      ensures Valid() && BufferKeptOrReplaced()
      ensures ptr !in old(heap) && heap == old(heap)[ptr := contents]
      ensures ptr + |contents| <= buffer.bytes.Length
    {
      ptr := buffer.bytes.Length;
      HoldingAppended(heap, buffer.bytes[..], contents);
      var all := buffer.bytes[..] + contents;
      var bytes := new byte[|all|](i requires 0 <= i < |all| => all[i]);
      var grown := new Buffer(bytes);
      buffer.detached := true;
      buffer := grown;
      heap := heap[ptr := contents];
      assert buffer.bytes[..] == all;
    }

    /** `__wbindgen_malloc`: a block apart from all live ones, whose contents stay; the memory may grow. */
    method Malloc(size: nat) returns (ptr: nat)
      requires Valid()
      modifies this`buffer, this`heap, buffer`detached
      ensures Valid() && BufferKeptOrReplaced()
      ensures ptr + size <= buffer.bytes.Length
      ensures size == 0 ==> heap == old(heap)
      ensures size > 0 ==>
                ptr !in old(heap) && ptr in heap && |heap[ptr]| == size && heap == old(heap)[ptr := heap[ptr]]
    {
      if size == 0 {
        return 0;
      }
      ptr := Append(seq(size, _ => 0));
    }

    /** `__wbindgen_free`: the caller must name the exact size of a live block. */
    method Free(ptr: nat, size: nat)
      requires Valid() && ptr in heap && |heap[ptr]| == size
      modifies this`heap
      ensures Valid() && heap == old(heap) - {ptr}
    {
      heap := heap - {ptr};
    }

    /** `__wbindgen_realloc`: the caller must name the exact size of a live block, which may move. */
    method Realloc(ptr: nat, oldSize: nat, newSize: nat) returns (moved: nat)
      requires Valid() && newSize > 0 && ptr in heap && |heap[ptr]| == oldSize
      modifies this`buffer, this`heap, buffer`detached
      ensures Valid() && BufferKeptOrReplaced()
      ensures moved !in old(heap) - {ptr} && moved in heap
      ensures heap == (old(heap) - {ptr})[moved := heap[moved]]
      ensures |heap[moved]| == newSize
      ensures heap[moved][..Min(oldSize, newSize)] == old(heap[ptr])[..Min(oldSize, newSize)]
    {
      var kept := Min(oldSize, newSize);
      var contents: Bytes := buffer.bytes[ptr..ptr + kept] + seq(newSize - kept, _ => 0);
      assert contents[..kept] == heap[ptr][..kept];
      moved := Append(contents);
      Free(ptr, oldSize);
    }

    // ----- the cached views -----

    /** `getUint8ArrayMemory0`: the view is made again when the cached one has length zero. */
    method GetUint8View() returns (view: Buffer)
      requires Valid()
      modifies this`uint8View
      ensures Valid() && view == buffer
    {
      if uint8View == null || uint8View.ByteLength() == 0 {
        uint8View := buffer;
      }
      view := uint8View;
    }

    /** `getDataViewMemory0`, with the test for engines that do not report detached buffers. */
    method GetDataView() returns (view: Buffer)
      requires Valid()
      modifies this`dataView
      ensures Valid() && view == buffer
    {
      if dataView == null || (reportsDetached && dataView.detached) || (!reportsDetached && dataView != buffer) {
        dataView := buffer;
      }
      view := dataView;
    }

    // ----- writing through a view that is over the current buffer -----

    method StoreInBlock(view: Buffer, ptr: nat, at: nat, value: byte)
      requires Valid() && view == buffer && ptr in heap && at < |heap[ptr]|
      modifies this`heap, view.bytes
      ensures Valid() && heap == old(heap)[ptr := Splice(old(heap)[ptr], at, [value])]
    {
      ghost var before := view.bytes[..];
      view.Store(ptr + at, value);
      WriteStaysInside(heap, before, view.bytes[..], ptr, at, [value]);
      heap := heap[ptr := Splice(heap[ptr], at, [value])];
    }

    method SetInBlock(view: Buffer, ptr: nat, at: nat, data: Bytes)
      requires Valid() && view == buffer && ptr in heap && at + |data| <= |heap[ptr]|
      modifies this`heap, view.bytes
      ensures Valid() && heap == old(heap)[ptr := Splice(old(heap)[ptr], at, data)]
    {
      ghost var before := view.bytes[..];
      view.Set(ptr + at, data);
      WriteStaysInside(heap, before, view.bytes[..], ptr, at, data);
      heap := heap[ptr := Splice(heap[ptr], at, data)];
    }

    // ----- strings -----

    /** The loop over the leading ASCII code units, each stored as it is. */
    method CopyAscii(arg: Units, view: Buffer, ptr: nat) returns (offset: nat, ghost contents: Bytes)
      requires Valid() && view == buffer && ptr in heap && |heap[ptr]| == |arg|
      modifies this`heap, view.bytes
      ensures Valid() && heap == old(heap)[ptr := contents] && |contents| == |arg|
      ensures offset <= |arg| && IsAscii(arg[..offset])
      ensures offset < |arg| ==> arg[offset] > 0x7F
      ensures contents[..offset] == AsciiBytes(arg[..offset])
    {
      offset, contents := 0, heap[ptr];
      while offset < |arg|
        invariant Valid() && heap == old(heap)[ptr := contents] && |contents| == |arg|
        invariant offset <= |arg| && IsAscii(arg[..offset])
        invariant contents[..offset] == AsciiBytes(arg[..offset])
      {
        var code := arg[offset];
        if code > 0x7F {
          break;
        }
        StoreInBlock(view, ptr, offset, code);
        AsciiBytesGrows(arg, offset);
        contents := Splice(contents, offset, [code]);
        offset := offset + 1;
      }
    }

    /** `encodeString`: through `encodeInto`, or through `encode` and `set` where that is missing. */
    method EncodeString(arg: Units, view: Buffer, ptr: nat, start: nat, end: nat) returns (written: nat)
      requires Valid() && view == buffer && ptr in heap && start + |Encode(arg)| <= end == |heap[ptr]|
      modifies this`heap, view.bytes
      ensures Valid() && written == |Encode(arg)|
      ensures heap == old(heap)[ptr := Splice(old(heap)[ptr], start, Encode(arg))]
    {
      FittingIsAll(arg, end - start);
      var octets := if hasEncodeInto then Fitting(arg, end - start).1 else Encode(arg);
      SetInBlock(view, ptr, start, octets);
      written := |octets|;
    }

    /** The one-shot path, for callers without `realloc`. */
    method PassWhole(arg: Units) returns (ptr: nat, len: nat)
      requires Valid()
      modifies this`buffer, this`heap, this`uint8View, buffer`detached, buffer.bytes
      ensures Valid() && BufferKeptOrReplaced() && len == |Encode(arg)|
      ensures AddsBlock(ptr, Encode(arg))
    {
      var octets := Encode(arg);
      len := |octets|;
      ptr := Malloc(len);
      var view := GetUint8View();
      if octets != [] {
        ghost var junk := heap[ptr];
        SetInBlock(view, ptr, 0, octets);
        SpliceWhole(junk, octets);
        OverwriteTwice(old(heap), ptr, junk, octets);
      }
    }

    /** The live blocks are the old ones, untouched, and one with the given octets unless there are none. */
    twostate predicate AddsBlock(ptr: nat, octets: Bytes)
      reads this
    {
      if octets == [] then heap == old(heap)
      else ptr !in old(heap) && heap == old(heap)[ptr := octets]
    }

    /** Encodes the rest of a string behind its ASCII prefix in a block with room for it. */
    method EncodeRest(arg: Units, roomy: nat, len: nat, offset: nat, ghost start: Bytes) returns (total: nat)
      requires Valid() && roomy in heap && |heap[roomy]| == len
      requires offset <= |arg| == |start| <= len && IsAscii(arg[..offset])
      requires start[..offset] == AsciiBytes(arg[..offset]) && heap[roomy][..|arg|] == start
      requires offset + |Encode(arg[offset..])| <= len
      modifies this`heap, this`uint8View, buffer.bytes
      ensures Valid() && roomy in heap && |heap[roomy]| == len && heap == old(heap)[roomy := heap[roomy]]
      ensures total == |Encode(arg)| <= len && heap[roomy][..total] == Encode(arg)
    {
      PrefixAndRest(arg, offset, start, heap[roomy]);
      var view := GetUint8View();
      var written := EncodeString(arg[offset..], view, roomy, offset, len);
      total := offset + written;
    }

    /** Grows the block of an ASCII prefix and encodes the rest behind the prefix. */
    method GrowAndEncode(arg: Units, start: nat, offset: nat) returns (roomy: nat, len: nat, total: nat)
      requires Valid() && offset < |arg| && IsAscii(arg[..offset])
      requires start in heap && |heap[start]| == |arg| && heap[start][..offset] == AsciiBytes(arg[..offset])
      modifies this`buffer, this`heap, this`uint8View, buffer`detached, buffer.bytes
      ensures Valid() && BufferKeptOrReplaced()
      ensures roomy !in old(heap) - {start} && roomy in heap && |heap[roomy]| == len
      ensures heap == (old(heap) - {start})[roomy := heap[roomy]]
      ensures total == |Encode(arg)| <= len && heap[roomy][..total] == Encode(arg)
    {
      EncodeFitsThreePerUnit(arg[offset..]);
      len := offset + |arg[offset..]| * 3;
      roomy := Realloc(start, |arg|, len);
      ghost var before := heap[roomy];
      assert before[..|arg|] == old(heap)[start];
      total := EncodeRest(arg, roomy, len, offset, old(heap)[start]);
      OverwriteTwice(old(heap) - {start}, roomy, before, heap[roomy]);
    }

    /** The path for a string that is not all ASCII: grow the block, encode the rest, give back what is left. */
    method PassRest(arg: Units, start: nat, offset: nat) returns (ptr: nat, total: nat)
      requires Valid() && offset < |arg| && IsAscii(arg[..offset])
      requires start in heap && |heap[start]| == |arg| && heap[start][..offset] == AsciiBytes(arg[..offset])
      modifies this`buffer, this`heap, this`uint8View, buffer`detached, buffer.bytes
      ensures Valid() && BufferKeptOrReplaced()
      ensures total == |Encode(arg)| && ptr !in old(heap) - {start}
      ensures heap == (old(heap) - {start})[ptr := Encode(arg)]
    {
      EncodeIsNotEmpty(arg);
      var roomy, len, written := GrowAndEncode(arg, start, offset);
      total := written;
      ghost var grown := heap[roomy];
      ptr := Realloc(roomy, len, total);
      RemoveAdded(old(heap) - {start}, roomy, grown);
      assert heap[ptr] == heap[ptr][..total];
    }

    /** A new block with the leading ASCII code units in front. */
    method CopyStart(arg: Units) returns (start: nat, offset: nat, ghost contents: Bytes)
      requires Valid() && arg != []
      modifies this`buffer, this`heap, this`uint8View, buffer`detached, buffer.bytes
      ensures Valid() && BufferKeptOrReplaced()
      ensures start !in old(heap) && heap == old(heap)[start := contents] && |contents| == |arg|
      ensures offset <= |arg| && IsAscii(arg[..offset]) && contents[..offset] == AsciiBytes(arg[..offset])
    {
      start := Malloc(|arg|);
      ghost var junk := heap[start];
      var mem := GetUint8View();
      offset, contents := CopyAscii(arg, mem, start);
      OverwriteTwice(old(heap), start, junk, contents);
    }

    /** The two-step path: copy the ASCII prefix, and if that is not all, grow and encode the rest. */
    method PassInTwoSteps(arg: Units) returns (ptr: nat, len: nat)
      requires Valid() && arg != []
      modifies this`buffer, this`heap, this`uint8View, buffer`detached, buffer.bytes
      ensures Valid() && BufferKeptOrReplaced() && len == |Encode(arg)|
      ensures AddsBlock(ptr, Encode(arg))
    {
      EncodeIsNotEmpty(arg);
      var start, offset, contents := CopyStart(arg);
      if offset != |arg| {
        RemoveAdded(old(heap), start, contents);
        ptr, len := PassRest(arg, start, offset);
      } else {
        AllAscii(arg, contents);
        ptr, len := start, offset;
      }
    }

    /**
     * `passStringToWasm0`: a new live block holds exactly the UTF-8 octets of the string, the length
     * register holds their number, and no other block changes; with or without `realloc`.
     */
    method PassString(arg: Units, hasRealloc: bool) returns (ptr: nat)
      requires Valid()
      modifies this`buffer, this`heap, this`uint8View, this`vectorLen, buffer`detached, buffer.bytes
      ensures Valid() && BufferKeptOrReplaced()
      ensures vectorLen == |Encode(arg)|
      ensures AddsBlock(ptr, Encode(arg))
    {
      var len;
      if !hasRealloc {
        ptr, len := PassWhole(arg);
      } else if |arg| == 0 {
        // malloc(0), no loop turn, no realloc
        ptr := Malloc(0);
        len := 0;
      } else {
        ptr, len := PassInTwoSteps(arg);
      }
      label Passed:
      vectorLen := len;
      assert buffer.bytes[..] == old@Passed(buffer.bytes[..]);
    }

    /** `getStringFromWasm0`, for any place in the memory; None where the fatal decoder throws. */
    method GetString(ptr: nat, len: nat) returns (r: Option<seq<Scalar>>)
      requires Valid()
      modifies this`uint8View
      ensures Valid() && r == Decode(Subarray(buffer.bytes[..], ptr, ptr + len))
      ensures ptr in heap && |heap[ptr]| == len ==> r == Decode(heap[ptr])
      ensures len == 0 ==> r == Some([])
    {
      var view := GetUint8View();
      var octets := Subarray(view.bytes[..], ptr, ptr + len);
      assert ptr in heap && |heap[ptr]| == len ==> octets == heap[ptr];
      r := Decode(octets);
    }

    /** Passing a string and reading it back gives the string, if and only if it holds no lone surrogate. */
    method StringThereAndBack(arg: Units, hasRealloc: bool) returns (result: Units)
      requires Valid()
      modifies this`buffer, this`heap, this`uint8View, this`vectorLen, buffer`detached, buffer.bytes
      ensures Valid() && (result == arg <==> NoLoneSurrogate(arg)) && |result| == |arg|
    {
      var ptr := PassString(arg, hasRealloc);
      var scalars := GetString(ptr, vectorLen);
      StringSurvivesIff(arg);
      assert Decode([]) == Some([]);
      result := ToUnits(scalars.value);
    }

    // ----- arrays of JavaScript values -----

    /** `__externref_table_alloc`: a slot that is not live. It may grow the memory. */
    method AllocSlot() returns (idx: u32)
      requires Valid() && |table| < MAX_TABLE_SLOTS
      modifies this`buffer, buffer`detached
      ensures Valid() && BufferKeptOrReplaced()
      ensures idx !in table
    {
      idx := FirstFree(table);
    }

    /** `addToExternrefTable0` */
    method AddToTable(obj: T) returns (idx: u32)
      requires Valid() && |table| < MAX_TABLE_SLOTS
      modifies this`buffer, this`table, buffer`detached
      ensures Valid() && BufferKeptOrReplaced()
      ensures idx !in old(table) && table == old(table)[idx := obj]
    {
      idx := AllocSlot();
      table := table[idx := obj];
    }

    /** One turn of the loop: a slot for the value, and its index behind those already listed. */
    method PassValue(ptr: nat, value: T, ghost slots: seq<u32>, ghost rest: Bytes, at: nat) returns (ghost add: u32)
      requires Valid() && |table| < MAX_TABLE_SLOTS && at == |slots| * 4 && |rest| >= 4
      requires ptr in heap && heap[ptr] == SlotBytes(slots) + rest
      modifies this`buffer, this`heap, this`table, this`dataView, buffer`detached, buffer.bytes
      ensures Valid() && BufferKeptOrReplaced()
      ensures add !in old(table) && table == old(table)[add := value]
      ensures heap == old(heap)[ptr := SlotBytes(slots + [add]) + rest[4..]]
    {
      var idx := AddToTable(value);
      var view := GetDataView();
      SetInBlock(view, ptr, at, U32Bytes(idx));
      SlotBytesGrow(slots, idx, rest);
      add := idx;
    }

    /** The loop of `passArrayJsValueToWasm0`. */
    method ListValues(ptr: nat, values: seq<T>) returns (ghost slots: seq<u32>)
      requires Valid() && |table| + |values| <= MAX_TABLE_SLOTS
      requires ptr in heap && |heap[ptr]| == 4 * |values|
      modifies this`buffer, this`heap, this`table, this`dataView, buffer`detached, buffer.bytes
      ensures Valid() && BufferKeptOrReplaced()
      ensures FreshSlots(slots, old(table)) && |slots| == |values|
      ensures table == WithSlots(old(table), slots, values)
      ensures heap == old(heap)[ptr := SlotBytes(slots)]
    {
      slots := [];
      ghost var rest := heap[ptr];
      var i := 0;
      assert SlotBytes(slots) + rest == rest;
      while i < |values|
        invariant 0 <= i <= |values| && |slots| == i && |rest| == (|values| - i) * 4
        invariant Valid() && BufferKeptOrReplaced()
        invariant FreshSlots(slots, old(table)) && table == WithSlots(old(table), slots, values[..i])
        invariant |table| == |old(table)| + i
        invariant heap == old(heap)[ptr := SlotBytes(slots) + rest]
      {
        ghost var listed := SlotBytes(slots) + rest;
        ghost var add := PassValue(ptr, values[i], slots, rest, 4 * i);
        OverwriteTwice(old(heap), ptr, listed, SlotBytes(slots + [add]) + rest[4..]);
        WithSlotsGrow(old(table), slots, values, add);
        FreshSlotsGrow(slots, old(table), values[..i], add);
        slots, rest := slots + [add], rest[4..];
        i := i + 1;
      }
      assert values[..i] == values;
      assert SlotBytes(slots) + rest == SlotBytes(slots);
    }

    /**
     * `passArrayJsValueToWasm0`: a new block lists one fresh table slot for each value, least
     * significant octet first, and the table gains exactly these slots.
     */
    method PassArray(values: seq<T>) returns (ptr: nat, ghost slots: seq<u32>)
      requires Valid() && |table| + |values| <= MAX_TABLE_SLOTS
      modifies this`buffer, this`heap, this`table, this`dataView, this`vectorLen, buffer`detached, buffer.bytes
      ensures Valid() && BufferKeptOrReplaced() && vectorLen == |values|
      ensures FreshSlots(slots, old(table)) && |slots| == |values|
      ensures table == WithSlots(old(table), slots, values)
      ensures AddsBlock(ptr, SlotBytes(slots))
    {
      ghost var others := heap;
      ptr := Malloc(|values| * 4);
      slots := [];
      if |values| > 0 {
        ghost var junk := heap[ptr];
        slots := ListValues(ptr, values);
        OverwriteTwice(others, ptr, junk, SlotBytes(slots));
      }
      label Listed:
      vectorLen := |values|;
      assert buffer.bytes[..] == old@Listed(buffer.bytes[..]);
    }

    /** A pointer array in a block, as `getArrayJsValueFromWasm0` is given one. */
    ghost predicate HoldsSlots(ptr: nat, slots: seq<u32>)
      reads this
    {
      && (slots != [] ==> ptr in heap && heap[ptr] == SlotBytes(slots))
      && Distinct(slots) && forall i :: 0 <= i < |slots| ==> slots[i] in table
    }

    lemma ReadsSlot(ptr: nat, slots: seq<u32>, i: nat)
      requires Valid() && HoldsSlots(ptr, slots) && i < |slots|
      ensures ptr + 4 * i + 4 <= buffer.ByteLength() && buffer.GetUint32(ptr + 4 * i) == slots[i]
    {
      SlotAt(slots, i);
      assert buffer.bytes[ptr + 4 * i..ptr + 4 * i + 4] == heap[ptr][4 * i..4 * i + 4];
    }

    /** `__externref_drop_slice`: every slot of the slice must be live, and is released once. */
    method DropSlice(ghost slots: seq<u32>, ptr: nat, len: nat)
      requires Valid() && len == |slots| && HoldsSlots(ptr, slots)
      modifies this`table
      ensures Valid() && table == old(table) - SlotSet(slots)
    {
      forall i | 0 <= i < len
        ensures ptr + 4 * i + 4 <= buffer.ByteLength() && buffer.GetUint32(ptr + 4 * i) == slots[i]
        ensures (table - SlotSet(slots[..i])) - {slots[i]} == table - SlotSet(slots[..i + 1])
      {
        ReadsSlot(ptr, slots, i);
        RemoveNext(table, slots, i);
      }
      var kept := table;
      var i := 0;
      assert SlotSet(slots[..0]) == {};
      while i < len
        invariant 0 <= i <= len
        invariant kept == table - SlotSet(slots[..i])
      {
        kept := kept - {buffer.GetUint32(ptr + 4 * i)};
        i := i + 1;
      }
      assert slots[..i] == slots;
      table := kept;
    }

    /** `getArrayJsValueFromWasm0`: the values of the listed slots, in order; the slots are released. */
    method GetArray(ghost slots: seq<u32>, ptr: nat, len: nat) returns (result: seq<T>)
      requires Valid() && len == |slots| && HoldsSlots(ptr, slots)
      modifies this`table, this`dataView
      ensures Valid() && |result| == |slots|
      ensures forall i :: 0 <= i < |slots| ==> slots[i] in old(table) && result[i] == old(table)[slots[i]]
      ensures table == old(table) - SlotSet(slots)
    {
      var mem := GetDataView();
      forall i | 0 <= i < len
        ensures ptr + 4 * i + 4 <= buffer.ByteLength() && buffer.GetUint32(ptr + 4 * i) == slots[i]
      {
        ReadsSlot(ptr, slots, i);
      }
      result := [];
      var i := 0;
      while i < len
        invariant 0 <= i <= len && |result| == i
        invariant forall k :: 0 <= k < i ==> result[k] == table[slots[k]]
      {
        result := result + [table[mem.GetUint32(ptr + 4 * i)]];
        i := i + 1;
      }
      DropSlice(slots, ptr, len);
    }

    /** Passing an array and reading it back gives the array, and leaves the table as it was. */
    method ArrayThereAndBack(values: seq<T>) returns (result: seq<T>)
      requires Valid() && |table| + |values| <= MAX_TABLE_SLOTS
      modifies this`buffer, this`heap, this`table, this`dataView, this`vectorLen, buffer`detached, buffer.bytes
      ensures Valid() && result == values && table == old(table)
    {
      ghost var before := table;
      var ptr, slots := PassArray(values);
      WithoutSlots(before, slots, values);
      forall i | 0 <= i < |slots| ensures slots[i] in slots && table[slots[i]] == values[i] {
        WithSlotsLookup(before, slots, values, slots[i]);
      }
      result := GetArray(slots, ptr, |values|);
    }
  }
}
