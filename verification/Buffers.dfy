/**
 The growable tagged buffer (`pBuffer`, pack.hpp): append with doubling, regions reserved under a tag and
 patched later through the stored offset. `Buf` is its abstract value, and the run lemmas say what any
 sequence of appends amounts to.
 */
module Buffers {
  import opened Core
  import opened Bytes
  import opened Params

  /** Logical size, bytes written so far, bytes copied by growing, and the length of the memory behind it. */
  datatype Buf = Buf(size: nat, bytes: string, copied: nat, memory: nat)

  /** The append stays inside the memory it may write. The buffer doubles once, whatever is asked for. */
  predicate Fits(b: Buf, src: string) {
    |b.bytes| + |src| <= 2 * b.size
  }

  function Appended(b: Buf, src: string): Buf {
    if |b.bytes| + |src| > b.size then Buf(2 * b.size, b.bytes + src, b.copied + b.size, 2 * b.size)
    else b.(bytes := b.bytes + src)
  }

  const FOUR_INTS: seq<SlotType> := [Int, Int, Int, Int]

  class PBuffer {
    var size: nat
    var next: nat
    var reservedIndex: nat
    var data: array<char>
    var param: Param
    ghost var copied: nat

    ghost predicate Valid()
      reads this, param, param.allocMap, param.pArgs
    {
      next <= size <= data.Length && reservedIndex <= 4 && data != param.P &&
      param.Valid() && param.types == FOUR_INTS &&
      forall name :: name in param.aMap ==> BoundBefore(param.aMap[name], reservedIndex)
    }

    ghost function Abs(): Buf
      reads this, data
      requires next <= data.Length
    {
      Buf(size, data[..next], copied, data.Length)
    }

    constructor (size: nat)
      ensures Valid() && Abs() == Buf(size, "", 0, size) && reservedIndex == 0 && param.aMap == map[]
      ensures fresh(data) && fresh(param) && fresh(param.P) && fresh(param.allocMap) && fresh(param.pArgs)
    {
      this.size := size;
      next := 0;
      reservedIndex := 0;
      copied := 0;
      data := new char[size];
      param := new Param(FOUR_INTS);
    }

    /** `init_record`: forgets what was written, keeps the memory. */
    method InitRecord()
      requires Valid()
      modifies `next
      ensures Valid() && Abs() == old(Abs()).(bytes := "")
    {
      next := 0;
    }

    /** `nsrc`: takes `n` bytes from the front as written; the logical size is overwritten, the memory is not. */
    method Nsrc(n: nat)
      requires Valid() && n <= data.Length
      modifies `size, `next
      ensures Valid() && data == old(data) && Abs() == old(Abs()).(size := n, bytes := data[..n])
    {
      size := n;
      next := n;
    }

    /** The growing half of `allocate_some`: twice the logical size, the contents copied over, and memory of
        just that length, which may be less than there was. */
    method Grow()
      requires Valid()
      modifies `size, `data, `copied
      ensures Valid() && fresh(data) && data.Length == size == 2 * old(size) && copied == old(copied) + old(size)
      ensures data[..next] == old(data[..next])
    {
      hide Overwrite, Param.Valid;
      var newAddress := new char[size * 2];
      ghost var blank := newAddress[..];
      Memcpy(newAddress, 0, data[..size]);
      OverwriteFront(blank, 0, data[..size]);
      PrefixOfCopy(newAddress[..], data[..], size, next);
      copied := copied + size;
      size := size * 2;
      data := newAddress;
    }

    /** `allocate_some`: appends, doubling first when the logical size is exceeded. */
    method AllocateSome(src: string)
      requires Valid() && Fits(Abs(), src)
      modifies this, data
      ensures Valid() && Abs() == Appended(old(Abs()), src)
      ensures param == old(param) && reservedIndex == old(reservedIndex) && (data == old(data) || fresh(data))
    {
      hide Overwrite, Param.Valid;
      if next + |src| > size {
        Grow();
      }
      ghost var all := data[..];
      assert all[..next] == old(data[..next]);
      Memcpy(data, next, src);
      OverwriteFront(all, next, src);
      next := next + |src|;
    }

    /** `reserve_with_tag`: skips `n` bytes and remembers where they start. It never grows the buffer, and
        there are four slots to remember in. */
    method ReserveWithTag(n: nat, tag: string)
      requires Valid() && next + n <= size && reservedIndex < 4
      modifies `next, `reservedIndex, param`aMap, param.P
      ensures Valid() && size == old(size) && copied == old(copied) && data == old(data) && data[..] == old(data[..])
      ensures next == old(next) + n && reservedIndex == old(reservedIndex) + 1
      ensures param.aMap == if tag in old(param.aMap) then old(param.aMap)
                            else old(param.aMap)[tag := Offset(FOUR_INTS, old(reservedIndex))]
      ensures param.aMap[tag] + 4 <= param.P.Length
      ensures param.P[..] == Overwrite(old(param.P[..]), param.aMap[tag], LittleEndian(old(next), 4))
      ensures tag !in old(param.aMap) ==>
                forall name :: name in old(param.aMap) ==> SameSlot(param.P[..], old(param.P[..]), param.aMap[name])
    {
      hide Overwrite, LittleEndian, Offset, Param.Valid, SameSlot;
      FourSlots(param);
      ghost var bound, block := param.aMap, param.P[..];
      param.SetArgs(reservedIndex, tag);
      FourSlots(param);
      if tag !in bound {
        ReservedApart(block, bound, reservedIndex, next);
      }
      param.SetInt(tag, next);
      next := next + n;
      reservedIndex := reservedIndex + 1;
    }

    /** `get_src_reserved_with_tag`, as an offset into the data. */
    function ReservedOffset(tag: string): int
      requires tag in param.aMap && param.aMap[tag] < param.P.Length
      reads this, param, param.P
    {
      param.GetInt(tag)
    }

    /** `allocate_with_tag`: writes over the reserved region. */
    method AllocateWithTag(tag: string, src: string)
      requires Valid() && tag in param.aMap && param.aMap[tag] < param.P.Length
      requires 0 <= ReservedOffset(tag) && ReservedOffset(tag) + |src| <= next
      modifies data
      ensures Valid() && Abs() == old(Abs()).(bytes := Overwrite(old(Abs()).bytes, ReservedOffset(tag), src))
      ensures ReservedOffset(tag) == old(ReservedOffset(tag))
    {
      ghost var all := data[..];
      Memcpy(data, ReservedOffset(tag), src);
      assert data[..next] == Overwrite(all, ReservedOffset(tag), src)[..next];
      assert data[..next] == Overwrite(all[..next], ReservedOffset(tag), src);
    }

    function ToString(): string
      requires next <= data.Length
      reads this, data
    {
      data[..next]
    }
  }

  lemma OverwriteFront(all: string, at: nat, src: string)
    requires at + |src| <= |all|
    ensures Overwrite(all, at, src)[..at + |src|] == all[..at] + src
  {
  }

  lemma PrefixOfCopy(copy: string, original: string, size: nat, n: nat)
    requires n <= size <= |copy| && size <= |original| && copy[..size] == original[..size]
    ensures copy[..n] == original[..n]
  {
    assert copy[..n] == copy[..size][..n] == original[..size][..n];
  }

  lemma FourSlots(p: Param)
    requires p.Valid() && p.types == FOUR_INTS
    ensures p.pNum == 4 && p.P.Length == Offset(FOUR_INTS, 4)
    ensures forall name :: name in p.aMap ==> p.aMap[name] + 4 <= p.P.Length
  {
    forall name | name in p.aMap ensures p.aMap[name] + 4 <= p.P.Length {
      var i :| 0 <= i < 4 && p.aMap[name] == Offset(FOUR_INTS, i);
      OffsetsGrow(FOUR_INTS, i, 4);
    }
  }

  /** Reserving under a further tag: its slot holds the new offset, and the slots of all tags bound before
      it keep their bytes, so every earlier region is still found where it was. */
  lemma ReservedApart(block: string, aMap: map<string, nat>, slot: nat, offset: nat)
    requires slot < 4 && |block| == Offset(FOUR_INTS, 4)
    requires forall name :: name in aMap ==> BoundBefore(aMap[name], slot)
    ensures Offset(FOUR_INTS, slot) + 4 <= |block|
    ensures var after := Overwrite(block, Offset(FOUR_INTS, slot), LittleEndian(offset, 4));
            after[Offset(FOUR_INTS, slot)..Offset(FOUR_INTS, slot) + 4] == LittleEndian(offset, 4) &&
            forall name :: name in aMap ==> SameSlot(after, block, aMap[name])
  {
    hide Overwrite, LittleEndian, Offset, SameSlot, BoundBefore;
    SlotInBlock(slot);
    StoredThere(block, Offset(FOUR_INTS, slot), LittleEndian(offset, 4));
    forall name | name in aMap
      ensures SameSlot(Overwrite(block, Offset(FOUR_INTS, slot), LittleEndian(offset, 4)), block, aMap[name])
    {
      SlotKept(block, slot, offset, aMap[name]);
    }
  }

  /** The start of one of the first `slot` slots. */
  predicate BoundBefore(at: nat, slot: nat)
    requires slot <= 4
  {
    exists i: nat :: i < slot && at == Offset(FOUR_INTS, i)
  }

  predicate SameSlot(after: string, block: string, at: nat) {
    at + 4 <= |block| == |after| && after[at..at + 4] == block[at..at + 4]
  }

  lemma SlotInBlock(slot: nat)
    requires slot < 4
    ensures Offset(FOUR_INTS, slot) + 4 <= Offset(FOUR_INTS, 4)
  {
    OffsetsGrow(FOUR_INTS, slot, 4);
  }

  lemma StoredThere(block: string, at: nat, v: string)
    requires at + |v| <= |block|
    ensures Overwrite(block, at, v)[at..at + |v|] == v
  {
    OverwriteReads(block, at, v, 0, 0);
  }

  lemma SlotKept(block: string, slot: nat, offset: nat, at: nat)
    requires slot < 4 && |block| == Offset(FOUR_INTS, 4) && BoundBefore(at, slot)
    ensures Offset(FOUR_INTS, slot) + 4 <= |block|
    ensures SameSlot(Overwrite(block, Offset(FOUR_INTS, slot), LittleEndian(offset, 4)), block, at)
  {
    hide Overwrite, LittleEndian, Offset;
    SlotInBlock(slot);
    var i: nat :| i < slot && at == Offset(FOUR_INTS, i);
    SlotsAreIndependent(FOUR_INTS, block, slot, LittleEndian(offset, 4), i);
  }

  // ---------- runs of appends ----------

  function AppendedAll(b: Buf, srcs: seq<string>): Buf
    decreases |srcs|
  {
    if srcs == [] then b else AppendedAll(Appended(b, srcs[0]), srcs[1..])
  }

  /** Every append of the run stays in memory. */
  predicate FitsAll(b: Buf, srcs: seq<string>)
    decreases |srcs|
  {
    srcs == [] || (Fits(b, srcs[0]) && FitsAll(Appended(b, srcs[0]), srcs[1..]))
  }

  function Doubled(n: nat, k: nat): nat {
    if k == 0 then n else 2 * Doubled(n, k - 1)
  }

  /** What every run keeps: the size is the first size doubled some number of times, growing has copied
      exactly what the size gained, and once grown less than twice what is written. */
  ghost predicate Amortised(c0: nat, b: Buf) {
    && |b.bytes| <= b.size
    && (exists k: nat :: b.size == Doubled(c0, k))
    && b.copied == b.size - c0
    && (b.copied > 0 ==> b.copied < 2 * |b.bytes|)
  }

  /** The one doubling is enough exactly when the append fits in twice the size. */
  lemma OneDoublingSuffices(b: Buf, src: string)
    requires |b.bytes| <= b.size
    ensures |Appended(b, src).bytes| <= Appended(b, src).size <==> Fits(b, src)
    ensures |src| <= b.size ==> Fits(b, src)
  {
  }

  lemma AppendKeepsAmortised(c0: nat, b: Buf, src: string)
    requires c0 > 0 && Amortised(c0, b) && Fits(b, src)
    ensures Amortised(c0, Appended(b, src))
  {
    var k: nat :| b.size == Doubled(c0, k);
    if |b.bytes| + |src| > b.size {
      assert Doubled(c0, k + 1) == 2 * b.size;
    }
  }

  /** Over every run of appends that stays in memory, the contents are the concatenation of all appended
      bytes, and the amortised bound holds at the end. */
  lemma {:induction false} RunOfAppends(c0: nat, b: Buf, srcs: seq<string>)
    requires c0 > 0 && Amortised(c0, b) && FitsAll(b, srcs)
    ensures var e := AppendedAll(b, srcs); Amortised(c0, e) && e.bytes == b.bytes + Flatten(srcs)
    decreases |srcs|
  {
    if srcs != [] {
      AppendKeepsAmortised(c0, b, srcs[0]);
      RunOfAppends(c0, Appended(b, srcs[0]), srcs[1..]);
      assert b.bytes + srcs[0] + Flatten(srcs[1..]) == b.bytes + (srcs[0] + Flatten(srcs[1..]));
    }
  }

  /** The same from a new buffer: contents, size, and a copying cost below twice the bytes written. */
  lemma RunFromNew(c0: nat, srcs: seq<string>)
    requires c0 > 0 && FitsAll(Buf(c0, "", 0, c0), srcs)
    ensures var e := AppendedAll(Buf(c0, "", 0, c0), srcs);
            e.bytes == Flatten(srcs) && (exists k: nat :: e.size == Doubled(c0, k)) &&
            e.copied == e.size - c0 && (e.size > c0 ==> e.copied < 2 * |e.bytes|)
  {
    assert c0 == Doubled(c0, 0);
    RunOfAppends(c0, Buf(c0, "", 0, c0), srcs);
    assert "" + Flatten(srcs) == Flatten(srcs);
  }

  /** Appends no larger than the size at the time always stay in memory, so they do whenever none is larger
      than the first size. */
  lemma {:induction false} SmallAppendsFit(b: Buf, srcs: seq<string>)
    requires |b.bytes| <= b.size && forall i :: 0 <= i < |srcs| ==> |srcs[i]| <= b.size
    ensures FitsAll(b, srcs)
    decreases |srcs|
  {
    if srcs != [] {
      SmallAppendsFit(Appended(b, srcs[0]), srcs[1..]);
    }
  }

  /** The size that doubling takes a size to, for so many bytes. */
  function GrownTo(size: nat, total: nat): nat
    decreases if size == 0 then 0 else total - size
  {
    if size == 0 || total <= size then size else GrownTo(2 * size, total)
  }

  /** Growing for more bytes than the size leaves room for them, but less than twice as much. */
  lemma {:induction false} GrownBound(size: nat, total: nat)
    requires 0 < size < total
    ensures total <= GrownTo(size, total) < 2 * total
    decreases total - size
  {
    if 2 * size < total {
      GrownBound(2 * size, total);
    }
  }

  /** Where a run of small appends leaves size and memory: the size doubled until the bytes fit, and the memory
      cut or stretched to it if it was doubled at all. */
  lemma {:induction false} SizeAfterRun(b: Buf, srcs: seq<string>)
    requires 0 < b.size && |b.bytes| <= b.size && forall i :: 0 <= i < |srcs| ==> |srcs[i]| <= b.size
    ensures var e, total := AppendedAll(b, srcs), |b.bytes| + |Flatten(srcs)|;
            e.size == GrownTo(b.size, total) && e.memory == if total <= b.size then b.memory else e.size
    decreases |srcs|
  {
    if srcs != [] {
      var b1 := Appended(b, srcs[0]);
      SizeAfterRun(b1, srcs[1..]);
      assert |b.bytes| + |Flatten(srcs)| == |b1.bytes| + |Flatten(srcs[1..])|;
    }
  }

  lemma {:induction false} AppendedAllSplit(b: Buf, xs: seq<string>, ys: seq<string>)
    ensures AppendedAll(b, xs + ys) == AppendedAll(AppendedAll(b, xs), ys)
    ensures FitsAll(b, xs + ys) <==> FitsAll(b, xs) && FitsAll(AppendedAll(b, xs), ys)
    decreases |xs|
  {
    if xs == [] {
      assert xs + ys == ys;
    } else {
      assert (xs + ys)[1..] == xs[1..] + ys;
      AppendedAllSplit(Appended(b, xs[0]), xs[1..], ys);
    }
  }

  /** Back-patching across regrowth: whatever was appended after a region was reserved, and however often
      the buffer grew for it, patching the region by its stored offset leaves the header followed by the
      appended records. */
  lemma BackPatched(before: string, gap: string, header: string, srcs: seq<string>, b: Buf)
    requires |gap| == |header| && b.bytes == before + gap
    ensures var e := AppendedAll(b, srcs);
            |before| + |header| <= |e.bytes| &&
            Overwrite(e.bytes, |before|, header) == before + header + Flatten(srcs)
  {
    var e := AppendedAll(b, srcs);
    ContentsOfRun(b, srcs);
    assert e.bytes == before + gap + Flatten(srcs);
  }

  lemma {:induction false} ContentsOfRun(b: Buf, srcs: seq<string>)
    ensures AppendedAll(b, srcs).bytes == b.bytes + Flatten(srcs)
    decreases |srcs|
  {
    if srcs != [] {
      ContentsOfRun(Appended(b, srcs[0]), srcs[1..]);
      assert b.bytes + srcs[0] + Flatten(srcs[1..]) == b.bytes + (srcs[0] + Flatten(srcs[1..]));
    }
  }

  /** A stored offset leads back to its region exactly when it is at most 127. */
  lemma StoredOffsetIsExact(offset: nat)
    ensures SignedByte(LittleEndian(offset, 4)[0]) == offset <==> offset <= 127
  {
    FirstByteOnly(offset);
  }
}
