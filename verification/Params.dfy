/**
 The typed slot allocator under every buffer (param.h): one block cut into consecutive slots, names bound
 to slots, and values copied in and read back by name.
 */
module Params {
  import opened Bytes

  datatype SlotType = Char | String | Int | Double | CharPointer

  function SizeOf(t: SlotType): nat {
    match t
    case Char => 1
    case String => 100
    case Int => 4
    case Double => 8
    case CharPointer => 8
  }

  /** Where slot `i` starts: after all slots before it. */
  function Offset(types: seq<SlotType>, i: nat): nat
    requires i <= |types|
  {
    if i == 0 then 0 else Offset(types, i - 1) + SizeOf(types[i - 1])
  }

  lemma OffsetSteps(types: seq<SlotType>)
    ensures Offset(types, 0) == 0
    ensures forall i :: 0 <= i < |types| ==> Offset(types, i) + SizeOf(types[i]) == Offset(types, i + 1)
  {
  }

  /** One slot of each type, in the order of the types. */
  lemma OneOfEach()
    ensures var all := [Char, String, Int, Double, CharPointer];
            Offset(all, 0) == 0 && Offset(all, 1) == 1 && Offset(all, 2) == 101 && Offset(all, 3) == 105 &&
            Offset(all, 4) == 113 && Offset(all, 5) == 121
  {
    var all := [Char, String, Int, Double, CharPointer];
    assert Offset(all, 2) == Offset(all, 1) + 100;
    assert Offset(all, 4) == Offset(all, 3) + 8;
  }

  method GetAllSize(arr: seq<SlotType>) returns (total: nat)
    ensures total == Offset(arr, |arr|)
  {
    total := 0;
    var i := 0;
    while i < |arr|
      invariant 0 <= i <= |arr| && total == Offset(arr, i)
    {
      total := total + SizeOf(arr[i]);
      i := i + 1;
    }
  }

  class Param {
    var fAllocated: nat
    var used: nat
    var allocMap: array<nat>
    var pNum: nat
    var aMap: map<string, nat>
    var pArgs: array<nat>
    var P: array<char>
    ghost var types: seq<SlotType>

    ghost predicate Valid()
      reads this, allocMap, pArgs
    {
      && allocMap.Length == 5 && pArgs.Length == 10 && allocMap != pArgs
      && |types| == pNum <= 5
      && fAllocated == used == P.Length == Offset(types, pNum)
      && (forall i :: 0 <= i < pNum ==> allocMap[i] == SizeOf(types[i]) && pArgs[i] == Offset(types, i))
      && (forall name :: name in aMap ==> exists i :: 0 <= i < pNum && aMap[name] == Offset(types, i))
    }

    constructor (tar: seq<SlotType>)
      requires |tar| <= 5
      ensures Valid() && types == tar && aMap == map[]
      ensures fresh(allocMap) && fresh(pArgs) && fresh(P)
    {
      allocMap := new nat[5];
      pArgs := new nat[10];
      P := new char[0];
      aMap := map[];
      used := 0;
      new;
      Set(tar);
    }

    /** `set`: allocates the block and lays the slots out one after the other, from a running offset that
        starts at zero. */
    method Set(tar: seq<SlotType>)
      requires |tar| <= 5 && used == 0 && aMap == map[]
      requires allocMap.Length == 5 && pArgs.Length == 10 && allocMap != pArgs
      modifies this, allocMap, pArgs
      ensures Valid() && types == tar && aMap == map[] && allocMap == old(allocMap) && pArgs == old(pArgs) && fresh(P)
    {
      hide SizeOf, Offset;
      OffsetSteps(tar);
      types := tar;
      pNum := |tar|;
      fAllocated := GetAllSize(tar);
      P := new char[fAllocated];
      var i := 0;
      while i < |tar|
        invariant 0 <= i <= |tar| && used == Offset(tar, i)
        invariant forall j :: 0 <= j < i ==> allocMap[j] == SizeOf(tar[j]) && pArgs[j] == Offset(tar, j)
        modifies `used, allocMap, pArgs
      {
        allocMap[i] := SizeOf(tar[i]);
        pArgs[i] := used;
        used := used + allocMap[i];
        i := i + 1;
      }
    }

    /** `set_args`: binds a name to a slot; `map::insert` keeps an earlier binding. */
    method SetArgs(idx: nat, name: string)
      requires Valid() && idx < pNum
      modifies `aMap
      ensures Valid() && aMap == if name in old(aMap) then old(aMap) else old(aMap)[name := Offset(types, idx)]
    {
      if name !in aMap {
        aMap := aMap[name := pArgs[idx]];
      }
    }

    /** `set_value<int>`: copies the four bytes of `v` over the slot's start. */
    method SetInt(name: string, v: int)
      requires Valid() && name in aMap && aMap[name] + 4 <= P.Length
      modifies P
      ensures Valid() && P[..] == Overwrite(old(P[..]), aMap[name], LittleEndian(v, 4))
    {
      Memcpy(P, aMap[name], LittleEndian(v, 4));
    }

    /** `get_value<int>`: dereferences a `char*` before converting, so one signed byte is all it reads. */
    function GetInt(name: string): int
      requires name in aMap && aMap[name] < P.Length
      reads this, P
    {
      SignedByte(P[aMap[name]])
    }
  }

  // ---------- layout ----------

  lemma {:induction false} OffsetsGrow(types: seq<SlotType>, i: nat, j: nat)
    requires i < j <= |types|
    ensures Offset(types, i) + SizeOf(types[i]) <= Offset(types, j)
    decreases j
  {
    if i + 1 < j {
      OffsetsGrow(types, i, j - 1);
    }
  }

  /** Slots tile the block: contiguous, disjoint, each position of the block in exactly one of them. */
  lemma {:induction false} SlotsTile(types: seq<SlotType>, p: nat)
    requires p < Offset(types, |types|)
    ensures exists i :: 0 <= i < |types| && Offset(types, i) <= p < Offset(types, i) + SizeOf(types[i])
    ensures forall i, j :: 0 <= i < j < |types| ==>
      !(Offset(types, i) <= p < Offset(types, i) + SizeOf(types[i]) &&
        Offset(types, j) <= p < Offset(types, j) + SizeOf(types[j]))
  {
    var i := SlotOf(types, p, |types|);
    assert Offset(types, i) <= p < Offset(types, i) + SizeOf(types[i]);
    forall a, b | 0 <= a < b < |types| ensures Offset(types, a) + SizeOf(types[a]) <= Offset(types, b) {
      OffsetsGrow(types, a, b);
    }
  }

  lemma {:induction false} SlotOf(types: seq<SlotType>, p: nat, n: nat) returns (i: nat)
    requires n <= |types| && p < Offset(types, n)
    ensures i < n && Offset(types, i) <= p < Offset(types, i) + SizeOf(types[i])
    decreases n
  {
    if Offset(types, n - 1) <= p {
      i := n - 1;
    } else {
      i := SlotOf(types, p, n - 1);
    }
  }

  lemma OverwriteReads(block: string, at: nat, v: string, lo: nat, hi: nat)
    requires at + |v| <= |block| && lo <= hi <= |block| && (hi <= at || at + |v| <= lo)
    ensures Overwrite(block, at, v)[at..at + |v|] == v
    ensures Overwrite(block, at, v)[lo..hi] == block[lo..hi]
  {
    OverwriteElsewhere(block, at, v, lo, hi);
  }

  /** Writing a value of its slot's size into slot `i` leaves every other slot's bytes alone. */
  lemma SlotsAreIndependent(types: seq<SlotType>, block: string, i: nat, v: string, j: nat)
    requires |block| == Offset(types, |types|) && i < |types| && j < |types| && i != j && |v| == SizeOf(types[i])
    ensures Offset(types, i) + |v| <= |block| && Offset(types, j) + SizeOf(types[j]) <= |block|
    ensures var after := Overwrite(block, Offset(types, i), v);
            after[Offset(types, i)..Offset(types, i) + |v|] == v &&
            after[Offset(types, j)..Offset(types, j) + SizeOf(types[j])] ==
            block[Offset(types, j)..Offset(types, j) + SizeOf(types[j])]
  {
    hide Offset, SizeOf, Overwrite;
    OffsetsGrow(types, i, |types|);
    OffsetsGrow(types, j, |types|);
    if i < j {
      OffsetsGrow(types, i, j);
    } else {
      OffsetsGrow(types, j, i);
    }
    OverwriteReads(block, Offset(types, i), v, Offset(types, j), Offset(types, j) + SizeOf(types[j]));
  }

  /** An integer stored under a tag comes back unchanged exactly when one signed byte can hold it. */
  lemma StoredIntReadsBack(block: string, at: nat, n: int)
    requires at + 4 <= |block|
    ensures SignedByte(Overwrite(block, at, LittleEndian(n, 4))[at]) == n <==> -128 <= n < 128
  {
    FirstByteOnly(n);
    assert Overwrite(block, at, LittleEndian(n, 4))[at] == LittleEndian(n, 4)[0];
  }
}
