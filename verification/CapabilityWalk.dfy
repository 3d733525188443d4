/**
 The bounded walk over the capability chain (PCI Local Bus Specification 3.0, section 6.7) in
 AssignMMIOBase, as a function of what word reads of the function's registers return.
 */
module CapabilityWalk {
  import opened Bits

  /** words[reg] is what a word read at register reg of the function returns. */
  type Registers = words: seq<uint16> | |words| == 256 witness seq(256, i => 0)

  type Bytes = bytes: seq<uint8> | |bytes| == 256 witness seq(256, i => 0)

  /** The word reads of a function with these bytes: past the last byte of a dword the driver finds a zero. */
  function WordsOf(bytes: Bytes): (words: Registers)
    ensures forall i :: 0 <= i < 256 ==> words[i] == Pair(bytes[i], if i % 4 == 3 then 0 else bytes[i + 1])
  {
    seq(256, i requires 0 <= i < 256 => Pair(bytes[i], if i % 4 == 3 then 0 else bytes[i + 1]))
  }

  function Pair(low: uint8, high: uint8): uint16 {
    0x100 * high + low
  }

  const CAP_REG: uint8 := 0x34
  const CAP_ID_PCIE: int := 0x10
  const WALK_LIMIT: nat := 64

  function Id(words: Registers, ptr: uint8): uint8 {
    words[ptr] % 0x100
  }

  function NextOf(words: Registers, ptr: uint8): uint8 {
    words[ptr] / 0x100
  }

  function First(words: Registers): uint8 {
    words[CAP_REG] % 0x100
  }

  /** The id the loop ends with, given the capability read last and the iterations left. */
  function Walk(words: Registers, id: uint8, next: uint8, limit: nat): uint8
    decreases limit
  {
    if limit == 0 || next == 0 || id == CAP_ID_PCIE then id
    else Walk(words, Id(words, next), NextOf(words, next), limit - 1)
  }

  /** The walk's verdict; the first pointer is followed even if it is zero. */
  predicate WalkFinds(words: Registers) {
    Walk(words, Id(words, First(words)), NextOf(words, First(words)), WALK_LIMIT) == CAP_ID_PCIE
  }

  /** In bytes: the id is the byte at the pointer, the next pointer the byte behind it in the same dword, and the
      first pointer the byte at 0x34. */
  lemma CapabilityBytes(bytes: Bytes, ptr: uint8)
    ensures Id(WordsOf(bytes), ptr) == bytes[ptr]
    ensures NextOf(WordsOf(bytes), ptr) == if ptr % 4 == 3 then 0 else bytes[ptr + 1]
    ensures First(WordsOf(bytes)) == bytes[0x34]
  {
    Divided(WordsOf(bytes)[ptr], 0x100, if ptr % 4 == 3 then 0 else bytes[ptr + 1], bytes[ptr]);
    Divided(WordsOf(bytes)[CAP_REG], 0x100, bytes[0x35], bytes[0x34]);
  }

  // ---------- following without a limit ----------

  /** The pointer after k steps from ptr. */
  function Pointer(words: Registers, ptr: uint8, k: nat): uint8 {
    if k == 0 then ptr else NextOf(words, Pointer(words, ptr, k - 1))
  }

  /** The first k steps from ptr meet no terminating zero. */
  predicate Follows(words: Registers, ptr: uint8, k: nat) {
    forall i :: 0 < i <= k ==> Pointer(words, ptr, i) != 0
  }

  predicate PcieAt(words: Registers, ptr: uint8, k: nat) {
    Follows(words, ptr, k) && Id(words, Pointer(words, ptr, k)) == CAP_ID_PCIE
  }

  ghost predicate Reachable(words: Registers) {
    exists k: nat :: PcieAt(words, First(words), k)
  }

  lemma {:induction false} PointerFrom(words: Registers, ptr: uint8, k: nat)
    ensures Pointer(words, NextOf(words, ptr), k) == Pointer(words, ptr, k + 1)
  {
    if k > 0 {
      PointerFrom(words, ptr, k - 1);
    }
  }

  lemma FollowsFrom(words: Registers, ptr: uint8, k: nat)
    requires NextOf(words, ptr) != 0
    ensures Follows(words, NextOf(words, ptr), k) <==> Follows(words, ptr, k + 1)
  {
    forall i: nat
      ensures Pointer(words, NextOf(words, ptr), i) == Pointer(words, ptr, i + 1)
    {
      PointerFrom(words, ptr, i);
    }
    assert Pointer(words, ptr, 1) == NextOf(words, ptr) by { assert Pointer(words, ptr, 0) == ptr; }
    if Follows(words, NextOf(words, ptr), k) {
      forall i | 0 < i <= k + 1
        ensures Pointer(words, ptr, i) != 0
      {
        if i > 1 {
          assert Pointer(words, NextOf(words, ptr), i - 1) != 0;
        }
      }
    }
  }

  lemma PcieAtNext(words: Registers, ptr: uint8, k: nat)
    requires NextOf(words, ptr) != 0
    ensures PcieAt(words, NextOf(words, ptr), k) <==> PcieAt(words, ptr, k + 1)
  {
    PointerFrom(words, ptr, k);
    FollowsFrom(words, ptr, k);
  }

  lemma PcieAtZero(words: Registers, ptr: uint8, k: nat)
    ensures PcieAt(words, ptr, 0) <==> Id(words, ptr) == CAP_ID_PCIE
    ensures k > 0 && NextOf(words, ptr) == 0 ==> !PcieAt(words, ptr, k)
  {
    assert Pointer(words, ptr, 0) == ptr;
    assert Pointer(words, ptr, 1) == NextOf(words, ptr);
  }

  /** With a limit of n steps the walk finds exactly what n steps can reach. */
  lemma {:induction false} WalkReaches(words: Registers, ptr: uint8, n: nat)
    ensures Walk(words, Id(words, ptr), NextOf(words, ptr), n) == CAP_ID_PCIE
            <==> exists k: nat :: k <= n && PcieAt(words, ptr, k)
    decreases n
  {
    hide PcieAt, Pointer, Follows;
    var q := NextOf(words, ptr);
    PcieAtZero(words, ptr, 0);
    if Id(words, ptr) == CAP_ID_PCIE {
    } else if n > 0 && q != 0 {
      WalkReaches(words, q, n - 1);
      if k: nat :| k <= n - 1 && PcieAt(words, q, k) {
        PcieAtNext(words, ptr, k);
      } else if k: nat :| k <= n && PcieAt(words, ptr, k) {
        PcieAtNext(words, ptr, k - 1);
      }
    } else {
      forall k: nat | k <= n
        ensures !PcieAt(words, ptr, k)
      {
        PcieAtZero(words, ptr, k);
      }
    }
  }

  // ---------- how many pointers 64 steps can exhaust ----------

  /** Every pointer the chain follows is one of these. */
  ghost predicate Within(words: Registers, offsets: set<int>) {
    forall k: nat :: Follows(words, First(words), k) ==> Pointer(words, First(words), k) in offsets
  }

  /** Once a pointer repeats, so does everything after it. */
  lemma {:induction false} RepeatsFrom(words: Registers, ptr: uint8, i: nat, j: nat, d: nat)
    requires Pointer(words, ptr, i) == Pointer(words, ptr, j)
    ensures Pointer(words, ptr, i + d) == Pointer(words, ptr, j + d)
  {
    if d > 0 {
      RepeatsFrom(words, ptr, i, j, d - 1);
    }
  }

  lemma {:induction false} Pigeonhole(s: seq<int>, holes: set<int>)
    requires forall i :: 0 <= i < |s| ==> s[i] in holes
    requires forall i, j :: 0 <= i < j < |s| ==> s[i] != s[j]
    ensures |s| <= |holes|
  {
    if s != [] {
      Pigeonhole(s[1..], holes - {s[0]});
    }
  }

  lemma FoundSooner(words: Registers, ptr: uint8, i: nat, j: nat, k: nat)
    requires i < j <= k && PcieAt(words, ptr, k) && Pointer(words, ptr, i) == Pointer(words, ptr, j)
    ensures PcieAt(words, ptr, i + (k - j))
  {
    hide Pointer, Id;
    RepeatsFrom(words, ptr, i, j, k - j);
  }

  /** Up to the first capability found no pointer repeats. */
  lemma FirstFoundIsEarly(words: Registers, offsets: set<int>, k: nat)
    requires PcieAt(words, First(words), k) && Within(words, offsets)
    requires forall j: nat :: j < k ==> !PcieAt(words, First(words), j)
    ensures k < |offsets|
  {
    var ptr := First(words);
    var s := seq(k + 1, i requires 0 <= i <= k => Pointer(words, ptr, i));
    forall i | 0 <= i < |s|
      ensures s[i] in offsets
    {
      assert Follows(words, ptr, i);
    }
    forall i, j | 0 <= i < j < |s|
      ensures s[i] != s[j]
    {
      if s[i] == s[j] {
        FoundSooner(words, ptr, i, j, k);
      }
    }
    Pigeonhole(s, offsets);
  }

  lemma {:induction false} Earliest(words: Registers, ptr: uint8, k: nat) returns (j: nat)
    requires PcieAt(words, ptr, k)
    ensures j <= k && PcieAt(words, ptr, j) && forall i: nat :: i < j ==> !PcieAt(words, ptr, i)
  {
    if i: nat :| i < k && PcieAt(words, ptr, i) {
      j := Earliest(words, ptr, i);
    } else {
      j := k;
    }
  }

  /** A chain that keeps to 65 offsets, cyclic or not, is walked completely. */
  lemma WalkCoversOffsets(words: Registers, offsets: set<int>)
    requires Within(words, offsets) && |offsets| <= WALK_LIMIT + 1
    ensures WalkFinds(words) <==> Reachable(words)
  {
    hide Within, Follows, Pointer, PcieAt, Id;
    var ptr := First(words);
    WalkReaches(words, ptr, WALK_LIMIT);
    if Reachable(words) {
      var k: nat :| PcieAt(words, ptr, k);
      k := Earliest(words, ptr, k);
      FirstFoundIsEarly(words, offsets, k);
    }
  }

  ghost predicate WalkIsCompleteOn(n: nat) {
    forall bytes: Bytes, offsets: set<int> ::
      Within(WordsOf(bytes), offsets) && |offsets| <= n ==> (WalkFinds(WordsOf(bytes)) <==> Reachable(WordsOf(bytes)))
  }

  /** The limit of 64 finds the PCIe capability exactly when unlimited following reaches it, on the chains of
      all functions that keep to n offsets, if and only if n is at most 65. */
  lemma WalkIsCompleteIff(n: nat)
    ensures WalkIsCompleteOn(n) <==> n <= WALK_LIMIT + 1
  {
    hide WalkFinds, Reachable, Within, WordsOf, LongChain;
    if n <= WALK_LIMIT + 1 {
      forall bytes: Bytes, offsets: set<int> | Within(WordsOf(bytes), offsets) && |offsets| <= n
        ensures WalkFinds(WordsOf(bytes)) <==> Reachable(WordsOf(bytes))
      {
        WalkCoversOffsets(WordsOf(bytes), offsets);
      }
    } else {
      var offsets := UnalignedChainIsCutShort();
      assert Within(WordsOf(LongChain()), offsets) && |offsets| <= n;
    }
  }

  // ---------- aligned pointers ----------

  ghost predicate AlignedChain(words: Registers) {
    forall k: nat :: Follows(words, First(words), k) ==> Pointer(words, First(words), k) % 4 == 0
  }

  /** The n numbers 0, 4, 8, ... */
  lemma {:induction false} Multiples(n: nat) returns (all: set<int>)
    ensures |all| == n && forall x :: x in all <==> 0 <= x < 4 * n && x % 4 == 0
  {
    if n == 0 {
      all := {};
    } else {
      all := Multiples(n - 1);
      all := all + {4 * (n - 1)};
    }
  }

  /** When every followed pointer is 4-aligned there are only 64 of them: the walk limited to 64 finds the
      PCIe capability if and only if unlimited following reaches it, cyclic chains included. */
  lemma BoundedWalkIsComplete(words: Registers)
    requires AlignedChain(words)
    ensures WalkFinds(words) <==> Reachable(words)
  {
    hide Follows, Pointer, WalkFinds, Reachable, First;
    var offsets := Multiples(64);
    WalkCoversOffsets(words, offsets);
  }

  // ---------- 66 pointers are too many ----------

  /** Pointer k of the chain: three of every four offsets from 0x40 on. The word at the fourth ends a
      chain. */
  function Link(k: nat): int {
    0x40 + 4 * (k / 3) + k % 3
  }

  /** Configuration bytes that hold the chain: the byte behind each pointer is the next pointer; pointer 65 is
      0xa0, where the capability is. */
  function ChainByte(i: int): int {
    if i == 0x34 then 0x40
    else if i == 0x96 then 0xa0
    else if i == 0xa0 then CAP_ID_PCIE
    else if !(0x40 <= i < 0x96) || i % 4 == 0 then 0
    else if i % 4 == 3 then i + 1
    else i
  }

  function LongChain(): (bytes: Bytes)
    ensures forall i :: 0 <= i < 256 ==> bytes[i] == ChainByte(i)
  {
    seq(256, i requires 0 <= i < 256 => ChainByte(i))
  }

  lemma WordAt(i: int)
    requires 0 <= i < 256
    ensures Id(WordsOf(LongChain()), i) == ChainByte(i)
    ensures i % 4 != 3 ==> NextOf(WordsOf(LongChain()), i) == ChainByte(i + 1)
  {
    hide ChainByte, Id, NextOf;
    CapabilityBytes(LongChain(), i);
  }

  /** The next pointer: one further, or two over the end of the dword. */
  lemma NextLink(k: nat)
    ensures Link(k) % 4 == k % 3 && Link(k + 1) == if k % 3 == 2 then Link(k) + 2 else Link(k) + 1
  {
    var j, r := k / 3, k % 3;
    Divided(Link(k), 4, 0x10 + j, r);
    Divided(k + 1, 3, if r == 2 then j + 1 else j, if r == 2 then 0 else r + 1);
  }

  lemma LinkRange(k: nat)
    requires k <= 64
    ensures 0x40 <= Link(k) <= 0x95 && (Link(k) == 0x95 <==> k == 64)
  {}

  lemma ChainBytes(a: int)
    requires 0x40 <= a <= 0x95 && a % 4 != 3
    ensures ChainByte(a) != CAP_ID_PCIE
    ensures ChainByte(a + 1) == if a == 0x95 then 0xa0 else if a % 4 == 2 then a + 2 else a + 1
  {
    Divided(a + 1, 4, a / 4, a % 4 + 1);
  }

  lemma LinkStep(k: nat)
    requires k <= 64
    ensures 0x40 <= Link(k) <= 0x95
    ensures Id(WordsOf(LongChain()), Link(k)) != CAP_ID_PCIE
    ensures NextOf(WordsOf(LongChain()), Link(k)) == if k == 64 then 0xa0 else Link(k + 1)
  {
    NextLink(k);
    LinkRange(k);
    ChainBytes(Link(k));
    WordAt(Link(k));
    hide Link, WordsOf, LongChain, Id, NextOf, ChainByte;
  }

  lemma ChainEnds()
    ensures First(WordsOf(LongChain())) == Link(0)
    ensures Id(WordsOf(LongChain()), 0xa0) == CAP_ID_PCIE && NextOf(WordsOf(LongChain()), 0xa0) == 0
  {
    WordAt(0x34);
    WordAt(0xa0);
    assert First(WordsOf(LongChain())) == Id(WordsOf(LongChain()), 0x34);
    assert 0xa0 % 4 == 0 && Link(0) == 0x40;
    hide WordsOf, LongChain, Id, NextOf;
  }

  lemma {:induction false} ChainPointer(k: nat)
    requires k <= 65
    ensures Pointer(WordsOf(LongChain()), Link(0), k) == if k == 65 then 0xa0 else Link(k)
  {
    if k > 0 {
      ChainPointer(k - 1);
      LinkStep(k - 1);
      hide WordsOf, LongChain, NextOf, Link;
    }
  }

  lemma ChainStops(k: nat)
    requires Follows(WordsOf(LongChain()), Link(0), k)
    ensures k <= 65
  {
    ChainEnds();
    ChainPointer(65);
    hide WordsOf, LongChain, NextOf, Link;
    assert Pointer(WordsOf(LongChain()), Link(0), 66) == 0;
  }

  lemma {:induction false} Links(n: nat) returns (all: set<int>)
    requires n <= 65
    ensures |all| == n && (forall k :: 0 <= k < n ==> Link(k) in all) && forall x :: x in all ==> x < Link(n)
  {
    if n == 0 {
      all := {};
    } else {
      all := Links(n - 1);
      all := all + {Link(n - 1)};
    }
  }

  lemma ChainIsWithin(offsets: set<int>)
    requires 0xa0 in offsets && forall k :: 0 <= k <= 64 ==> Link(k) in offsets
    ensures Within(WordsOf(LongChain()), offsets)
  {
    ChainEnds();
    hide WordsOf, LongChain, Pointer, Follows, First, Link;
    var words := WordsOf(LongChain());
    forall k: nat | Follows(words, First(words), k)
      ensures Pointer(words, First(words), k) in offsets
    {
      ChainStops(k);
      ChainPointer(k);
    }
  }

  lemma ChainIsReachable()
    ensures Reachable(WordsOf(LongChain()))
  {
    ChainEnds();
    hide WordsOf, LongChain, Pointer, Id, First, NextOf;
    var words := WordsOf(LongChain());
    forall i | 0 < i <= 65
      ensures Pointer(words, Link(0), i) != 0
    {
      ChainPointer(i);
    }
    ChainPointer(65);
    assert PcieAt(words, First(words), 65);
  }

  lemma ChainIsNotFound()
    ensures !WalkFinds(WordsOf(LongChain()))
  {
    ChainEnds();
    hide WordsOf, LongChain, Pointer, Id, First, NextOf, Walk, Link, Follows;
    var words := WordsOf(LongChain());
    WalkReaches(words, Link(0), WALK_LIMIT);
    forall k: nat | k <= WALK_LIMIT
      ensures !PcieAt(words, Link(0), k)
    {
      ChainPointer(k);
      LinkStep(k);
    }
  }

  /** On this chain of 66 unaligned pointers the walk stops one short of the capability. */
  lemma UnalignedChainIsCutShort() returns (offsets: set<int>)
    ensures Within(WordsOf(LongChain()), offsets) && |offsets| == WALK_LIMIT + 2
    ensures Reachable(WordsOf(LongChain())) && !WalkFinds(WordsOf(LongChain()))
  {
    offsets := Links(65);
    assert Link(65) == 0x96;
    offsets := offsets + {0xa0};
    ChainIsWithin(offsets);
    ChainIsReachable();
    ChainIsNotFound();
  }
}
