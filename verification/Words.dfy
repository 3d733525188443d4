/**
 Dwords, their byte lanes, and the two views of a store used throughout the driver model:
 the dwords a bus transaction moves, and the bytes a client believes it reads and writes.
 */
module Words {
  import opened Bits

  /** The access widths of the driver; PCI-DEV and MEM-SPACE call them display modes. */
  datatype Width = Byte | Word | Dword

  function Size(w: Width): int {
    match w case Byte => 1 case Word => 2 case Dword => 4
  }

  /** One more than the largest value of a width. */
  function Limit(w: Width): int {
    match w case Byte => 0x100 case Word => 0x1_0000 case Dword => 0x1_0000_0000
  }

  predicate Aligned(w: Width, a: int) {
    match w case Byte => true case Word => a % 2 == 0 case Dword => a % 4 == 0
  }

  // ---------- dwords in storage ----------

  ghost predicate EveryDword(m: imap<int, Lanes>) {
    forall i: int :: i in m
  }

  /** Storage as the bus sees it: dword i holds the bytes 4*i .. 4*i+3, lowest byte first. */
  type Store = m: imap<int, Lanes> | EveryDword(m) ghost witness (imap i: int :: Lanes(0, 0, 0, 0))

  /** Byte n of a dword. */
  function Lane(l: Lanes, n: int): uint8 {
    match n case 0 => l.b0 case 1 => l.b1 case 2 => l.b2 case _ => l.b3
  }

  // ---------- the shift-and-mask arithmetic of the accessors ----------
  // n stands for addr & 3, the offset of an address in its dword

  /** v >> (n * 8) */
  function Shr(v: uint32, n: int): uint32 {
    match n case 0 => v case 1 => v / 0x100 case 2 => v / 0x1_0000 case _ => v / 0x100_0000
  }

  /** v << (n * 8), in 32 bits */
  function Shl(v: uint32, n: int): uint32 {
    match n
    case 0 => v
    case 1 => v * 0x100 % 0x1_0000_0000
    case 2 => v * 0x1_0000 % 0x1_0000_0000
    case _ => v * 0x100_0000 % 0x1_0000_0000
  }

  /** What a read of width w at offset n takes from a dword of value v. */
  function Extract(w: Width, v: uint32, n: int): nat {
    match w
    case Byte => And(Shr(v, n), 0xff)
    case Word => And(Shr(v, n), 0xffff)
    case Dword => v
  }

  /** What a write of width w at offset n stores over a dword of value v. The word case shifts by
      (addr & 2) * 8 where the word read shifts by (addr & 3) * 8. */
  function Merge(w: Width, v: uint32, n: int, buf: uint32): nat {
    match w
    case Byte => Or(And(v, Not(Shl(0xff, n))), Shl(buf % 0x100, n))
    case Word => Or(And(v, Not(Shl(0xffff, n / 2 * 2))), Shl(buf % 0x1_0000, n / 2 * 2))
    case Dword => buf
  }

  /** The bytes a read of width w at offset n returns: past the top byte of the dword it finds a
      zero. */
  function Extracted(w: Width, l: Lanes, n: int): uint32 {
    match w
    case Byte => Lane(l, n)
    case Word => Lane(l, n) + 0x100 * (if n == 3 then 0 else Lane(l, n + 1))
    case Dword => Num(l)
  }

  /** The dword a write of width w at offset n leaves. */
  function Merged(w: Width, l: Lanes, n: int, c: Lanes): Lanes {
    match w
    case Byte =>
      (match n
       case 0 => l.(b0 := c.b0) case 1 => l.(b1 := c.b0) case 2 => l.(b2 := c.b0) case _ => l.(b3 := c.b0))
    case Word =>
      if n < 2 then l.(b0 := c.b0, b1 := c.b1) else l.(b2 := c.b0, b3 := c.b1)
    case Dword => c
  }

  lemma ShrOfLanes(l: Lanes, n: int)
    requires 0 <= n < 4
    ensures Shr(Num(l), n) == match n
                              case 0 => Num(l)
                              case 1 => Num(Lanes(l.b1, l.b2, l.b3, 0))
                              case 2 => Num(Lanes(l.b2, l.b3, 0, 0))
                              case _ => Num(Lanes(l.b3, 0, 0, 0))
  {}

  lemma LowLanes(l: Lanes)
    ensures And(Num(l), 0xff) == l.b0 && And(Num(l), 0xffff) == l.b0 + 0x100 * l.b1
  {
    hide And;
    MaskLanes(l, Lanes(0xff, 0, 0, 0));
    MaskLanes(l, Lanes(0xff, 0xff, 0, 0));
  }

  /** The shift and mask of a read are a selection of bytes. */
  lemma ExtractIsSelection(w: Width, l: Lanes, n: int)
    requires 0 <= n < 4
    ensures Extract(w, Num(l), n) == Extracted(w, l, n)
  {
    hide And, Shr, Num;
    ShrOfLanes(l, n);
    LowLanes(l);
    LowLanes(Lanes(l.b1, l.b2, l.b3, 0));
    LowLanes(Lanes(l.b2, l.b3, 0, 0));
    LowLanes(Lanes(l.b3, 0, 0, 0));
  }

  lemma ShlByte(c: uint8)
    ensures Shl(c, 0) == c && Shl(c, 1) == 0x100 * c && Shl(c, 2) == 0x1_0000 * c && Shl(c, 3) == 0x100_0000 * c
  {}

  lemma MergeByteIsReplacement(l: Lanes, n: int, buf: uint32, c: uint8)
    requires 0 <= n < 4 && buf % 0x100 == c
    ensures Merge(Byte, Num(l), n, buf) == Num(Merged(Byte, l, n, Lanes(c, 0, 0, 0)))
  {
    hide And, Or, Shl;
    ShlByte(0xff);
    ShlByte(c);
    match n
    case 0 =>
      MaskLanes(l, Lanes(0, 0xff, 0xff, 0xff));
      OrLanes(Lanes(0, l.b1, l.b2, l.b3), Lanes(c, 0, 0, 0));
    case 1 =>
      MaskLanes(l, Lanes(0xff, 0, 0xff, 0xff));
      OrLanes(Lanes(l.b0, 0, l.b2, l.b3), Lanes(0, c, 0, 0));
    case 2 =>
      MaskLanes(l, Lanes(0xff, 0xff, 0, 0xff));
      OrLanes(Lanes(l.b0, l.b1, 0, l.b3), Lanes(0, 0, c, 0));
    case _ =>
      MaskLanes(l, Lanes(0xff, 0xff, 0xff, 0));
      OrLanes(Lanes(l.b0, l.b1, l.b2, 0), Lanes(0, 0, 0, c));
  }

  lemma MergeWordIsReplacement(l: Lanes, n: int, buf: uint32, c0: uint8, c1: uint8)
    requires 0 <= n < 4 && buf % 0x1_0000 == c0 + 0x100 * c1
    ensures Merge(Word, Num(l), n, buf) == Num(Merged(Word, l, n, Lanes(c0, c1, 0, 0)))
  {
    hide And, Or;
    var v := c0 + 0x100 * c1;
    if n < 2 {
      assert n / 2 * 2 == 0 && Shl(v, 0) == v && Not(0xffff) == 0xffff_0000;
      MaskLanes(l, Lanes(0, 0, 0xff, 0xff));
      OrLanes(Lanes(0, 0, l.b2, l.b3), Lanes(c0, c1, 0, 0));
    } else {
      assert n / 2 * 2 == 2 && Shl(v, 2) == 0x1_0000 * v && Not(Shl(0xffff, 2)) == 0xffff;
      MaskLanes(l, Lanes(0xff, 0xff, 0, 0));
      OrLanes(Lanes(l.b0, l.b1, 0, 0), Lanes(0, 0, c0, c1));
    }
  }

  lemma SplitLow(v: uint32)
    ensures v % 0x100 == Split(v).b0
    ensures v % 0x1_0000 == Split(v).b0 + 0x100 * Split(v).b1
  {
    var h := v / 0x1_0000;
    var r := v - 0x1_0000 * h;
    assert v % 0x100 == r % 0x100 && v / 0x100 == 0x100 * h + r / 0x100;
    assert v / 0x100 % 0x100 == r / 0x100;
  }

  /** The shifts and masks of a read-modify-write are a replacement of bytes. */
  lemma MergeIsReplacement(w: Width, l: Lanes, n: int, buf: uint32)
    requires 0 <= n < 4
    ensures Merge(w, Num(l), n, buf) == Num(Merged(w, l, n, Split(buf)))
  {
    hide Merge, Split, Num;
    NumSplit(buf);
    SplitLow(buf);
    match w
    case Byte => MergeByteIsReplacement(l, n, buf, Split(buf).b0);
    case Word => MergeWordIsReplacement(l, n, buf, Split(buf).b0, Split(buf).b1);
    case Dword => MergeDword(Num(l), n, buf);
  }

  lemma MergeDword(v: uint32, n: int, buf: uint32)
    ensures Merge(Dword, v, n, buf) == buf
  {}

  // ---------- the client's view: a map of bytes ----------

  ghost predicate EveryByte(b: imap<int, uint8>) {
    forall a: int :: a in b
  }

  type ByteMap = b: imap<int, uint8> | EveryByte(b) ghost witness (imap a: int :: 0)

  ghost function View(m: Store): (b: ByteMap)
    ensures forall a: int :: b[a] == Lane(m[a / 4], a % 4)
  {
    var b: imap<int, uint8> := imap a: int :: Lane(m[a / 4], a % 4);
    assert EveryByte(b);
    b
  }

  /** Little-endian read of Size(w) bytes. */
  ghost function ReadBytes(w: Width, b: ByteMap, a: int): uint32 {
    match w
    case Byte => b[a]
    case Word => b[a] + 0x100 * b[a + 1]
    case Dword => Num(Lanes(b[a], b[a + 1], b[a + 2], b[a + 3]))
  }

  ghost function WrittenByte(w: Width, b: ByteMap, a: int, v: uint32, x: int): uint8 {
    if a <= x < a + Size(w) then Lane(Split(v), x - a) else b[x]
  }

  /** Little-endian write of Size(w) bytes; every other byte keeps its value. */
  ghost function WriteBytes(w: Width, b: ByteMap, a: int, v: uint32): (b': ByteMap)
    ensures forall x: int :: b'[x] == if a <= x < a + Size(w) then Lane(Split(v), x - a) else b[x]
  {
    var b': imap<int, uint8> := imap x: int :: WrittenByte(w, b, a, v, x);
    assert EveryByte(b');
    b'
  }

  lemma MergedLane(w: Width, l: Lanes, n: int, c: Lanes, i: int)
    requires Aligned(w, n) && 0 <= n < 4 && 0 <= i < 4
    ensures Lane(Merged(w, l, n, c), i) == if n <= i < n + Size(w) then Lane(c, i - n) else Lane(l, i)
  {
    match w case Byte => case Word => case Dword =>
  }

  lemma MergedByte(w: Width, m: Store, a: int, c: Lanes, x: int)
    requires Aligned(w, a)
    ensures Lane(m[a / 4 := Merged(w, m[a / 4], a % 4, c)][x / 4], x % 4)
            == if a <= x < a + Size(w) then Lane(c, x - a) else Lane(m[x / 4], x % 4)
  {
    hide Merged, Lane;
    OffsetOf(w, a, x);
    if x / 4 == a / 4 {
      MergedLane(w, m[a / 4], a % 4, c, x % 4);
    }
  }

  /** The bytes of an aligned access all lie in one dword. */
  lemma OffsetOf(w: Width, a: int, x: int)
    requires Aligned(w, a)
    ensures Aligned(w, a % 4)
    ensures a <= x < a + Size(w) <==> x / 4 == a / 4 && a % 4 <= x % 4 < a % 4 + Size(w)
    ensures x / 4 == a / 4 ==> x - a == x % 4 - a % 4
  {
    AlignedOffset(w, a);
    var q, r, q', r' := a / 4, a % 4, x / 4, x % 4;
    assert a == 4 * q + r && x == 4 * q' + r' && 0 <= r < 4 && 0 <= r' < 4 && r + Size(w) <= 4;
    hide *;
    assert a <= x < a + Size(w) <==> q' == q && r <= r' < r + Size(w);
  }

  lemma AlignedOffset(w: Width, a: int)
    requires Aligned(w, a)
    ensures Aligned(w, a % 4) && a % 4 + Size(w) <= 4
  {
    var q, n := a / 4, a % 4;
    assert a == 4 * q + n;
    if n == 1 {
      Divided(a, 2, 2 * q, 1);
    } else if n == 3 {
      Divided(a, 2, 2 * q + 1, 1);
    }
  }

  lemma EvenOffset(a: int)
    ensures Aligned(Word, a) <==> a % 4 == 0 || a % 4 == 2
  {
    var q, n := a / 4, a % 4;
    assert a == 4 * q + n;
    Divided(a, 2, 2 * q + n / 2, n % 2);
  }

  /** A read-modify-write of the dword that holds an aligned address is exactly a byte write. */
  lemma MergeIsByteWrite(w: Width, m: Store, a: int, buf: uint32)
    requires Aligned(w, a)
    ensures View(m[a / 4 := Merged(w, m[a / 4], a % 4, Split(buf))]) == WriteBytes(w, View(m), a, buf)
  {
    hide Split, Merged, Lane, Aligned, Size;
    var m' := m[a / 4 := Merged(w, m[a / 4], a % 4, Split(buf))];
    var b, b' := View(m'), WriteBytes(w, View(m), a, buf);
    forall x: int
      ensures b[x] == b'[x]
    {
      MergedByte(w, m, a, Split(buf), x);
    }
  }

  lemma SameDword(w: Width, a: int, i: int)
    requires Aligned(w, a) && 0 <= i < Size(w)
    ensures (a + i) / 4 == a / 4 && (a + i) % 4 == a % 4 + i
  {
    OffsetOf(w, a, a + i);
  }

  /** Extracting from the dword that holds an aligned address is exactly a byte read. */
  lemma ExtractIsByteRead(w: Width, m: Store, a: int)
    requires Aligned(w, a)
    ensures Extracted(w, m[a / 4], a % 4) == ReadBytes(w, View(m), a)
  {
    hide Num;
    match w
    case Byte =>
    case Word =>
      SameDword(w, a, 1);
    case Dword =>
      SameDword(w, a, 1);
      SameDword(w, a, 2);
      SameDword(w, a, 3);
      var l := m[a / 4];
      assert View(m)[a] == l.b0 && View(m)[a + 1] == l.b1 && View(m)[a + 2] == l.b2 && View(m)[a + 3] == l.b3;
      assert l == Lanes(l.b0, l.b1, l.b2, l.b3);
  }

  // ---------- accesses at any offset ----------

  /** What a read returns at any offset: a word does not reach past its dword, where it finds a zero, and a
      dword is the one that holds the offset. */
  ghost function ReadAt(w: Width, b: ByteMap, a: int): uint32 {
    match w
    case Byte => b[a]
    case Word => if a % 4 == 3 then b[a] else ReadBytes(Word, b, a)
    case Dword => ReadBytes(Dword, b, a - a % 4)
  }

  /** What a write stores at any offset: a word goes to the even offset below, and a dword anywhere but at a
      multiple of four is not written. */
  ghost function WriteAt(w: Width, b: ByteMap, a: int, v: uint32): ByteMap {
    match w
    case Byte => WriteBytes(Byte, b, a, v)
    case Word => WriteBytes(Word, b, a - a % 2, v)
    case Dword => if a % 4 == 0 then WriteBytes(Dword, b, a, v) else b
  }

  /** Naturally aligned, they are plain reads and writes of bytes. */
  lemma AlignedIsPlain(w: Width, b: ByteMap, a: int, v: uint32)
    requires Aligned(w, a)
    ensures ReadAt(w, b, a) == ReadBytes(w, b, a) && WriteAt(w, b, a, v) == WriteBytes(w, b, a, v)
  {
    AlignedOffset(w, a);
    hide ReadBytes, WriteBytes;
  }

  lemma ExtractIsRead(w: Width, m: Store, a: int)
    ensures Extracted(w, m[a / 4], a % 4) == ReadAt(w, View(m), a)
  {
    hide Num;
    match w
    case Byte =>
    case Word =>
      if a % 4 != 3 {
        Divided(a + 1, 4, a / 4, a % 4 + 1);
      }
    case Dword =>
      var down := a - a % 4;
      Divided(down, 4, a / 4, 0);
      ExtractIsByteRead(Dword, m, down);
  }

  lemma MergeIsWrite(w: Width, m: Store, a: int, buf: uint32)
    requires w == Dword ==> a % 4 == 0
    ensures View(m[a / 4 := Merged(w, m[a / 4], a % 4, Split(buf))]) == WriteAt(w, View(m), a, buf)
  {
    hide Split, WriteBytes, View;
    if w == Word {
      EvenBelow(a);
      var l := m[a / 4];
      assert Merged(Word, l, a % 4, Split(buf)) == Merged(Word, l, a % 4 / 2 * 2, Split(buf));
      hide Merged;
      MergeIsByteWrite(Word, m, a - a % 2, buf);
    } else {
      hide Merged;
      MergeIsByteWrite(w, m, a, buf);
    }
  }

  lemma EvenBelow(a: int)
    ensures var e := a - a % 2;
            e % 2 == 0 && e / 4 == a / 4 && e % 4 == a % 4 / 2 * 2
  {
    var q, n := a / 4, a % 4;
    assert a == 4 * q + n;
    Divided(a, 2, 2 * q + n / 2, n % 2);
    Divided(a - a % 2, 2, 2 * q + n / 2, 0);
    Divided(a - a % 2, 4, q, n / 2 * 2);
  }

  // ---------- laws of the byte map ----------

  /** A read returns what the last write of the same width put there. */
  lemma ReadAfterWrite(w: Width, b: ByteMap, a: int, v: uint32)
    ensures ReadBytes(w, WriteBytes(w, b, a, v), a) == v % Limit(w)
  {
    hide Split, Num;
    SplitLow(v);
    NumSplit(v);
    var l := Split(v);
    assert l == Lanes(l.b0, l.b1, l.b2, l.b3);
  }

  lemma SplitSmall(b0: uint8, b1: uint8)
    ensures Split(b0).b0 == b0
    ensures Split(b0 + 0x100 * b1).b0 == b0 && Split(b0 + 0x100 * b1).b1 == b1
  {
    hide Split;
    SplitNum(Lanes(b0, 0, 0, 0));
    SplitNum(Lanes(b0, b1, 0, 0));
  }

  /** Writing back what a read returned restores every byte, whatever was written in between. */
  lemma WriteBackRestores(w: Width, b: ByteMap, a: int, v: uint32)
    ensures WriteBytes(w, WriteBytes(w, b, a, v), a, ReadBytes(w, b, a)) == b
  {
    hide Split, Num;
    SplitSmall(b[a], b[a + 1]);
    SplitNum(Lanes(b[a], b[a + 1], b[a + 2], b[a + 3]));
    var l := Split(ReadBytes(w, b, a));
    assert l.b0 == b[a];
    assert w != Byte ==> l.b1 == b[a + 1];
    assert w == Dword ==> l.b2 == b[a + 2] && l.b3 == b[a + 3];
  }

  /** A word written at an address reads back for every value over every old dword exactly when the
      address is even: the read and the write shift an odd address by different amounts. */
  lemma WordRoundTripIffEven(a: int)
    ensures (forall l: Lanes, buf: uint32 ::
               Extracted(Word, Merged(Word, l, a % 4, Split(buf)), a % 4) == buf % 0x1_0000)
            <==> Aligned(Word, a)
  {
    var n := a % 4;
    EvenOffset(a);
    if n == 0 || n == 2 {
      forall l: Lanes, buf: uint32
        ensures Extracted(Word, Merged(Word, l, n, Split(buf)), n) == buf % 0x1_0000
      {
        hide Split;
        SplitLow(buf);
      }
    } else {
      var bad := Merged(Word, Lanes(0, 0, 0, 0), n, Split(0xff));
      assert Extracted(Word, bad, n) != 0xff % 0x1_0000;
    }
  }
}
