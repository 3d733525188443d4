/**
 What the accessors mean to a client: the cached window is invisible as long as bulk reads are
 256-aligned, and then the port mechanism and the MMIO mechanism, mixed in any order, are reads and
 writes of one map from configuration offsets to bytes.
 */
module ConfigStore {
  import opened Bits
  import opened Words
  import opened AddressCodec
  import opened PcixDriver

  // ---------- the cached window ----------

  /** phy_map_start_addr always describes the mapping in phy2virt_mem. */
  predicate Coherent(s: DriverState) {
    s.window.Mapped? ==> s.mapStart == s.window.start
  }

  predicate WindowAligned(s: DriverState) {
    s.window.Mapped? ==> s.window.start % MASSBUF == 0
  }

  predicate Valid(s: DriverState) {
    Coherent(s) && WindowAligned(s)
  }

  /** A single access through the cache touches the dword that holds its address exactly when the
      cached window is 256-aligned, or is about to be replaced. */
  lemma CacheAgreesIff(s: DriverState, addr: uint32)
    requires Coherent(s)
    ensures Hit(Settled(s, addr), addr) == addr - addr % 4
            <==> s.window.Unmapped? || OutRange(addr, s.mapStart) || s.window.start % MASSBUF == 0
  {
    if s.window.Mapped? && !OutRange(addr, s.mapStart) {
      var start := s.window.start;
      assert start == AlignDown(addr) <==> start % MASSBUF == 0 by {
        if start % MASSBUF == 0 {
          Divided(addr, MASSBUF, start / MASSBUF, addr - start);
        } else {
          Divided(AlignDown(addr), MASSBUF, addr / MASSBUF, 0);
        }
      }
    }
  }

  /** Single accesses keep the invariant whatever their address; a bulk read keeps it exactly when it
      does not map an address that is not 256-aligned. */
  lemma SettledStaysValid(s: DriverState, addr: uint32)
    requires Valid(s)
    ensures Valid(Settled(s, addr))
  {
    Divided(AlignDown(addr), MASSBUF, addr / MASSBUF, 0);
  }

  lemma BulkStaysValidIff(s: DriverState, req: Request)
    requires Valid(s)
    ensures Valid(BulkSettled(s, req))
            <==> req.phyBase == 0 || Addr32(req) % MASSBUF == 0
                 || (s.window.Mapped? && !OutRange(Addr32(req), s.mapStart))
  {
    hide Addr32;
  }

  /** A bulk read returns the bytes at its own address exactly when it maps the window or the window
      starts there: inside any other window it returns the bytes from that window's start. */
  lemma BulkHitsIff(s: DriverState, req: Request)
    requires Coherent(s) && req.phyBase != 0
    ensures BulkSettled(s, req).window.start == Addr32(req)
            <==> s.window.Unmapped? || OutRange(Addr32(req), s.mapStart) || s.mapStart == Addr32(req)
  {
    hide Addr32;
  }

  // ---------- requests, answers, runs ----------

  datatype Op = Read(w: Width, req: Request) | Write(w: Width, req: Request) | Bulk(req: Request)

  datatype Answer = Value(v: uint32) | Done | Block(bytes: seq<uint8>) | NotFilled

  function BulkBlock(p: Platform, s: DriverState, req: Request): (b: seq<uint8>)
    requires req.phyBase != 0 ==> s.window.Mapped?
    ensures |b| == MASSBUF && forall i :: 0 <= i < MASSBUF ==> b[i] == BulkByte(p, s, req, i)
  {
    seq(MASSBUF, i requires 0 <= i < MASSBUF => BulkByte(p, s, req, i))
  }

  /** What the driver does, as its accessors specify it. */
  function Exec(p: Platform, s: DriverState, op: Op): (DriverState, Answer) {
    match op
    case Read(w, req) =>
      var (s', v) := ReadResult(p, w, s, req);
      (s', Value(v))
    case Write(w, req) => (WriteResult(p, w, s, req), Done)
    case Bulk(req) =>
      if BulkRefused(p, req) then (s, NotFilled)
      else
        var s' := BulkSettled(s, req);
        (s', Block(BulkBlock(p, s', req)))
  }

  function Run(p: Platform, s: DriverState, ops: seq<Op>): (DriverState, seq<Answer>)
    decreases |ops|
  {
    if ops == [] then (s, [])
    else
      var (s', a) := Exec(p, s, ops[0]);
      var (s'', as') := Run(p, s', ops[1..]);
      (s'', [a] + as')
  }

  ghost function BlockAt(b: ByteMap, key: int): (r: seq<uint8>)
    ensures |r| == MASSBUF && forall i :: 0 <= i < MASSBUF ==> r[i] == b[key + i]
  {
    seq(MASSBUF, i requires 0 <= i < MASSBUF => b[key + i])
  }

  /** What a client means: reads and writes of bytes named by configuration offsets. */
  ghost function Meaning(b: ByteMap, op: Op): (ByteMap, Answer) {
    match op
    case Read(w, req) => (b, Value(ReadAt(w, b, KeyOf(req))))
    case Write(w, req) => (WriteAt(w, b, KeyOf(req), req.buf), Done)
    case Bulk(req) => (b, Block(BlockAt(b, KeyOf(req))))
  }

  ghost function MeaningOfRun(b: ByteMap, ops: seq<Op>): (ByteMap, seq<Answer>) {
    if ops == [] then (b, [])
    else
      var (b', a) := Meaning(b, ops[0]);
      var (b'', as') := MeaningOfRun(b', ops[1..]);
      (b'', [a] + as')
  }

  lemma TwoSteps(p: Platform, s: DriverState, a: Op, b: Op)
    ensures var (s1, x) := Exec(p, s, a);
            var (s2, y) := Exec(p, s1, b);
            Run(p, s, [a, b]) == (s2, [x, y])
  {
    hide Exec;
    var (s1, x) := Exec(p, s, a);
    var (s2, y) := Exec(p, s1, b);
    assert [a, b][1..] == [b] && [b][1..] == [];
    var none: seq<Answer> := [];
    assert Run(p, s2, []) == (s2, none) && [y] + none == [y] && [x] + [y] == [x, y];
    assert Run(p, s1, [b]) == (s2, [y]);
  }

  // ---------- what a client must see to ----------

  /** ECAM is 256-aligned and fits below 4 GiB. */
  predicate GoodPlatform(p: Platform) {
    0 < p.ecam <= 0x1_0000_0000 - SPACE && p.ecam % MASSBUF == 0
  }

  /** Registers in range, and MMIO only under the base the hardware decodes, above the RAM guard. */
  predicate GoodRequest(p: Platform, req: Request) {
    && InRange(req)
    && (req.phyBase != 0 ==> req.phyBase == p.ecam && !Refused(p, AlignDown(Addr32(req))))
  }

  /** Single accesses at any register, bulk reads at 256-aligned ones. */
  predicate ServedOp(p: Platform, op: Op) {
    GoodRequest(p, op.req) && (op.Bulk? ==> op.req.reg % MASSBUF == 0)
  }

  /** What the screens keep to: single accesses are naturally aligned too. */
  predicate GoodOp(p: Platform, op: Op) {
    ServedOp(p, op) && (op.Read? || op.Write? ==> Aligned(op.w, op.req.reg))
  }

  /** Then a client means plain reads and writes of as many bytes as the width says. */
  lemma GoodOpIsPlain(p: Platform, b: ByteMap, op: Op)
    requires GoodOp(p, op)
    ensures ServedOp(p, op)
    ensures Meaning(b, op) == match op
                              case Read(w, req) => (b, Value(ReadBytes(w, b, KeyOf(req))))
                              case Write(w, req) => (WriteBytes(w, b, KeyOf(req), req.buf), Done)
                              case Bulk(req) => (b, Block(BlockAt(b, KeyOf(req))))
  {
    hide ReadAt, WriteAt, ReadBytes, WriteBytes, KeyOf, Refused, Addr32, Aligned;
    if !op.Bulk? {
      SameAlignment(op.w, op.req);
      AlignedIsPlain(op.w, b, KeyOf(op.req), op.req.buf);
    }
  }

  /** Wherever RAM ends, the guard refuses an MMIO request exactly when its window does not reach past RAM,
      or is the last one below 4 GiB, where the 32-bit sum wraps to zero. */
  lemma RefusedIff(p: Platform, req: Request)
    requires GoodPlatform(p) && InRange(req) && req.phyBase == p.ecam
    ensures var a := p.ecam + KeyOf(req);
            Refused(p, AlignDown(Addr32(req))) <==> a >= 0xffff_ff00 || a - a % MASSBUF + MASSBUF <= p.ramTop
  {
    hide Address, KeyOf, AlignDown, Refused;
    EcamAddressInverse(req);
    EcamAddress(req);
    KeyRange(req);
    GuardIff(p, Addr32(req));
  }

  /** A bulk read is refused, and nothing is filled or mapped, exactly if it is an MMIO request whose own 256 bytes
      do not reach past RAM, or wrap around at 4 GiB to an end that does not. */
  lemma BulkRefusedIff(p: Platform, s: DriverState, req: Request)
    ensures Exec(p, s, Bulk(req)) == (s, NotFilled)
            <==> var end := Addr32(req) + MASSBUF;
                 req.phyBase != 0 && (if end < 0x1_0000_0000 then end else end - 0x1_0000_0000) <= p.ramTop
  {
    hide Addr32, BulkSettled, BulkBlock;
    var end := Addr32(req) + MASSBUF;
    if end < 0x1_0000_0000 {
      Divided(end, 0x1_0000_0000, 0, end);
    } else {
      Divided(end, 0x1_0000_0000, 1, end - 0x1_0000_0000);
    }
  }

  lemma KeyRange(req: Request)
    requires InRange(req)
    ensures 0 <= KeyOf(req) < SPACE
  {
    KeyInverse(req.bus, req.dev, req.fun, req.reg);
  }

  lemma GuardIff(p: Platform, addr: uint32)
    ensures Refused(p, AlignDown(addr)) <==> addr >= 0xffff_ff00 || addr - addr % MASSBUF + MASSBUF <= p.ramTop
  {
    if addr >= 0xffff_ff00 {
      Divided(addr, MASSBUF, 0xff_ffff, addr - 0xffff_ff00);
    } else {
      assert AlignDown(addr) + MASSBUF < 0x1_0000_0000;
    }
  }

  // ---------- both mechanisms reach dword key / 4 ----------

  lemma PortTarget(req: Request)
    requires InRange(req) && req.phyBase == 0
    ensures var addr, key := Addr32(req), KeyOf(req);
            addr % 4 == key % 4 && addr - addr % 4 >= 0x8000_0000 && IndexDword(addr - addr % 4) == key / 4
  {
    hide IndexDword, Address, KeyOf;
    PortAddress(req);
    IndexArithmetic(FunctionNumber(req), req.reg);
  }

  function FunctionNumber(req: Request): int {
    req.bus * 0x100 + req.dev * 8 + req.fun
  }

  lemma PortAddress(req: Request)
    requires InRange(req) && req.phyBase == 0
    ensures 0 <= FunctionNumber(req) < 0x1_0000
    ensures Addr32(req) == 0x8000_0000 + FunctionNumber(req) * 0x100 + req.reg
    ensures KeyOf(req) == FunctionNumber(req) * 0x1000 + req.reg
  {
    hide Or;
    IndexFits(req);
  }

  lemma IndexArithmetic(f: uint16, reg: uint8)
    ensures var addr, key := 0x8000_0000 + f * 0x100 + reg, f * 0x1000 + reg;
            addr % 4 == key % 4 && IndexDword(addr - addr % 4) == key / 4
  {
    var addr, key := 0x8000_0000 + f * 0x100 + reg, f * 0x1000 + reg;
    var n := reg % 4;
    Divided(addr, 4, 0x2000_0000 + f * 0x40 + reg / 4, n);
    Divided(key, 4, f * 0x400 + reg / 4, n);
    Divided(addr - n, 0x100, 0x80_0000 + f, reg - n);
    Divided(0x80_0000 + f, 0x1_0000, 0x80, f);
    Divided(reg - n, 4, reg / 4, 0);
  }

  lemma EcamTarget(p: Platform, s: DriverState, req: Request)
    requires GoodPlatform(p) && Valid(s) && InRange(req) && req.phyBase == p.ecam
    ensures var addr, key := Addr32(req), KeyOf(req);
            var hit := Hit(Settled(s, addr), addr);
            addr % 4 == key % 4 && InEcam(p, hit) && (hit - p.ecam) / 4 == key / 4
  {
    hide Address, KeyOf;
    EcamAddressInverse(req);
    EcamAddress(req);
    KeyRange(req);
    CacheAgreesIff(s, Addr32(req));
    EcamArithmetic(p.ecam, KeyOf(req));
  }

  lemma EcamArithmetic(base: int, key: int)
    requires base % MASSBUF == 0 && key >= 0
    ensures (base + key) % 4 == key % 4 && (base + key - key % 4 - base) / 4 == key / 4
  {
    Divided(base + key, 4, base / MASSBUF * 64 + key / 4, key % 4);
    Divided(key - key % 4, 4, key / 4, 0);
  }

  lemma AddressAt(p: Platform, req: Request, reg: int)
    requires GoodPlatform(p) && InRange(req) && req.phyBase == p.ecam && 0 <= reg < 0x1000
    ensures var page := p.ecam + KeyOf(req.(reg := 0));
            0 <= page <= 0xffff_ff00 && page % MASSBUF == 0
            && Addr32(req.(reg := reg)) == page + reg && KeyOf(req.(reg := reg)) == page + reg - p.ecam
  {
    var first, r := req.(reg := 0), req.(reg := reg);
    assert InRange(first) && InRange(r);
    KeyAt(req, reg);
    hide *;
    PlatformBounds(p);
    EcamBulkAddress(p, first);
    EcamAddr32(p, r);
  }

  lemma PlatformBounds(p: Platform)
    requires GoodPlatform(p)
    ensures 0 < p.ecam <= 0x1_0000_0000 - SPACE && p.ecam % MASSBUF == 0
  {}

  lemma EcamAddr32(p: Platform, req: Request)
    requires GoodPlatform(p) && InRange(req) && req.phyBase == p.ecam
    ensures Addr32(req) == p.ecam + KeyOf(req)
  {
    hide Address, KeyOf;
    EcamAddressInverse(req);
    EcamAddress(req);
  }

  lemma KeyAt(req: Request, reg: uint16)
    ensures KeyOf(req.(reg := reg)) == KeyOf(req.(reg := 0)) + reg
  {}

  /** A window mapped in the middle of a page: single accesses add their offset in the page to its start. */
  lemma MisplacedWindow(s: DriverState, page: uint32)
    requires s.window.Unmapped? && page <= 0xffff_ff00 && page % MASSBUF == 0
    ensures var t := Remapped(s, page + 0x80, page + 0x80);
            Settled(t, page + 0x90) == t && Hit(t, page + 0x90) == page + 0x110
    ensures (page + 0x90) % 4 == 0 && AlignDown(page + 0x90) == page
  {
    Divided(page + 0x90, MASSBUF, page / MASSBUF, 0x90);
    Divided(page + 0x90, 4, page / MASSBUF * 64 + 36, 0);
  }

  lemma MisplacedByte(p: Platform, s: DriverState, page: uint32)
    requires GoodPlatform(p) && 0 <= page - p.ecam < SPACE - 0x110 && page % MASSBUF == 0
    ensures Extracted(Byte, PhysRead(p, s, page + 0x110), 0) == View(s.config)[page + 0x110 - p.ecam]
  {
    var key := page + 0x110 - p.ecam;
    Divided(key, 4, (page / MASSBUF - p.ecam / MASSBUF) * 64 + 68, 0);
  }

  lemma ReadAfterUnalignedBulk(p: Platform, s: DriverState, req: Request)
    requires GoodPlatform(p) && s.window.Unmapped? && req.reg == 0x80 && req.phyBase != 0
    requires GoodRequest(p, req.(reg := 0x90))
    ensures !BulkRefused(p, req)
    ensures ReadResult(p, Byte, BulkSettled(s, req), req.(reg := 0x90)).1 == View(s.config)[KeyOf(req.(reg := 0x110))]
  {
    assert InRange(req) && InRange(req.(reg := 0x110)) && req.phyBase == p.ecam && req.(reg := 0x80) == req;
    hide *;
    AddressAt(p, req, 0x80);
    AddressAt(p, req, 0x90);
    AddressAt(p, req, 0x110);
    KeyRange(req.(reg := 0x110));
    PlatformBounds(p);
    var page: uint32 := p.ecam + KeyOf(req.(reg := 0));
    MisplacedWindow(s, page);
    MisplacedByte(p, BulkSettled(s, req), page);
    RemapKeepsConfig(s, page + 0x80);
    MisplacedRead(p, s, req, page);
  }

  lemma MisplacedRead(p: Platform, s: DriverState, req: Request, page: uint32)
    requires req.phyBase != 0 && page <= 0xffff_ff00 && page % MASSBUF == 0
    requires Addr32(req) == page + 0x80 && Addr32(req.(reg := 0x90)) == page + 0x90
    requires !Refused(p, AlignDown(page + 0x90)) && AlignDown(page + 0x90) == page && (page + 0x90) % 4 == 0
    requires var t := Remapped(s, page + 0x80, page + 0x80);
             Settled(t, page + 0x90) == t && Hit(t, page + 0x90) == page + 0x110
    ensures BulkSettled(s, req) == Remapped(s, page + 0x80, page + 0x80) && !BulkRefused(p, req)
    ensures ReadResult(p, Byte, BulkSettled(s, req), req.(reg := 0x90)).1
            == Extracted(Byte, PhysRead(p, BulkSettled(s, req), page + 0x110), 0)
  {
    hide Addr32, Hit, Settled, AlignDown, Extracted, PhysRead, PortRead, Remapped;
    Divided(0xffff_ff00 - page, MASSBUF, 0xff_ffff - page / MASSBUF, 0);
  }

  lemma RemapKeepsConfig(s: DriverState, at: uint32)
    ensures Remapped(s, at, at).config == s.config
  {}

  /** Why bulk reads must be 256-aligned: after one at register 0x80 of a function, a byte read of its
      register 0x90 is answered with the byte at 0x110. */
  lemma UnalignedBulkMisleads(p: Platform, s: DriverState, req: Request)
    requires GoodPlatform(p) && s.window.Unmapped? && req.reg == 0x80 && req.phyBase != 0
    requires GoodRequest(p, req.(reg := 0x90))
    ensures var answers := Run(p, s, [Bulk(req), Read(Byte, req.(reg := 0x90))]).1;
            |answers| == 2 && answers[1] == Value(View(s.config)[KeyOf(req.(reg := 0x110))])
  {
    hide *;
    var bulk, next := Bulk(req), Read(Byte, req.(reg := 0x90));
    ReadAfterUnalignedBulk(p, s, req);
    BulkAnswer(p, s, req);
    ReadAnswer(p, BulkSettled(s, req), Byte, req.(reg := 0x90));
    TwoSteps(p, s, bulk, next);
  }

  lemma BulkAnswer(p: Platform, s: DriverState, req: Request)
    requires !BulkRefused(p, req)
    ensures Exec(p, s, Bulk(req)) == (BulkSettled(s, req), Block(BulkBlock(p, BulkSettled(s, req), req)))
  {
    hide BulkSettled, BulkBlock, BulkRefused;
  }

  lemma ReadAnswer(p: Platform, s: DriverState, w: Width, req: Request)
    ensures Exec(p, s, Read(w, req)).1 == Value(ReadResult(p, w, s, req).1)
  {
    hide ReadResult;
  }

  // ---------- single accesses ----------

  ghost predicate Agrees(s: DriverState, s': DriverState, b: ByteMap) {
    Valid(s') && s'.ram == s.ram && s'.cf8 == s.cf8 && View(s'.config) == b
  }

  lemma SameAlignment(w: Width, req: Request)
    requires Aligned(w, req.reg)
    ensures Aligned(w, KeyOf(req))
  {
    var k := req.bus * 0x10_0000 + req.dev * 0x8000 + req.fun * 0x1000;
    var h := req.bus * 0x4_0000 + req.dev * 0x2000 + req.fun * 0x400;
    if w == Word {
      Divided(k + req.reg, 2, 2 * h + req.reg / 2, 0);
    } else if w == Dword {
      Divided(k + req.reg, 4, h + req.reg / 4, 0);
    }
  }

  lemma ReadAgrees(p: Platform, s: DriverState, w: Width, req: Request)
    requires GoodPlatform(p) && Valid(s) && GoodRequest(p, req)
    ensures var (s', v) := ReadResult(p, w, s, req);
            Agrees(s, s', View(s.config)) && v == ReadAt(w, View(s.config), KeyOf(req))
  {
    hide Address, KeyOf, Extracted, ReadAt, Refused, IndexDword, Settled, Hit, AlignDown, Addr32, Valid;
    ExtractIsRead(w, s.config, KeyOf(req));
    if req.phyBase == 0 {
      PortTarget(req);
    } else {
      EcamTarget(p, s, req);
      SettledStaysValid(s, Addr32(req));
      SettledKeeps(s, Addr32(req));
    }
  }

  lemma SettledKeeps(s: DriverState, addr: uint32)
    ensures var s' := Settled(s, addr);
            s'.config == s.config && s'.ram == s.ram && s'.cf8 == s.cf8
  {}

  lemma WriteAgrees(p: Platform, s: DriverState, w: Width, req: Request)
    requires GoodPlatform(p) && Valid(s) && GoodRequest(p, req)
    ensures Agrees(s, WriteResult(p, w, s, req), WriteAt(w, View(s.config), KeyOf(req), req.buf))
  {
    hide Address, KeyOf, Merged, Refused, IndexDword, Settled, Hit, AlignDown, Addr32, Split;
    hide View, WriteBytes, Coherent, WindowAligned;
    SameOffset(p, s, req);
    if w == Dword && KeyOf(req) % 4 != 0 {
      return;
    }
    MergeIsWrite(w, s.config, KeyOf(req), req.buf);
    hide WriteAt;
    if req.phyBase == 0 {
      PortTarget(req);
      ConfigChangeKeepsValid(s, WriteResult(p, w, s, req));
    } else {
      EcamTarget(p, s, req);
      SettledStaysValid(s, Addr32(req));
      SettledKeeps(s, Addr32(req));
      ConfigChangeKeepsValid(Settled(s, Addr32(req)), WriteResult(p, w, s, req));
    }
  }

  lemma SameOffset(p: Platform, s: DriverState, req: Request)
    requires GoodPlatform(p) && Valid(s) && GoodRequest(p, req)
    ensures Addr32(req) % 4 == KeyOf(req) % 4
  {
    hide Addr32, KeyOf, Refused, Settled, Hit, Valid, IndexDword;
    if req.phyBase == 0 {
      PortTarget(req);
    } else {
      EcamTarget(p, s, req);
    }
  }

  lemma AlignedMeansWholeDword(w: Width, a: int)
    requires Aligned(w, a)
    ensures w == Dword ==> a % 4 == 0
  {}

  lemma ConfigChangeKeepsValid(s: DriverState, s': DriverState)
    requires Valid(s) && s'.window == s.window && s'.mapStart == s.mapStart
    ensures Valid(s')
  {}

  // ---------- bulk reads ----------

  lemma PortBulkTarget(req: Request, i: nat)
    requires InRange(req) && req.phyBase == 0 && req.reg == 0 && i < 64
    ensures var index := (Addr32(req) + 4 * i) % 0x1_0000_0000;
            index >= 0x8000_0000 && IndexDword(index) == KeyOf(req) / 4 + i
  {
    hide IndexDword, Address, KeyOf, FunctionNumber;
    PortAddress(req);
    var f := FunctionNumber(req);
    IndexArithmetic(f, 4 * i);
    Divided(4 * i, 4, i, 0);
    Divided(f * 0x1000 + 4 * i, 4, f * 0x400 + i, 0);
    Divided(f * 0x1000, 4, f * 0x400, 0);
  }

  lemma EcamBulkAddress(p: Platform, req: Request)
    requires GoodPlatform(p) && InRange(req) && req.phyBase == p.ecam && req.reg % MASSBUF == 0
    ensures Addr32(req) == p.ecam + KeyOf(req) && KeyOf(req) % MASSBUF == 0 && 0 <= KeyOf(req) <= SPACE - MASSBUF
    ensures Addr32(req) % MASSBUF == 0
  {
    hide Address, KeyOf;
    EcamAddressInverse(req);
    EcamAddress(req);
    KeyRange(req);
    BulkKey(req);
    Divided(Addr32(req), MASSBUF, p.ecam / MASSBUF + KeyOf(req) / MASSBUF, 0);
  }

  lemma EcamBulkTarget(p: Platform, s: DriverState, req: Request)
    requires GoodPlatform(p) && Valid(s) && InRange(req) && req.phyBase == p.ecam && req.reg % MASSBUF == 0
    ensures var s' := BulkSettled(s, req);
            && Valid(s') && s'.window.start == p.ecam + KeyOf(req)
            && s'.config == s.config && s'.ram == s.ram && s'.cf8 == s.cf8
    ensures Addr32(req) == p.ecam + KeyOf(req) && KeyOf(req) % MASSBUF == 0 && 0 <= KeyOf(req) <= SPACE - MASSBUF
  {
    hide Addr32, KeyOf;
    EcamBulkAddress(p, req);
    var addr := Addr32(req);
    if s.window.Mapped? && !OutRange(addr, s.mapStart) {
      Divided(addr, MASSBUF, s.window.start / MASSBUF, addr - s.window.start);
    }
  }

  lemma BulkKey(req: Request)
    requires InRange(req) && req.reg % MASSBUF == 0
    ensures KeyOf(req) % MASSBUF == 0 && KeyOf(req) % 4 == 0 && KeyOf(req) <= SPACE - MASSBUF
  {
    var h := req.bus * 0x1000 + req.dev * 0x80 + req.fun * 0x10;
    Divided(KeyOf(req), MASSBUF, h + req.reg / MASSBUF, 0);
    Divided(KeyOf(req), 4, 64 * (h + req.reg / MASSBUF), 0);
  }

  lemma BulkDwordTarget(p: Platform, s: DriverState, req: Request, i: nat)
    requires GoodPlatform(p) && Valid(s) && ServedOp(p, Bulk(req)) && i < 64
    ensures BulkDword(p, BulkSettled(s, req), req, i) == s.config[KeyOf(req) / 4 + i]
  {
    hide Address, KeyOf, IndexDword, Addr32, Valid;
    BulkKey(req);
    if req.phyBase == 0 {
      PortBulkTarget(req, i);
    } else {
      EcamBulkTarget(p, s, req);
      Divided(KeyOf(req) + 4 * i, 4, KeyOf(req) / 4 + i, 0);
    }
  }

  lemma BulkAgrees(p: Platform, s: DriverState, req: Request)
    requires GoodPlatform(p) && Valid(s) && ServedOp(p, Bulk(req))
    ensures !BulkRefused(p, req)
    ensures var s' := BulkSettled(s, req);
            Agrees(s, s', View(s.config)) && BulkBlock(p, s', req) == BlockAt(View(s.config), KeyOf(req))
  {
    hide Address, KeyOf, IndexDword, Addr32, BulkDword, Refused, AlignDown;
    BulkKey(req);
    var s' := BulkSettled(s, req);
    if req.phyBase != 0 {
      EcamBulkTarget(p, s, req);
      AlignedWindow(Addr32(req), p.ecam, KeyOf(req));
    }
    BulkBytesAgree(p, s, req);
  }

  lemma AlignedWindow(addr: uint32, base: int, key: int)
    requires addr == base + key && base % MASSBUF == 0 && key % MASSBUF == 0
    ensures AlignDown(addr) == addr
  {
    Divided(addr, MASSBUF, base / MASSBUF + key / MASSBUF, 0);
  }

  lemma BulkBytesAgree(p: Platform, s: DriverState, req: Request)
    requires GoodPlatform(p) && Valid(s) && ServedOp(p, Bulk(req))
    ensures BulkBlock(p, BulkSettled(s, req), req) == BlockAt(View(s.config), KeyOf(req))
  {
    BulkKey(req);
    hide *;
    var s', key := BulkSettled(s, req), KeyOf(req);
    forall i | 0 <= i < MASSBUF
      ensures BulkBlock(p, s', req)[i] == BlockAt(View(s.config), key)[i]
    {
      BulkByteAgrees(p, s, req, i);
    }
  }

  lemma BulkByteAgrees(p: Platform, s: DriverState, req: Request, i: nat)
    requires GoodPlatform(p) && Valid(s) && ServedOp(p, Bulk(req)) && i < MASSBUF && KeyOf(req) % 4 == 0
    ensures BulkByte(p, BulkSettled(s, req), req, i) == View(s.config)[KeyOf(req) + i]
  {
    hide KeyOf, BulkDword, ServedOp, GoodPlatform, Valid, BulkSettled, Lane;
    BulkDwordTarget(p, s, req, i / 4);
    var key := KeyOf(req);
    Divided(key + i, 4, key / 4 + i / 4, i % 4);
  }

  // ---------- the theorem ----------

  lemma ExecAgrees(p: Platform, s: DriverState, op: Op)
    requires GoodPlatform(p) && Valid(s) && ServedOp(p, op)
    ensures var (s', a) := Exec(p, s, op);
            var (b', a') := Meaning(View(s.config), op);
            Agrees(s, s', b') && a == a'
  {
    hide ReadResult, WriteResult, BulkBlock, BlockAt, View, BulkSettled, BulkRefused, ReadAt, WriteAt, GoodRequest;
    match op
    case Read(w, req) => ReadAgrees(p, s, w, req);
    case Write(w, req) => WriteAgrees(p, s, w, req);
    case Bulk(req) => BulkAgrees(p, s, req);
  }

  /** Any run that mixes the two mechanisms, from any state with an aligned window: every answer and
      the final configuration space are those of reads and writes on one byte map; RAM and the index
      register are as they were, and the window is still aligned. */
  lemma {:induction false} OneByteMap(p: Platform, s: DriverState, ops: seq<Op>)
    requires GoodPlatform(p) && Valid(s)
    requires forall op :: op in ops ==> ServedOp(p, op)
    decreases |ops|
    ensures var (s', answers) := Run(p, s, ops);
            var (b', answers') := MeaningOfRun(View(s.config), ops);
            Agrees(s, s', b') && answers == answers'
  {
    hide Exec, Meaning, View, ServedOp, Valid;
    if ops != [] {
      ExecAgrees(p, s, ops[0]);
      var (s', _) := Exec(p, s, ops[0]);
      OneByteMap(p, s', ops[1..]);
    }
  }
}
