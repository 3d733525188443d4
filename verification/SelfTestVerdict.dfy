/**
 What the PCIe self-test decides: a function passes exactly if its first and its third dword are what MMIO reaches
 under its base, and the guard lets MMIO through (lfdk/lib_pci_scan.c).
 */
module SelfTestVerdict {
  import opened Bits
  import opened Words
  import opened AddressCodec
  import opened CachedWindow
  import opened ConfigStore
  import opened Enumeration
  import opened PcixDriver
  import opened SelfTest
  import P = PciScreens

  /** The physical address of a function's first register under its base. */
  function PageOf(d: P.Device): int {
    d.phyBase + Key(d.bus, d.dev, d.fun, 0)
  }

  lemma PageBound(d: P.Device)
    requires Testable(d) && d.phyBase != 0
    ensures 0 <= PageOf(d) < 0xffff_ff00 && PageOf(d) % MASSBUF == 0
  {
    MmioAddress(d, 0);
  }

  lemma PageArithmetic(page: int, reg: uint8)
    requires 0 <= page && page % MASSBUF == 0
    ensures (page + reg) % 4 == reg % 4 && (page + reg) % MASSBUF == reg
    ensures page + reg - (page + reg) % 4 == page + 4 * (reg / 4)
  {
    Divided(page + reg, 4, page / MASSBUF * 64 + reg / 4, reg % 4);
    Divided(page + reg, MASSBUF, page / MASSBUF, reg);
    assert reg == 4 * (reg / 4) + reg % 4;
  }

  /** Dword i of a function through MMIO, and in configuration space. */
  function Reached(m: Machine, d: P.Device, i: int): Lanes {
    PhysRead(m.platform, m.hw, PageOf(d) + 4 * i)
  }

  function Stored(m: Machine, d: P.Device, i: int): Lanes {
    m.hw.config[Key(d.bus, d.dev, d.fun, 0) / 4 + i]
  }

  /** A register's address is in the window of the function's first page. */
  lemma AddressParts(d: P.Device, reg: uint8)
    requires Testable(d) && d.phyBase != 0
    ensures var addr := Addr32(Mmio(d, reg));
            AlignDown(addr) == PageOf(d) && addr % 4 == reg % 4 && addr - addr % 4 == PageOf(d) + 4 * (reg / 4)
  {
    PageIs(d);
    hide *;
    PageBound(d);
    MmioAddress(d, reg);
    PageArithmetic(PageOf(d), reg);
    AlignDownIs(PageOf(d) + reg);
  }

  lemma PageIs(d: P.Device)
    ensures PageOf(d) == d.phyBase + Key(d.bus, d.dev, d.fun, 0)
  {
    hide Key;
  }

  lemma AlignDownIs(addr: uint32)
    ensures AlignDown(addr) == addr - addr % MASSBUF
  {}

  lemma ReadBranch(m: Machine, w: Width, req: Request)
    requires req.phyBase != 0
    ensures var addr := Addr32(req);
            var s := Settled(Fresh(m.hw), addr);
            Reply(m, w, req) == if Refused(m.platform, AlignDown(addr)) then Limit(w) - 1
                                else Extracted(w, PhysRead(m.platform, s, Hit(s, addr)), addr % 4)
  {
    hide Addr32, Extracted, PhysRead, Refused, Settled, Hit, AlignDown, PortRead;
  }

  /** What a register reads as through MMIO. */
  lemma MmioReads(m: Machine, w: Width, d: P.Device, reg: uint8)
    requires Testable(d) && d.phyBase != 0
    ensures 0 <= PageOf(d) < 0xffff_ff00
    ensures Reply(m, w, Mmio(d, reg))
            == if Refused(m.platform, PageOf(d)) then Limit(w) - 1 else Extracted(w, Reached(m, d, reg / 4), reg % 4)
  {
    hide *;
    MmioNames(d, reg);
    PageBound(d);
    AddressParts(d, reg);
    ReachedIs(m, d, reg / 4);
    FreshRead(m, w, Mmio(d, reg));
  }

  lemma MmioNames(d: P.Device, reg: uint16)
    ensures Mmio(d, reg).phyBase == d.phyBase
  {}

  /** With nothing mapped a read reaches its own dword. */
  lemma FreshRead(m: Machine, w: Width, req: Request)
    requires req.phyBase != 0
    ensures var addr := Addr32(req);
            Reply(m, w, req) == if Refused(m.platform, AlignDown(addr)) then Limit(w) - 1
                                else Extracted(w, PhysRead(m.platform, m.hw, addr - addr % 4), addr % 4)
  {
    hide *;
    var addr := Addr32(req);
    ReadBranch(m, w, req);
    FreshIsValid(m.platform, m.hw, addr - addr % 4);
    SettledHits(m.platform, Fresh(m.hw), addr);
  }

  lemma ReachedIs(m: Machine, d: P.Device, i: int)
    ensures Reached(m, d, i) == PhysRead(m.platform, m.hw, PageOf(d) + 4 * i)
  {
    hide PhysRead, PageOf;
  }

  /** And through the ports. */
  lemma PortReads(m: Machine, w: Width, d: P.Device, reg: uint8)
    requires d.dev < 32 && d.fun < 8
    ensures Reply(m, w, Port(d.bus, d.dev, d.fun, reg)) == Extracted(w, Stored(m, d, reg / 4), reg % 4)
  {
    hide *;
    PortSelects(m, w, d.bus, d.dev, d.fun, reg);
    SelectionIs(m, w, d.bus, d.dev, d.fun, reg);
    KeyDword(d.bus, d.dev, d.fun, reg);
    StoredIs(m, d, reg / 4);
  }

  lemma SelectionIs(m: Machine, w: Width, bus: uint8, dev: uint8, fun: uint8, reg: uint8)
    ensures var key := Key(bus, dev, fun, reg);
            Selection(m, w, bus, dev, fun, reg) == Extracted(w, m.hw.config[key / 4], key % 4)
  {
    hide Key, Extracted;
  }

  lemma SameReplyMeans(m: Machine, w: Width, d: P.Device, reg: uint8)
    ensures SameReply(m, w, d, reg) <==> Reply(m, w, Mmio(d, reg)) == Reply(m, w, Port(d.bus, d.dev, d.fun, reg))
  {
    hide Reply, Mmio, Port;
  }

  lemma SameReplyIff(m: Machine, w: Width, d: P.Device, reg: uint8)
    requires Testable(d) && d.phyBase != 0 && 0 <= PageOf(d) < 0xffff_ff00 && !Refused(m.platform, PageOf(d))
    ensures SameReply(m, w, d, reg)
            <==> Extracted(w, Reached(m, d, reg / 4), reg % 4) == Extracted(w, Stored(m, d, reg / 4), reg % 4)
  {
    assert d.dev < 32 && d.fun < 8;
    hide *;
    SameReplyMeans(m, w, d, reg);
    MmioReads(m, w, d, reg);
    PortReads(m, w, d, reg);
  }

  lemma AllLanes(a: Lanes, b: Lanes)
    requires forall n :: 0 <= n < 4 ==> Extracted(Byte, a, n) == Extracted(Byte, b, n)
    ensures a == b
  {
    assert Extracted(Byte, a, 0) == Extracted(Byte, b, 0) && Extracted(Byte, a, 1) == Extracted(Byte, b, 1);
    assert Extracted(Byte, a, 2) == Extracted(Byte, b, 2) && Extracted(Byte, a, 3) == Extracted(Byte, b, 3);
  }

  /** The eight registers are the bytes of dwords 0 and 2. */
  lemma RegistersTested(j: int)
    requires 0 <= j < |TEST_REGS|
    ensures TEST_REGS[j] == 8 * (j / 4) + j % 4 && TEST_REGS[j] / 4 == 2 * (j / 4) && TEST_REGS[j] % 4 == j % 4
  {
    assert j in {0, 1, 2, 3, 4, 5, 6, 7};
  }

  lemma ByteReadsDecide(m: Machine, d: P.Device)
    requires Testable(d) && d.phyBase != 0 && 0 <= PageOf(d) < 0xffff_ff00 && !Refused(m.platform, PageOf(d))
    requires ReadsAgree(m, Byte, d)
    ensures Reached(m, d, 0) == Stored(m, d, 0) && Reached(m, d, 2) == Stored(m, d, 2)
  {
    hide SameReply, Reached, Stored, PageOf, Refused, Extracted, Testable;
    forall n | 0 <= n < 4
      ensures Extracted(Byte, Reached(m, d, 0), n) == Extracted(Byte, Stored(m, d, 0), n)
      ensures Extracted(Byte, Reached(m, d, 2), n) == Extracted(Byte, Stored(m, d, 2), n)
    {
      RegistersTested(n);
      RegistersTested(n + 4);
      assert SameReply(m, Byte, d, TEST_REGS[n]) && SameReply(m, Byte, d, TEST_REGS[n + 4]);
      SameReplyIff(m, Byte, d, TEST_REGS[n]);
      SameReplyIff(m, Byte, d, TEST_REGS[n + 4]);
    }
    AllLanes(Reached(m, d, 0), Stored(m, d, 0));
    AllLanes(Reached(m, d, 2), Stored(m, d, 2));
  }

  lemma EqualDwordsAgree(m: Machine, w: Width, d: P.Device)
    requires Testable(d) && d.phyBase != 0 && 0 <= PageOf(d) < 0xffff_ff00 && !Refused(m.platform, PageOf(d))
    requires Reached(m, d, 0) == Stored(m, d, 0) && Reached(m, d, 2) == Stored(m, d, 2)
    ensures ReadsAgree(m, w, d)
  {
    hide SameReply, Reached, Stored, PageOf, Refused, Extracted, Testable;
    forall j | 0 <= j < |TEST_REGS|
      ensures SameReply(m, w, d, TEST_REGS[j])
    {
      RegistersTested(j);
      SameReplyIff(m, w, d, TEST_REGS[j]);
    }
  }

  /** A byte of the bulk reads. */
  lemma MmioBulkByte(m: Machine, d: P.Device, i: nat)
    requires Testable(d) && d.phyBase != 0 && 0 <= PageOf(d) < 0xffff_ff00 && !Refused(m.platform, PageOf(d))
    requires i < MASSBUF
    ensures BulkReply(m, Mmio(d, 0))[i] == Lane(Reached(m, d, i / 4), i % 4)
  {
    hide *;
    MmioNames(d, 0);
    PageIs(d);
    MmioAddress(d, 0);
    MmioBulkBranch(m, Mmio(d, 0), i);
    ReachedIs(m, d, i / 4);
  }

  lemma MmioBulkBranch(m: Machine, req: Request, i: nat)
    requires req.phyBase != 0 && !Refused(m.platform, Addr32(req)) && i < MASSBUF
    ensures BulkReply(m, req)[i] == Lane(PhysRead(m.platform, m.hw, Addr32(req) + 4 * (i / 4)), i % 4)
  {
    hide Addr32, Lane, Refused;
  }

  lemma PortBulkByte(m: Machine, d: P.Device, i: nat)
    requires d.dev < 32 && d.fun < 8 && i < MASSBUF
    ensures BulkReply(m, Port(d.bus, d.dev, d.fun, 0))[i] == Lane(Stored(m, d, i / 4), i % 4)
  {
    var port := Port(d.bus, d.dev, d.fun, 0);
    assert InRange(port) && KeyOf(port) == Key(d.bus, d.dev, d.fun, 0) && port.phyBase == 0 && port.reg == 0;
    StoredIs(m, d, i / 4);
    hide *;
    PortBulkTarget(port, i / 4);
    PortBulkBranch(m, port, i);
    OpenPort(m.hw.config, (Addr32(port) + 4 * (i / 4)) % 0x1_0000_0000);
  }

  lemma StoredIs(m: Machine, d: P.Device, i: int)
    ensures Stored(m, d, i) == m.hw.config[Key(d.bus, d.dev, d.fun, 0) / 4 + i]
  {
    hide Key;
  }

  lemma PortBulkBranch(m: Machine, port: Request, i: nat)
    requires port.phyBase == 0 && i < MASSBUF
    ensures BulkReply(m, port)[i] == Lane(PortRead(m.hw.config, (Addr32(port) + 4 * (i / 4)) % 0x1_0000_0000), i % 4)
  {
    hide Addr32, Lane, PortRead;
  }

  lemma EqualDwordsAgreeInBulk(m: Machine, d: P.Device)
    requires Testable(d) && d.phyBase != 0 && 0 <= PageOf(d) < 0xffff_ff00 && !Refused(m.platform, PageOf(d))
    requires Reached(m, d, 0) == Stored(m, d, 0) && Reached(m, d, 2) == Stored(m, d, 2)
    ensures BlocksAgree(m, d)
  {
    hide BulkReply, Reached, Stored, PageOf, Refused, Lane;
    forall j | 0 <= j < |TEST_REGS|
      ensures BulkReply(m, Mmio(d, 0))[TEST_REGS[j]] == BulkReply(m, Port(d.bus, d.dev, d.fun, 0))[TEST_REGS[j]]
    {
      RegistersTested(j);
      MmioBulkByte(m, d, TEST_REGS[j]);
      PortBulkByte(m, d, TEST_REGS[j]);
    }
  }

  lemma GuardOfPage(m: Machine, d: P.Device)
    requires Testable(d) && d.phyBase != 0
    ensures 0 <= PageOf(d) < 0xffff_ff00
    ensures Refused(m.platform, PageOf(d)) <==> PageOf(d) + MASSBUF <= m.platform.ramTop
    ensures Guarded(m.platform, TestRequest(d)) <==> Refused(m.platform, PageOf(d))
  {
    assert TestRequest(d) == Mmio(d, REG_TEST) && 0 <= REG_TEST < 0x100;
    hide *;
    PageBound(d);
    AddressParts(d, REG_TEST);
    GuardMeans(m.platform, TestRequest(d));
    RefusedMeans(m.platform, PageOf(d));
  }

  lemma GuardMeans(p: Platform, req: Request)
    ensures Guarded(p, req) <==> Refused(p, AlignDown(Addr32(req)))
  {
    hide Refused, AlignDown, Addr32;
  }

  lemma RefusedMeans(p: Platform, start: uint32)
    requires start < 0xffff_ff00
    ensures Refused(p, start) <==> start + MASSBUF <= p.ramTop
  {}

  /** For every base, decoded or not: a function passes the self-test if and only if its first window reaches past
      RAM and MMIO finds its first and third dword there. */
  lemma DevicePassesIff(m: Machine, d: P.Device)
    requires Testable(d) && d.phyBase != 0
    ensures DevicePasses(m, d)
            <==> && PageOf(d) + MASSBUF > m.platform.ramTop
                 && Reached(m, d, 0) == Stored(m, d, 0) && Reached(m, d, 2) == Stored(m, d, 2)
  {
    GuardOfPage(m, d);
    hide ReadsAgree, BlocksAgree, Reached, Stored, PageOf, Refused, Guarded, Testable;
    if !Refused(m.platform, PageOf(d)) {
      if ReadsAgree(m, Byte, d) {
        ByteReadsDecide(m, d);
      }
      if Reached(m, d, 0) == Stored(m, d, 0) && Reached(m, d, 2) == Stored(m, d, 2) {
        EqualDwordsAgree(m, Byte, d);
        EqualDwordsAgree(m, Word, d);
        EqualDwordsAgree(m, Dword, d);
        EqualDwordsAgreeInBulk(m, d);
      }
    }
  }
}
